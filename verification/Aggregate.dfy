/** What `write` says about the store: counts per source, severity and item,
    the oldest open finding per source and severity, and the source's times.
    `Holds` defines it from the findings; `Render` is the text; the theorems
    connect the two through a reader of the text. */
module Aggregate {
  import opened Text
  import opened Clock
  import opened Sorting
  import opened Findings
  import opened Exposition
  import Utf8

  datatype CountKey = CountKey(source: string, severity: string, item: string)
  datatype AgeKey = AgeKey(source: string, severity: string)

  // ---------------------------------------------------------------- the meaning of a store

  function FindingsOf(v: Sources, n: string): seq<Finding> {
    Previous(v, n).findings
  }

  /** How many of `fs` have this severity and item. */
  function Tally(fs: seq<Finding>, severity: string, item: string): nat {
    if fs == [] then 0 else
      var f := fs[|fs| - 1];
      Tally(fs[..|fs| - 1], severity, item) + if f.severity == severity && f.item == item then 1 else 0
  }

  function Count(v: Sources, k: CountKey): nat {
    Tally(FindingsOf(v, k.source), k.severity, k.item)
  }

  /** The least non-zero `since` among the findings of one severity. */
  function OldestIn(fs: seq<Finding>, severity: string): (r: Option<Time>)
    ensures r.None? <==> forall f | f in fs && f.severity == severity :: f.since == 0
    ensures r.Some? ==> r.value != 0 && exists f :: f in fs && f.severity == severity && f.since == r.value
    ensures r.Some? ==> forall f | f in fs && f.severity == severity && f.since != 0 :: r.value <= f.since
  {
    if fs == [] then None else
      var k := |fs| - 1;
      assert forall f :: f in fs <==> f in fs[..k] || f == fs[k];
      var best := OldestIn(fs[..k], severity);
      if fs[k].severity == severity && fs[k].since != 0 && (best.None? || fs[k].since < best.value)
      then Some(fs[k].since) else best
  }

  function Oldest(v: Sources, k: AgeKey): Option<Time> {
    OldestIn(FindingsOf(v, k.source), k.severity)
  }

  /** Time.Unix(): whole seconds since 1970. */
  function Unix(t: Time): int {
    t / 1_000_000_000 - 62_135_596_800
  }

  const OPEN := "findings_open"
  const OLDEST := "findings_oldest_open" + "_timestamp_seconds"
  const UP := "findings_source_up"
  const SUCCESS := "findings_source_last_success" + "_timestamp_seconds"
  const DATA := "findings_source_data" + "_timestamp_seconds"

  function OpenSeries(k: CountKey): Series {
    Series(OPEN, [("source", k.source), ("severity", k.severity), ("item", k.item)])
  }

  function OldestSeries(k: AgeKey): Series {
    Series(OLDEST, [("source", k.source), ("severity", k.severity)])
  }

  function SourceSeries(metric: string, n: string): Series {
    Series(metric, [("source", n)])
  }

  /** The store says that series `x.series` has the value `x.value`. */
  ghost predicate Holds(v: Sources, x: Sample) {
    || (exists k :: x.series == OpenSeries(k) && Count(v, k) > 0 && x.value == Count(v, k))
    || (exists k :: x.series == OldestSeries(k) && Oldest(v, k).Some? && x.value == Unix(Oldest(v, k).value))
    || (exists n :: n in v && HoldsOfSource(n, v[n], x))
  }

  ghost predicate HoldsOfSource(n: string, st: State, x: Sample) {
    || (x.series == SourceSeries(UP, n) && x.value == (if st.up then 1 else 0))
    || (x.series == SourceSeries(SUCCESS, n) && st.lastSuccess != 0 && x.value == Unix(st.lastSuccess))
    || (x.series == SourceSeries(DATA, n) && st.dataTime != 0 && x.value == Unix(st.dataTime))
  }

  /** A scrape that holds every series the store calls for, with its value, and nothing else. */
  ghost predicate Describes(m: map<Series, int>, v: Sources) {
    forall x: Sample :: (x.series in m && m[x.series] == x.value) <==> Holds(v, x)
  }

  // ---------------------------------------------------------------- the text

  predicate CountLess(a: CountKey, b: CountKey) {
    if a.source != b.source then Less(a.source, b.source)
    else if a.severity != b.severity then Less(a.severity, b.severity)
    else Less(a.item, b.item)
  }

  predicate AgeLess(a: AgeKey, b: AgeKey) {
    if a.source != b.source then Less(a.source, b.source) else Less(a.severity, b.severity)
  }

  lemma CountOrder()
    ensures TotalOrder(CountLess)
  {
    StringOrder();
    forall a: CountKey, b, c | !CountLess(a, b) && !CountLess(b, c) ensures !CountLess(a, c) {
    }
  }

  lemma AgeOrder()
    ensures TotalOrder(AgeLess)
  {
    StringOrder();
    forall a: AgeKey, b, c | !AgeLess(a, b) && !AgeLess(b, c) ensures !AgeLess(a, c) {
    }
  }

  ghost function CountKeys(v: Sources): (r: set<CountKey>)
    ensures forall k :: k in r <==> Count(v, k) > 0
  {
    var r := set n, i | n in v && 0 <= i < |v[n].findings| ::
                 CountKey(n, v[n].findings[i].severity, v[n].findings[i].item);
    assert forall k :: k in r <==> Count(v, k) > 0 by {
      forall k ensures k in r <==> Count(v, k) > 0 {
        TallyPositive(FindingsOf(v, k.source), k.severity, k.item);
        if Count(v, k) > 0 {
          var i :| 0 <= i < |v[k.source].findings| &&
                   v[k.source].findings[i].severity == k.severity && v[k.source].findings[i].item == k.item;
        }
      }
    }
    r
  }

  lemma {:induction false} TallyPositive(fs: seq<Finding>, severity: string, item: string)
    ensures Tally(fs, severity, item) > 0 <==>
            exists i :: 0 <= i < |fs| && fs[i].severity == severity && fs[i].item == item
  {
    if fs != [] {
      var k := |fs| - 1;
      TallyPositive(fs[..k], severity, item);
      assert forall i | 0 <= i < k :: fs[..k][i] == fs[i];
    }
  }

  ghost function AgeKeys(v: Sources): (r: set<AgeKey>)
    ensures forall k :: k in r <==> Oldest(v, k).Some?
  {
    set n, f | n in v && f in v[n].findings && f.since != 0 :: AgeKey(n, f.severity)
  }

  function OpenSamples(ks: seq<CountKey>, v: Sources): (r: seq<Sample>)
    ensures |r| == |ks| && forall i | 0 <= i < |ks| :: r[i] == Sample(OpenSeries(ks[i]), Count(v, ks[i]))
  {
    seq(|ks|, i requires 0 <= i < |ks| => Sample(OpenSeries(ks[i]), Count(v, ks[i])))
  }

  function OldestSamples(ks: seq<AgeKey>, v: Sources): (r: seq<Sample>)
    requires forall k | k in ks :: Oldest(v, k).Some?
    ensures |r| == |ks|
    ensures forall i | 0 <= i < |ks| :: r[i] == Sample(OldestSeries(ks[i]), Unix(Oldest(v, ks[i]).value))
  {
    seq(|ks|, i requires 0 <= i < |ks| => Sample(OldestSeries(ks[i]), Unix(Oldest(v, ks[i]).value)))
  }

  function UpSamples(names: seq<string>, v: Sources): (r: seq<Sample>)
    ensures |r| == |names|
    ensures forall i | 0 <= i < |names| ::
              r[i] == Sample(SourceSeries(UP, names[i]), if Previous(v, names[i]).up then 1 else 0)
  {
    seq(|names|, i requires 0 <= i < |names| =>
          Sample(SourceSeries(UP, names[i]), if Previous(v, names[i]).up then 1 else 0))
  }

  /** One sample per name whose time is set. */
  function TimeSamples(metric: string, names: seq<string>, time: string -> Time): (r: seq<Sample>)
    ensures forall x :: x in r <==>
              exists n :: n in names && time(n) != 0 && x == Sample(SourceSeries(metric, n), Unix(time(n)))
  {
    if names == [] then [] else
      var k := |names| - 1;
      assert names == names[..k] + [names[k]];
      TimeSamples(metric, names[..k], time) +
        if time(names[k]) == 0 then [] else [Sample(SourceSeries(metric, names[k]), Unix(time(names[k])))]
  }

  function SuccessOf(v: Sources): string -> Time { n => Previous(v, n).lastSuccess }

  function DataOf(v: Sources): string -> Time { n => Previous(v, n).dataTime }

  function HelpLine(metric: string, text: string): string { "# HELP " + metric + " " + text }

  function TypeLine(metric: string): string { "# TYPE " + metric + " gauge" }

  const OPEN_TEXT := "Open findings by source, normalised " + "severity and item (rule, control, " + "image or check)."
  const OLDEST_TEXT := "When the oldest open finding was " + "first seen, by source and severity."
  const UP_TEXT := "1 if the source's last refresh " + "succeeded."
  const SUCCESS_TEXT := "When the source last refreshed " + "successfully."
  const DATA_TEXT := "When the source's data was produced " + "(the Prowler report's write time)."

  /** The ten comment lines, in the order they are printed. */
  datatype Headers = Headers(open: seq<string>, oldest: seq<string>, up: seq<string>, success: seq<string>, data: seq<string>)

  function HeaderLines(): Headers {
    Headers([HelpLine(OPEN, OPEN_TEXT), TypeLine(OPEN)],
            [HelpLine(OLDEST, OLDEST_TEXT), TypeLine(OLDEST)],
            [HelpLine(UP, UP_TEXT), TypeLine(UP)],
            [HelpLine(SUCCESS, SUCCESS_TEXT), TypeLine(SUCCESS)],
            [HelpLine(DATA, DATA_TEXT), TypeLine(DATA)])
  }

  ghost predicate Header(ls: seq<string>) {
    |ls| == 2 && Comment(ls[0]) && Comment(ls[1])
  }

  ghost function NamesOf(v: Sources): (r: seq<string>)
    ensures forall n :: n in r <==> n in v
    ensures Lists(r, v.Keys) && Sorted(Less, r)
  {
    StringOrder();
    ListsMembers(Ordered(Less, v.Keys), v.Keys);
    Ordered(Less, v.Keys)
  }

  ghost function CountKeysOf(v: Sources): (r: seq<CountKey>)
    ensures forall k :: k in r <==> Count(v, k) > 0
    ensures Lists(r, CountKeys(v)) && Sorted(CountLess, r)
  {
    CountOrder();
    ListsMembers(Ordered(CountLess, CountKeys(v)), CountKeys(v));
    Ordered(CountLess, CountKeys(v))
  }

  ghost function AgeKeysOf(v: Sources): (r: seq<AgeKey>)
    ensures forall k :: k in r <==> Oldest(v, k).Some?
    ensures Lists(r, AgeKeys(v)) && Sorted(AgeLess, r)
  {
    AgeOrder();
    ListsMembers(Ordered(AgeLess, AgeKeys(v)), AgeKeys(v));
    Ordered(AgeLess, AgeKeys(v))
  }

  /** Five blocks, each its comment lines and then one line per sample. */
  function Blocks(h: Headers, a: seq<Sample>, b: seq<Sample>, c: seq<Sample>, d: seq<Sample>, e: seq<Sample>): seq<string> {
    h.open + PrintAll(a) + (h.oldest + PrintAll(b)) + (h.up + PrintAll(c)) + (h.success + PrintAll(d)) + (h.data + PrintAll(e))
  }

  /** The lines `write` prints for a store with these contents. */
  ghost function Render(h: Headers, v: Sources): seq<string> {
    Blocks(h, OpenSamples(CountKeysOf(v), v), OldestSamples(AgeKeysOf(v), v), UpSamples(NamesOf(v), v),
           TimeSamples(SUCCESS, NamesOf(v), SuccessOf(v)), TimeSamples(DATA, NamesOf(v), DataOf(v)))
  }

  // ---------------------------------------------------------------- the text gives the meaning back

  ghost function Samples(v: Sources): seq<Sample> {
    OpenSamples(CountKeysOf(v), v) + OldestSamples(AgeKeysOf(v), v) + UpSamples(NamesOf(v), v)
    + TimeSamples(SUCCESS, NamesOf(v), SuccessOf(v)) + TimeSamples(DATA, NamesOf(v), DataOf(v))
  }

  lemma OldestSamplesHold(v: Sources, x: Sample)
    ensures x in OldestSamples(AgeKeysOf(v), v) <==>
            exists k :: x.series == OldestSeries(k) && Oldest(v, k).Some? && x.value == Unix(Oldest(v, k).value)
  {
    var ks := AgeKeysOf(v);
    if k :| x.series == OldestSeries(k) && Oldest(v, k).Some? && x.value == Unix(Oldest(v, k).value) {
      var i :| 0 <= i < |ks| && ks[i] == k;
      assert OldestSamples(ks, v)[i] == x;
    }
  }

  /** The samples printed are exactly the ones the store's contents call for. */
  lemma SamplesHold(v: Sources, x: Sample)
    ensures x in Samples(v) <==> Holds(v, x)
  {
    OldestSamplesHold(v, x);
    SourceSamplesHold(v, x);
  }

  lemma SourceSamplesHold(v: Sources, x: Sample)
    ensures (|| x in UpSamples(NamesOf(v), v)
             || x in TimeSamples(SUCCESS, NamesOf(v), SuccessOf(v))
             || x in TimeSamples(DATA, NamesOf(v), DataOf(v)))
            <==> exists n :: n in v && HoldsOfSource(n, v[n], x)
  {
  }

  lemma MetricsDiffer()
    ensures OPEN != OLDEST && OPEN != UP && OPEN != SUCCESS && OPEN != DATA
    ensures OLDEST != UP && OLDEST != SUCCESS && OLDEST != DATA
    ensures UP != SUCCESS && UP != DATA && SUCCESS != DATA
  {
    assert OPEN[9] == 'o' && OLDEST[10] == 'l' && OPEN[10] == 'p';
    assert UP[9] == 's' && SUCCESS[9] == 's' && DATA[9] == 's' && OLDEST[9] == 'o';
    assert UP[16] == 'u' && SUCCESS[16] == 'l' && DATA[16] == 'd';
  }

  /** No series has two values. */
  lemma HoldsOnce(v: Sources, x: Sample, y: Sample)
    requires Holds(v, x) && Holds(v, y) && x.series == y.series
    ensures x.value == y.value
  {
    MetricsDiffer();
  }

  lemma SamplesFunctional(v: Sources)
    ensures Functional(Samples(v))
  {
    forall x, y | x in Samples(v) && y in Samples(v) && x.series == y.series ensures x.value == y.value {
      SamplesHold(v, x);
      SamplesHold(v, y);
      HoldsOnce(v, x, y);
    }
  }

  /** Every label the store would print is well-formed UTF-8. */
  ghost predicate AllValid(v: Sources) {
    forall n | n in v :: Utf8.Valid(n) &&
      forall f | f in v[n].findings :: Utf8.Valid(f.severity) && Utf8.Valid(f.item)
  }

  ghost predicate ValidLabels(s: Series) {
    forall p | p in s.labels :: Utf8.Valid(p.1)
  }

  lemma CleanKeeps(x: Sample)
    ensures ValidLabels(x.series) <==> Clean(x) == x
    ensures ValidLabels(Clean(x).series)
  {
    var labels := x.series.labels;
    forall i | 0 <= i < |labels|
      ensures Utf8.Valid(labels[i].1) <==> CleanLabels(labels)[i] == labels[i]
      ensures Utf8.Valid(CleanLabels(labels)[i].1)
    {
      Utf8.ToValidIdentity(labels[i].1);
      Utf8.ToValidIsValid(labels[i].1);
      assert labels[i] in labels;
    }
    assert (forall i | 0 <= i < |labels| :: Utf8.Valid(labels[i].1)) <==> CleanLabels(labels) == labels;
  }

  lemma OpenPrintable(v: Sources, k: CountKey, value: int)
    requires Count(v, k) > 0 && LowerWord(OPEN) && LowerWord("source") && LowerWord("severity") && LowerWord("item")
    ensures Printable(Sample(OpenSeries(k), value))
    ensures AllValid(v) ==> ValidLabels(OpenSeries(k))
  {
    TallyPositive(FindingsOf(v, k.source), k.severity, k.item);
    assert exists f :: f in v[k.source].findings && f.severity == k.severity && f.item == k.item;
  }

  lemma OldestPrintable(v: Sources, k: AgeKey, value: int)
    requires Oldest(v, k).Some? && LowerWord(OLDEST) && LowerWord("source") && LowerWord("severity")
    ensures Printable(Sample(OldestSeries(k), value))
    ensures AllValid(v) ==> ValidLabels(OldestSeries(k))
  {
    assert exists f :: f in v[k.source].findings && f.severity == k.severity;
  }

  lemma SourcePrintable(metric: string, n: string, value: int)
    requires LowerWord(metric) && LowerWord("source")
    ensures Printable(Sample(SourceSeries(metric, n), value))
    ensures Utf8.Valid(n) ==> ValidLabels(SourceSeries(metric, n))
  {
  }

  lemma HoldsPrintable(v: Sources, x: Sample)
    requires Holds(v, x)
    ensures Printable(x)
    ensures AllValid(v) ==> ValidLabels(x.series)
  {
    WordsUsed();
    if k :| x.series == OpenSeries(k) && Count(v, k) > 0 {
      OpenPrintable(v, k, x.value);
    } else if k :| x.series == OldestSeries(k) && Oldest(v, k).Some? {
      OldestPrintable(v, k, x.value);
    } else {
      var n :| n in v && HoldsOfSource(n, v[n], x);
      SourcePrintable(x.series.metric, n, x.value);
    }
  }

  lemma WordAppend(a: string, b: string)
    requires LowerWord(a) && LowerWord(b)
    ensures LowerWord(a + b)
  {
  }

  lemma OldestWord()
    ensures LowerWord(OLDEST)
  {
    assert LowerWord("findings_oldest_open") && LowerWord("_timestamp_seconds");
    WordAppend("findings_oldest_open", "_timestamp_seconds");
  }

  lemma SuccessWord()
    ensures LowerWord(SUCCESS)
  {
    assert LowerWord("findings_source_last_success") && LowerWord("_timestamp_seconds");
    WordAppend("findings_source_last_success", "_timestamp_seconds");
  }

  lemma DataWord()
    ensures LowerWord(DATA)
  {
    assert LowerWord("findings_source_data") && LowerWord("_timestamp_seconds");
    WordAppend("findings_source_data", "_timestamp_seconds");
  }

  lemma WordsUsed()
    ensures LowerWord(OPEN) && LowerWord(OLDEST) && LowerWord(UP) && LowerWord(SUCCESS) && LowerWord(DATA)
    ensures LowerWord("source") && LowerWord("severity") && LowerWord("item")
  {
    assert LowerWord("findings_open");
    OldestWord();
    assert LowerWord("findings_source_up");
    SuccessWord();
    DataWord();
    LabelNames();
  }

  lemma LabelNames()
    ensures LowerWord("source") && LowerWord("severity") && LowerWord("item")
  {
    assert LowerWord("source");
    assert LowerWord("severity");
    assert LowerWord("item");
  }

  /** Every block says whose samples follow, and that they are gauges. */
  lemma HeadersNameMetrics()
    ensures var h := HeaderLines();
            && "# HELP " + OPEN + " " <= h.open[0] && Fields(h.open[1]) == ["#", "TYPE", OPEN, "gauge"]
            && "# HELP " + OLDEST + " " <= h.oldest[0] && Fields(h.oldest[1]) == ["#", "TYPE", OLDEST, "gauge"]
            && "# HELP " + UP + " " <= h.up[0] && Fields(h.up[1]) == ["#", "TYPE", UP, "gauge"]
            && "# HELP " + SUCCESS + " " <= h.success[0] && Fields(h.success[1]) == ["#", "TYPE", SUCCESS, "gauge"]
            && "# HELP " + DATA + " " <= h.data[0] && Fields(h.data[1]) == ["#", "TYPE", DATA, "gauge"]
  {
    WordsUsed();
    TypeLineReads(OPEN);
    TypeLineReads(OLDEST);
    TypeLineReads(UP);
    TypeLineReads(SUCCESS);
    TypeLineReads(DATA);
  }

  lemma TypeLineReads(metric: string)
    requires LowerWord(metric)
    ensures Fields(TypeLine(metric)) == ["#", "TYPE", metric, "gauge"]
  {
    var ws := ["#", "TYPE", metric, "gauge"];
    assert Word("#") && Word("TYPE") && Word("gauge") && Word(metric);
    FieldsOfJoin(ws);
    assert ws[1..] == ["TYPE", metric, "gauge"] && ["TYPE", metric, "gauge"][1..] == [metric, "gauge"];
    assert [metric, "gauge"][1..] == ["gauge"] && Join([metric, "gauge"], " ") == metric + " " + "gauge";
    assert Join(ws, " ") == "#" + " " + ("TYPE" + " " + (metric + " " + "gauge"));
    assert TypeLine(metric) == "#" + " " + ("TYPE" + " " + (metric + " " + "gauge"));
  }

  lemma OpenHeader()
    ensures Header(HeaderLines().open)
  {
    assert '\n' !in "Open findings by source, normalised ";
    assert '\n' !in "severity and item (rule, control, ";
    assert '\n' !in "image or check).";
    WordsUsed();
  }

  lemma OldestHeader()
    ensures Header(HeaderLines().oldest)
  {
    assert '\n' !in "When the oldest open finding was ";
    assert '\n' !in "first seen, by source and severity.";
    WordsUsed();
  }

  lemma HeadersAreComments()
    ensures var h := HeaderLines();
            Header(h.open) && Header(h.oldest) && Header(h.up) && Header(h.success) && Header(h.data)
  {
    OpenHeader();
    OldestHeader();
  }

  /** Reading the rendered lines yields the printed samples, cleaned. */
  lemma RenderParses(h: Headers, v: Sources)
    requires Header(h.open) && Header(h.oldest) && Header(h.up) && Header(h.success) && Header(h.data)
    ensures ParseLines(Render(h, v)) == Some(CleanAll(Samples(v)))
    ensures forall l | l in Render(h, v) :: '\n' !in l
  {
    forall x | x in Samples(v) ensures Printable(x) {
      SamplesHold(v, x);
      HoldsPrintable(v, x);
    }
    var a, b := OpenSamples(CountKeysOf(v), v), OldestSamples(AgeKeysOf(v), v);
    var c, d, e := UpSamples(NamesOf(v), v), TimeSamples(SUCCESS, NamesOf(v), SuccessOf(v)), TimeSamples(DATA, NamesOf(v), DataOf(v));
    FiveBlocks(h, a, b, c, d, e);
  }

  lemma FiveBlocks(h: Headers, a: seq<Sample>, b: seq<Sample>, c: seq<Sample>, d: seq<Sample>, e: seq<Sample>)
    requires Header(h.open) && Header(h.oldest) && Header(h.up) && Header(h.success) && Header(h.data)
    requires forall x | x in a + b + c + d + e :: Printable(x)
    ensures var ls := Blocks(h, a, b, c, d, e);
            ParseLines(ls) == Some(CleanAll(a + b + c + d + e)) && forall l | l in ls :: '\n' !in l
  {
    Block(h.open, a, a + b + c + d + e);
    Block(h.oldest, b, a + b + c + d + e);
    Block(h.up, c, a + b + c + d + e);
    Block(h.success, d, a + b + c + d + e);
    Block(h.data, e, a + b + c + d + e);
    JoinBlocks(h.open + PrintAll(a), a, h.oldest + PrintAll(b), b);
    JoinBlocks(h.open + PrintAll(a) + (h.oldest + PrintAll(b)), a + b, h.up + PrintAll(c), c);
    JoinBlocks(h.open + PrintAll(a) + (h.oldest + PrintAll(b)) + (h.up + PrintAll(c)), a + b + c, h.success + PrintAll(d), d);
    JoinBlocks(h.open + PrintAll(a) + (h.oldest + PrintAll(b)) + (h.up + PrintAll(c)) + (h.success + PrintAll(d)),
               a + b + c + d, h.data + PrintAll(e), e);
  }

  lemma JoinBlocks(A: seq<string>, a: seq<Sample>, B: seq<string>, b: seq<Sample>)
    requires ParseLines(A) == Some(CleanAll(a)) && forall l | l in A :: '\n' !in l
    requires ParseLines(B) == Some(CleanAll(b)) && forall l | l in B :: '\n' !in l
    ensures ParseLines(A + B) == Some(CleanAll(a + b)) && forall l | l in A + B :: '\n' !in l
  {
    ParseAppend(A, B);
    CleanAppend(a, b);
    forall l | l in A + B ensures '\n' !in l {
      assert l in A || l in B;
    }
  }

  lemma CleanAppend(a: seq<Sample>, b: seq<Sample>)
    ensures CleanAll(a) + CleanAll(b) == CleanAll(a + b)
  {
  }

  lemma Block(h: seq<string>, xs: seq<Sample>, all: seq<Sample>)
    requires Header(h) && (forall x | x in all :: Printable(x)) && forall x | x in xs :: x in all
    ensures ParseLines(h + PrintAll(xs)) == Some(CleanAll(xs))
    ensures forall l | l in h + PrintAll(xs) :: '\n' !in l
  {
    ParseOfBlock(h[0], h[1], xs);
    assert h == [h[0], h[1]];
  }

  // ---------------------------------------------------------------- what a scrape says, spelled out

  /** The findings of one severity and item, by position. */
  ghost function Matching(fs: seq<Finding>, severity: string, item: string): set<int> {
    set i | 0 <= i < |fs| && fs[i].severity == severity && fs[i].item == item
  }

  /** `u` is the time in whole seconds since 1970, which is 1969 years, 477 of
      them with a 29 February, after the zero time. */
  ghost predicate SecondsSince1970(t: Time, u: int) {
    var days := 1969 * 365 + (492 - 19 + 4);
    u * 1_000_000_000 <= t - days * 24 * 60 * 60 * 1_000_000_000 < (u + 1) * 1_000_000_000
  }

  ghost predicate SaysOpen(m: map<Series, int>, v: Sources, n: string, severity: string, item: string) {
    var s := Series("findings_open", [("source", n), ("severity", severity), ("item", item)]);
    var matching := if n in v then Matching(v[n].findings, severity, item) else {};
    (s in m <==> matching != {}) && (s in m ==> m[s] == |matching|)
  }

  /** The first finding of one severity seen, among those with a time. */
  ghost predicate FirstSeen(fs: seq<Finding>, severity: string, f: Finding) {
    && f in fs && f.severity == severity && f.since != 0
    && forall g | g in fs && g.severity == severity && g.since != 0 :: f.since <= g.since
  }

  ghost predicate SaysOldest(m: map<Series, int>, v: Sources, n: string, severity: string) {
    var s := Series("findings_oldest_open" + "_timestamp_seconds", [("source", n), ("severity", severity)]);
    && (s in m <==> n in v && exists f | f in v[n].findings :: f.severity == severity && f.since != 0)
    && (s in m ==> exists f :: FirstSeen(v[n].findings, severity, f) && SecondsSince1970(f.since, m[s]))
  }

  ghost predicate SaysTime(m: map<Series, int>, metric: string, n: string, t: Time) {
    var s := Series(metric, [("source", n)]);
    (s in m <==> t != 0) && (s in m ==> SecondsSince1970(t, m[s]))
  }

  ghost predicate SaysSource(m: map<Series, int>, v: Sources, n: string) {
    var up := Series("findings_source_up", [("source", n)]);
    var st := if n in v then v[n] else State([], false, 0, 0);
    && (up in m <==> n in v) && (up in m ==> m[up] == if st.up then 1 else 0)
    && SaysTime(m, "findings_source_last_success" + "_timestamp_seconds", n, st.lastSuccess)
    && SaysTime(m, "findings_source_data" + "_timestamp_seconds", n, st.dataTime)
  }

  /** One of the five metrics, with the labels it is printed with. */
  ghost predicate Known(s: Series) {
    || (exists n, severity, item :: s == Series("findings_open", [("source", n), ("severity", severity), ("item", item)]))
    || (exists n, severity :: s == Series("findings_oldest_open" + "_timestamp_seconds", [("source", n), ("severity", severity)]))
    || (exists n :: s.labels == [("source", n)] && (|| s.metric == "findings_source_up"
                                                   || s.metric == "findings_source_last_success" + "_timestamp_seconds"
                                                   || s.metric == "findings_source_data" + "_timestamp_seconds"))
  }

  /** Everything a scrape says, series by series, and that it says nothing else. */
  ghost predicate Says(m: map<Series, int>, v: Sources) {
    && (forall n, severity, item :: SaysOpen(m, v, n, severity, item))
    && (forall n, severity :: SaysOldest(m, v, n, severity))
    && (forall n :: SaysSource(m, v, n))
    && (forall s | s in m :: Known(s))
  }

  lemma {:induction false} TallyMatches(fs: seq<Finding>, severity: string, item: string)
    ensures Tally(fs, severity, item) == |Matching(fs, severity, item)|
  {
    if fs != [] {
      var k := |fs| - 1;
      TallyMatches(fs[..k], severity, item);
      var front := Matching(fs[..k], severity, item);
      assert Matching(fs, severity, item)
             == if fs[k].severity == severity && fs[k].item == item then front + {k} else front;
    }
  }

  lemma UnixSeconds(t: Time, u: int)
    ensures SecondsSince1970(t, u) <==> u == Unix(t)
  {
  }

  lemma HoldsOpen(v: Sources, n: string, severity: string, item: string, x: int)
    ensures var k := CountKey(n, severity, item);
            Holds(v, Sample(Series("findings_open", [("source", n), ("severity", severity), ("item", item)]), x))
            <==> Count(v, k) > 0 && x == Count(v, k)
  {
    MetricsDiffer();
    var k := CountKey(n, severity, item);
    assert Series("findings_open", [("source", n), ("severity", severity), ("item", item)]) == OpenSeries(k);
    OpenSeriesOnce(k);
  }

  lemma OpenSeriesOnce(k: CountKey)
    ensures forall l :: OpenSeries(l) == OpenSeries(k) ==> l == k
  {
    forall l | OpenSeries(l) == OpenSeries(k) ensures l == k {
      assert OpenSeries(l).labels[0] == OpenSeries(k).labels[0] && OpenSeries(l).labels[1] == OpenSeries(k).labels[1];
      assert OpenSeries(l).labels[2] == OpenSeries(k).labels[2];
    }
  }

  lemma HoldsOldest(v: Sources, n: string, severity: string, x: int)
    ensures var k := AgeKey(n, severity);
            Holds(v, Sample(Series("findings_oldest_open" + "_timestamp_seconds", [("source", n), ("severity", severity)]), x))
            <==> Oldest(v, k).Some? && x == Unix(Oldest(v, k).value)
  {
    MetricsDiffer();
    var k := AgeKey(n, severity);
    assert Series("findings_oldest_open" + "_timestamp_seconds", [("source", n), ("severity", severity)]) == OldestSeries(k);
    OldestSeriesOnce(k);
  }

  lemma OldestSeriesOnce(k: AgeKey)
    ensures forall l :: OldestSeries(l) == OldestSeries(k) ==> l == k
  {
    forall l | OldestSeries(l) == OldestSeries(k) ensures l == k {
      assert OldestSeries(l).labels[0] == OldestSeries(k).labels[0] && OldestSeries(l).labels[1] == OldestSeries(k).labels[1];
    }
  }

  lemma HoldsSource(v: Sources, metric: string, n: string, x: int)
    requires metric == UP || metric == SUCCESS || metric == DATA
    ensures Holds(v, Sample(Series(metric, [("source", n)]), x))
            <==> n in v && (if metric == UP then x == (if v[n].up then 1 else 0)
                            else if metric == SUCCESS then v[n].lastSuccess != 0 && x == Unix(v[n].lastSuccess)
                            else v[n].dataTime != 0 && x == Unix(v[n].dataTime))
  {
    MetricsDiffer();
    var s := Series(metric, [("source", n)]);
    assert s == SourceSeries(metric, n);
    forall o, p | SourceSeries(p, o) == s ensures o == n && p == metric {
      assert SourceSeries(p, o).labels[0] == s.labels[0];
    }
  }

  lemma DescribedOpen(m: map<Series, int>, v: Sources, n: string, severity: string, item: string)
    requires Describes(m, v)
    ensures SaysOpen(m, v, n, severity, item)
  {
    var s := Series("findings_open", [("source", n), ("severity", severity), ("item", item)]);
    TallyMatches(FindingsOf(v, n), severity, item);
    var c := Count(v, CountKey(n, severity, item));
    HoldsOpen(v, n, severity, item, c);
    if s in m {
      HoldsOpen(v, n, severity, item, m[s]);
      assert Holds(v, Sample(s, m[s]));
    } else {
      assert !Holds(v, Sample(s, c));
    }
  }

  lemma OldestIsFirstSeen(v: Sources, n: string, severity: string)
    ensures var o := Oldest(v, AgeKey(n, severity));
            && (o.Some? <==> n in v && exists f | f in v[n].findings :: f.severity == severity && f.since != 0)
            && (o.Some? ==> exists f :: FirstSeen(v[n].findings, severity, f) && f.since == o.value)
            && (o.Some? ==> forall f | FirstSeen(v[n].findings, severity, f) :: f.since == o.value)
  {
    var o := Oldest(v, AgeKey(n, severity));
    if o.Some? {
      var f :| f in FindingsOf(v, n) && f.severity == severity && f.since == o.value;
      assert FirstSeen(v[n].findings, severity, f);
    }
  }

  lemma DescribedOldest(m: map<Series, int>, v: Sources, n: string, severity: string)
    requires Describes(m, v)
    ensures SaysOldest(m, v, n, severity)
  {
    var s := Series("findings_oldest_open" + "_timestamp_seconds", [("source", n), ("severity", severity)]);
    OldestIsFirstSeen(v, n, severity);
    var o := Oldest(v, AgeKey(n, severity));
    if o.Some? {
      HoldsOldest(v, n, severity, Unix(o.value));
      assert Holds(v, Sample(s, Unix(o.value)));
    }
    if s in m {
      HoldsOldest(v, n, severity, m[s]);
      assert Holds(v, Sample(s, m[s]));
      var f :| FirstSeen(v[n].findings, severity, f) && f.since == o.value;
      UnixSeconds(f.since, m[s]);
    }
  }

  lemma DescribedSource(m: map<Series, int>, v: Sources, n: string)
    requires Describes(m, v)
    ensures SaysSource(m, v, n)
  {
    DescribedUp(m, v, n);
    var st := if n in v then v[n] else State([], false, 0, 0);
    DescribedTime(m, v, SUCCESS, n, st.lastSuccess);
    DescribedTime(m, v, DATA, n, st.dataTime);
  }

  lemma DescribedUp(m: map<Series, int>, v: Sources, n: string)
    requires Describes(m, v)
    ensures var up := Series("findings_source_up", [("source", n)]);
            (up in m <==> n in v) && (up in m ==> m[up] == if v[n].up then 1 else 0)
  {
    var up := Series("findings_source_up", [("source", n)]);
    var x := if n in v && v[n].up then 1 else 0;
    HoldsSource(v, UP, n, x);
    assert Sample(up, x).series in m && m[Sample(up, x).series] == x <==> Holds(v, Sample(up, x));
    if up in m {
      HoldsSource(v, UP, n, m[up]);
      assert Holds(v, Sample(up, m[up]));
    }
  }

  lemma DescribedTime(m: map<Series, int>, v: Sources, metric: string, n: string, t: Time)
    requires Describes(m, v) && (metric == SUCCESS || metric == DATA)
    requires t == if n !in v then 0 else if metric == SUCCESS then v[n].lastSuccess else v[n].dataTime
    ensures SaysTime(m, metric, n, t)
  {
    MetricsDiffer();
    var s := Series(metric, [("source", n)]);
    HoldsSource(v, metric, n, Unix(t));
    assert Sample(s, Unix(t)).series in m && m[Sample(s, Unix(t)).series] == Unix(t) <==> Holds(v, Sample(s, Unix(t)));
    if s in m {
      HoldsSource(v, metric, n, m[s]);
      assert Holds(v, Sample(s, m[s]));
      UnixSeconds(t, m[s]);
    }
  }

  lemma DescribedKnown(m: map<Series, int>, v: Sources, s: Series)
    requires Describes(m, v) && s in m
    ensures Known(s)
  {
    assert Holds(v, Sample(s, m[s]));
    HeldIsKnown(v, Sample(s, m[s]));
  }

  lemma SaidIsDescribed(m: map<Series, int>, v: Sources, x: Sample)
    requires Says(m, v)
    ensures (x.series in m && m[x.series] == x.value) <==> Holds(v, x)
  {
    if x.series in m || Holds(v, x) {
      if x.series in m {
        assert Known(x.series);
      } else {
        HeldIsKnown(v, x);
      }
      SaidForm(m, v, x);
    }
  }

  lemma HeldIsKnown(v: Sources, x: Sample)
    requires Holds(v, x)
    ensures Known(x.series)
  {
    if k :| x.series == OpenSeries(k) {
      assert x.series == Series("findings_open", [("source", k.source), ("severity", k.severity), ("item", k.item)]);
    } else if k :| x.series == OldestSeries(k) {
      assert x.series == Series("findings_oldest_open" + "_timestamp_seconds", [("source", k.source), ("severity", k.severity)]);
    } else {
      var n :| n in v && HoldsOfSource(n, v[n], x);
      assert x.series.labels == [("source", n)];
    }
  }

  lemma SaidForm(m: map<Series, int>, v: Sources, x: Sample)
    requires Says(m, v) && Known(x.series)
    ensures (x.series in m && m[x.series] == x.value) <==> Holds(v, x)
  {
    var s := x.series;
    assert x == Sample(s, x.value);
    if n, severity, item :| s == Series("findings_open", [("source", n), ("severity", severity), ("item", item)]) {
      assert SaysOpen(m, v, n, severity, item);
      TallyMatches(FindingsOf(v, n), severity, item);
      HoldsOpen(v, n, severity, item, x.value);
    } else if n, severity :| s == Series("findings_oldest_open" + "_timestamp_seconds", [("source", n), ("severity", severity)]) {
      assert SaysOldest(m, v, n, severity);
      SaidOldest(m, v, n, severity, x.value);
    } else {
      var n :| s.labels == [("source", n)];
      assert SaysSource(m, v, n);
      SaidSource(m, v, s.metric, n, x.value);
    }
  }

  lemma SaidOldest(m: map<Series, int>, v: Sources, n: string, severity: string, x: int)
    requires SaysOldest(m, v, n, severity)
    ensures var s := Series("findings_oldest_open" + "_timestamp_seconds", [("source", n), ("severity", severity)]);
            (s in m && m[s] == x) <==> Holds(v, Sample(s, x))
  {
    var s := Series("findings_oldest_open" + "_timestamp_seconds", [("source", n), ("severity", severity)]);
    HoldsOldest(v, n, severity, x);
    OldestIsFirstSeen(v, n, severity);
    if s in m {
      var f :| FirstSeen(v[n].findings, severity, f) && SecondsSince1970(f.since, m[s]);
      UnixSeconds(f.since, m[s]);
    }
  }

  lemma SaidSource(m: map<Series, int>, v: Sources, metric: string, n: string, x: int)
    requires SaysSource(m, v, n) && (metric == UP || metric == SUCCESS || metric == DATA)
    ensures var s := Series(metric, [("source", n)]); (s in m && m[s] == x) <==> Holds(v, Sample(s, x))
  {
    MetricsDiffer();
    HoldsSource(v, metric, n, x);
    var s := Series(metric, [("source", n)]);
    if metric != UP && s in m {
      var st := if n in v then v[n] else State([], false, 0, 0);
      UnixSeconds(if metric == SUCCESS then st.lastSuccess else st.dataTime, m[s]);
    }
  }

  /** `Describes` is no more and no less than what is spelled out. */
  lemma DescribesIffSays(m: map<Series, int>, v: Sources)
    ensures Describes(m, v) <==> Says(m, v)
  {
    if Describes(m, v) {
      forall n, severity, item ensures SaysOpen(m, v, n, severity, item) {
        DescribedOpen(m, v, n, severity, item);
      }
      forall n, severity ensures SaysOldest(m, v, n, severity) {
        DescribedOldest(m, v, n, severity);
      }
      forall n ensures SaysSource(m, v, n) {
        DescribedSource(m, v, n);
      }
      forall s | s in m ensures Known(s) {
        DescribedKnown(m, v, s);
      }
    }
    if Says(m, v) {
      forall x: Sample ensures (x.series in m && m[x.series] == x.value) <==> Holds(v, x) {
        SaidIsDescribed(m, v, x);
      }
    }
  }

  /** The text of a store can always be read back. If every label is valid
      UTF-8 the scrape says exactly what is in the store, value by value under
      the labels spelled out above; if one is not, it does not. */
  lemma ScrapeRecovers(v: Sources)
    ensures Scrape(Unlines(Render(HeaderLines(), v))).Some?
    ensures Says(Scrape(Unlines(Render(HeaderLines(), v))).value, v) <==> AllValid(v)
  {
    HeadersAreComments();
    RecoversUnder(HeaderLines(), v);
    DescribesIffSays(Scrape(Unlines(Render(HeaderLines(), v))).value, v);
  }

  lemma RecoversUnder(h: Headers, v: Sources)
    requires Header(h.open) && Header(h.oldest) && Header(h.up) && Header(h.success) && Header(h.data)
    ensures Scrape(Unlines(Render(h, v))).Some?
    ensures var m := Scrape(Unlines(Render(h, v))).value;
            Describes(m, v) <==> AllValid(v)
  {
    RenderParses(h, v);
    LinesOfUnlines(Render(h, v));
    assert Scrape(Unlines(Render(h, v))) == Some(SeriesMap(CleanAll(Samples(v))));
    if AllValid(v) {
      RecoversWhenValid(v);
    } else {
      LosesWhenInvalid(v);
    }
  }

  lemma RecoversWhenValid(v: Sources)
    requires AllValid(v)
    ensures var m := SeriesMap(CleanAll(Samples(v)));
            Describes(m, v)
  {
    var xs := Samples(v);
    forall i | 0 <= i < |xs| ensures CleanAll(xs)[i] == xs[i] {
      SamplesHold(v, xs[i]);
      HoldsPrintable(v, xs[i]);
      CleanKeeps(xs[i]);
    }
    assert CleanAll(xs) == xs;
    SamplesFunctional(v);
    SeriesMapHolds(xs);
    forall x ensures x in xs <==> Holds(v, x) {
      SamplesHold(v, x);
    }
  }

  lemma LosesWhenInvalid(v: Sources)
    requires !AllValid(v)
    ensures var m := SeriesMap(CleanAll(Samples(v)));
            exists x :: Holds(v, x) && x.series !in m
  {
    var x := InvalidSample(v);
    var xs := CleanAll(Samples(v));
    SeriesMapKeys(xs);
    if x.series in SeriesMap(xs) {
      var y :| y in xs && y.series == x.series;
      var i :| 0 <= i < |xs| && xs[i] == y;
      CleanKeeps(Samples(v)[i]);
      assert false;
    }
  }

  lemma InvalidSample(v: Sources) returns (x: Sample)
    requires !AllValid(v)
    ensures Holds(v, x) && !ValidLabels(x.series)
  {
    if n :| n in v && !Utf8.Valid(n) {
      x := Sample(SourceSeries(UP, n), if v[n].up then 1 else 0);
      assert HoldsOfSource(n, v[n], x);
      assert ("source", n) in x.series.labels;
    } else {
      var n, f :| n in v && f in v[n].findings && !(Utf8.Valid(f.severity) && Utf8.Valid(f.item));
      var k := CountKey(n, f.severity, f.item);
      var i :| 0 <= i < |v[n].findings| && v[n].findings[i] == f;
      TallyPositive(v[n].findings, f.severity, f.item);
      x := Sample(OpenSeries(k), Count(v, k));
      assert ("severity", f.severity) in x.series.labels && ("item", f.item) in x.series.labels;
    }
  }

  // ---------------------------------------------------------------- nothing lost, nothing twice

  /** Keys are printed once each, by source, then severity, then item, ascending strictly. */
  lemma PrintedOnceInOrder(v: Sources)
    ensures forall i, j | 0 <= i < j < |CountKeysOf(v)| ::
              var a, b := CountKeysOf(v)[i], CountKeysOf(v)[j];
              || Less(a.source, b.source)
              || (a.source == b.source && Less(a.severity, b.severity))
              || (a.source == b.source && a.severity == b.severity && Less(a.item, b.item))
    ensures forall i, j | 0 <= i < j < |AgeKeysOf(v)| ::
              var a, b := AgeKeysOf(v)[i], AgeKeysOf(v)[j];
              Less(a.source, b.source) || (a.source == b.source && Less(a.severity, b.severity))
    ensures forall i, j | 0 <= i < j < |NamesOf(v)| :: Less(NamesOf(v)[i], NamesOf(v)[j])
  {
    CountOrder();
    AgeOrder();
    StringOrder();
    ListsMembers(CountKeysOf(v), CountKeys(v));
    ListsMembers(AgeKeysOf(v), AgeKeys(v));
    ListsMembers(NamesOf(v), v.Keys);
  }

  /** The sum of the counts printed for source `n`. */
  function SumFor(v: Sources, ks: seq<CountKey>, n: string): nat {
    if ks == [] then 0 else
      var k := ks[|ks| - 1];
      SumFor(v, ks[..|ks| - 1], n) + if k.source == n then Count(v, k) else 0
  }

  /** How many of `fs` fall under some key of `ks` for source `n`. */
  ghost function Covered(fs: seq<Finding>, ks: seq<CountKey>, n: string): nat {
    if fs == [] then 0 else
      var f := fs[|fs| - 1];
      Covered(fs[..|fs| - 1], ks, n) + if CountKey(n, f.severity, f.item) in ks then 1 else 0
  }

  lemma {:induction false} CoveredByOneMore(fs: seq<Finding>, ks: seq<CountKey>, k: CountKey, n: string)
    requires k !in ks
    ensures Covered(fs, ks + [k], n) == Covered(fs, ks, n) + if k.source == n then Tally(fs, k.severity, k.item) else 0
  {
    if fs != [] {
      CoveredByOneMore(fs[..|fs| - 1], ks, k, n);
    }
  }

  lemma {:induction false} CoveredByNone(fs: seq<Finding>, n: string)
    ensures Covered(fs, [], n) == 0
  {
    if fs != [] {
      CoveredByNone(fs[..|fs| - 1], n);
    }
  }

  lemma {:induction false} CoveredByAll(fs: seq<Finding>, ks: seq<CountKey>, n: string)
    requires forall f | f in fs :: CountKey(n, f.severity, f.item) in ks
    ensures Covered(fs, ks, n) == |fs|
  {
    if fs != [] {
      assert fs[|fs| - 1] in fs;
      CoveredByAll(fs[..|fs| - 1], ks, n);
    }
  }

  lemma {:induction false} SumIsCovered(v: Sources, ks: seq<CountKey>, n: string)
    requires forall i, j | 0 <= i < j < |ks| :: ks[i] != ks[j]
    ensures SumFor(v, ks, n) == Covered(FindingsOf(v, n), ks, n)
  {
    if ks == [] {
      CoveredByNone(FindingsOf(v, n), n);
    } else {
      var l := |ks| - 1;
      SumIsCovered(v, ks[..l], n);
      assert ks == ks[..l] + [ks[l]];
      assert ks[l] !in ks[..l];
      CoveredByOneMore(FindingsOf(v, n), ks[..l], ks[l], n);
    }
  }

  /** The counts printed for a source add up to its number of findings. */
  lemma CountsConserveFindings(v: Sources, n: string)
    ensures SumFor(v, CountKeysOf(v), n) == |FindingsOf(v, n)|
  {
    var ks, fs := CountKeysOf(v), FindingsOf(v, n);
    ListsMembers(ks, CountKeys(v));
    SumIsCovered(v, ks, n);
    forall f | f in fs ensures CountKey(n, f.severity, f.item) in ks {
      var i :| 0 <= i < |fs| && fs[i] == f;
      TallyPositive(fs, f.severity, f.item);
    }
    CoveredByAll(fs, ks, n);
  }
}
