/** The Prometheus text the store prints (text format 0.0.4), and a reader of
    that text. The reader is written from the format, not from the printer. */
module Exposition {
  import opened Text
  import Utf8

  // ---------------------------------------------------------------- quoting

  /** labelEscaper.Replace */
  function Escape(s: string): string {
    if s == "" then ""
    else (if s[0] == '\\' then "\\\\" else if s[0] == '\"' then "\\\"" else if s[0] == '\n' then "\\n" else [s[0]])
         + Escape(s[1..])
  }

  function Quote(s: string): string {
    "\"" + Escape(Utf8.ToValid(s)) + "\""
  }

  predicate Escapable(c: char) {
    c == '\\' || c == '\"' || c == 'n'
  }

  /** Reads an escaped text up to its closing quote; yields the text and what follows. */
  function Unquote(s: string): Option<(string, string)> {
    if s == "" then None
    else if s[0] == '\"' then Some(("", s[1..]))
    else if s[0] == '\\' then
      if |s| < 2 || !Escapable(s[1]) then None
      else Prepend(if s[1] == 'n' then '\n' else s[1], Unquote(s[2..]))
    else Prepend(s[0], Unquote(s[1..]))
  }

  function Prepend(c: char, r: Option<(string, string)>): Option<(string, string)> {
    match r
    case None => None
    case Some((text, rest)) => Some(([c] + text, rest))
  }

  lemma {:induction false} UnquoteOfEscape(s: string, rest: string)
    ensures Unquote(Escape(s) + "\"" + rest) == Some((s, rest))
  {
    var whole := Escape(s) + "\"" + rest;
    if s == "" {
      assert whole[1..] == rest;
    } else {
      UnquoteOfEscape(s[1..], rest);
      assert s == [s[0]] + s[1..];
      var tail := Escape(s[1..]) + "\"" + rest;
      if s[0] == '\\' || s[0] == '\"' || s[0] == '\n' {
        var e := if s[0] == '\n' then 'n' else s[0];
        assert whole == ['\\', e] + tail;
        assert whole[2..] == tail;
      } else {
        assert whole == [s[0]] + tail;
        assert whole[1..] == tail;
      }
    }
  }

  lemma {:induction false} EscapeOneLine(s: string)
    ensures '\n' !in Escape(s)
  {
    if s != "" {
      EscapeOneLine(s[1..]);
    }
  }

  /** Quoting keeps two labels apart exactly when they differ in their well-formed part. */
  lemma QuoteInjective(a: string, b: string)
    ensures Quote(a) == Quote(b) <==> Utf8.ToValid(a) == Utf8.ToValid(b)
  {
    UnquoteOfEscape(Utf8.ToValid(a), "");
    UnquoteOfEscape(Utf8.ToValid(b), "");
    assert Quote(a)[1..] == Escape(Utf8.ToValid(a)) + "\"" + "";
    assert Quote(b)[1..] == Escape(Utf8.ToValid(b)) + "\"" + "";
  }

  // ---------------------------------------------------------------- samples

  type Labels = seq<(string, string)>

  datatype Series = Series(metric: string, labels: Labels)

  datatype Sample = Sample(series: Series, value: int)

  function PrintLabels(labels: Labels): string {
    if labels == [] then ""
    else labels[0].0 + "=" + Quote(labels[0].1) + (if |labels| == 1 then "" else "," + PrintLabels(labels[1..]))
  }

  function PrintSample(x: Sample): string {
    x.series.metric + "{" + PrintLabels(x.series.labels) + "} " + Decimal(x.value)
  }

  /** Reads `name="value",...}` and yields the labels and what follows the brace. */
  function ParseLabels(s: string): Option<(Labels, string)>
    decreases |s|
  {
    if s == "" then None
    else if s[0] == '}' then Some(([], s[1..]))
    else
      var n := IndexOf(s, '=');
      if n + 1 >= |s| || s[n + 1] != '\"' then None else
        match Unquote(s[n + 2..])
        case None => None
        case Some((text, rest)) =>
          if |rest| >= |s| || rest == "" then None
          else if rest[0] == '}' then Some(([(s[..n], text)], rest[1..]))
          else if rest[0] != ',' then None
          else match ParseLabels(rest[1..])
               case None => None
               case Some((more, tail)) => Some(([(s[..n], text)] + more, tail))
  }

  function ParseSample(l: string): Option<Sample> {
    var n := IndexOf(l, '{');
    if n == |l| then None else
      match ParseLabels(l[n + 1..])
      case None => None
      case Some((labels, rest)) =>
        if rest == "" || rest[0] != ' ' then None else
          match ParseDecimal(rest[1..])
          case None => None
          case Some(v) => Some(Sample(Series(l[..n], labels), v))
  }

  /** Every sample of a text's lines; comments and empty lines carry none. */
  function ParseLines(ls: seq<string>): Option<seq<Sample>> {
    if ls == [] then Some([])
    else
      match ParseLines(ls[1..])
      case None => None
      case Some(more) =>
        if ls[0] == "" || ls[0][0] == '#' then Some(more) else
          match ParseSample(ls[0])
          case None => None
          case Some(x) => Some([x] + more)
  }

  /** What a scraper keeps: one value per series. */
  function SeriesMap(xs: seq<Sample>): map<Series, int> {
    if xs == [] then map[] else SeriesMap(xs[..|xs| - 1])[xs[|xs| - 1].series := xs[|xs| - 1].value]
  }

  function Scrape(text: string): Option<map<Series, int>> {
    match ParseLines(Lines(text))
    case None => None
    case Some(xs) => Some(SeriesMap(xs))
  }

  function CleanLabels(labels: Labels): (r: Labels)
    ensures |r| == |labels|
    ensures forall i | 0 <= i < |r| :: r[i] == (labels[i].0, Utf8.ToValid(labels[i].1))
  {
    if labels == [] then [] else [(labels[0].0, Utf8.ToValid(labels[0].1))] + CleanLabels(labels[1..])
  }

  /** The sample with invalid bytes dropped from its label values. */
  function Clean(x: Sample): Sample {
    Sample(Series(x.series.metric, CleanLabels(x.series.labels)), x.value)
  }

  /** Names of metrics and labels are plain words. */
  ghost predicate LowerWord(s: string) {
    s != "" && forall c | c in s :: 'a' <= c <= 'z' || c == '_'
  }

  ghost predicate WordNames(x: Sample) {
    LowerWord(x.series.metric) && forall p | p in x.series.labels :: LowerWord(p.0)
  }

  lemma LabelHead(k: string, v: string, after: string)
    requires LowerWord(k)
    ensures var s := k + "=" + Quote(v) + after;
            && s[0] != '}' && IndexOf(s, '=') == |k| && s[..|k|] == k
            && |s| > |k| + 1 && s[|k| + 1] == '\"'
            && Unquote(s[|k| + 2..]) == Some((Utf8.ToValid(v), after)) && |after| < |s|
  {
    var s := k + "=" + Quote(v) + after;
    var body := Escape(Utf8.ToValid(v)) + "\"" + after;
    assert s == k + ['='] + ("\"" + body);
    IndexOfHead(k, '=', "\"" + body);
    assert s[0] == k[0] && k[0] in k;
    assert s[|k| + 2..] == body;
    UnquoteOfEscape(Utf8.ToValid(v), after);
  }

  lemma ParseLastLabel(k: string, v: string, rest: string)
    requires LowerWord(k)
    ensures ParseLabels(k + "=" + Quote(v) + ("}" + rest)) == Some(([(k, Utf8.ToValid(v))], rest))
  {
    LabelHead(k, v, "}" + rest);
    assert ("}" + rest)[1..] == rest;
  }

  lemma ParseNextLabel(k: string, v: string, tail: string, more: Labels, rest: string)
    requires LowerWord(k) && ParseLabels(tail) == Some((more, rest))
    ensures ParseLabels(k + "=" + Quote(v) + ("," + tail)) == Some(([(k, Utf8.ToValid(v))] + more, rest))
  {
    LabelHead(k, v, "," + tail);
    assert ("," + tail)[1..] == tail;
  }

  lemma {:induction false} ParseOfLabels(labels: Labels, rest: string)
    requires labels != [] && forall p | p in labels :: LowerWord(p.0)
    ensures ParseLabels(PrintLabels(labels) + "}" + rest) == Some((CleanLabels(labels), rest))
  {
    assert labels[0] in labels;
    var (k, v) := labels[0];
    if |labels| == 1 {
      Regroup(k + "=" + Quote(v), "", "}" + rest);
      Regroup(PrintLabels(labels), "}", rest);
      ParseLastLabel(k, v, rest);
      assert CleanLabels(labels) == [(k, Utf8.ToValid(v))];
    } else {
      var next := PrintLabels(labels[1..]);
      ParseOfLabels(labels[1..], rest);
      ParseNextLabel(k, v, next + "}" + rest, CleanLabels(labels[1..]), rest);
      Regroup(k + "=" + Quote(v), "," + next, "}" + rest);
      Regroup(PrintLabels(labels), "}", rest);
      Regroup(",", next, "}" + rest);
      Regroup(next, "}", rest);
    }
  }

  lemma Regroup(a: string, b: string, c: string)
    ensures (a + b) + c == a + (b + c)
    ensures b == "" ==> a + b == a
  {
  }

  lemma ParseOfSample(x: Sample)
    requires WordNames(x) && x.series.labels != []
    ensures ParseSample(PrintSample(x)) == Some(Clean(x))
  {
    var rest := " " + Decimal(x.value);
    var body := PrintLabels(x.series.labels) + "}" + rest;
    assert PrintSample(x) == x.series.metric + ['{'] + body;
    IndexOfHead(x.series.metric, '{', body);
    ParseOfLabels(x.series.labels, rest);
    assert rest[1..] == Decimal(x.value);
    ParseOfDecimal(x.value);
  }

  lemma {:induction false} LabelsOneLine(labels: Labels)
    requires forall p | p in labels :: LowerWord(p.0)
    ensures '\n' !in PrintLabels(labels)
  {
    if labels != [] {
      assert labels[0] in labels;
      EscapeOneLine(Utf8.ToValid(labels[0].1));
      LabelsOneLine(labels[1..]);
    }
  }

  lemma SampleLine(x: Sample)
    requires WordNames(x)
    ensures '\n' !in PrintSample(x) && PrintSample(x) != "" && PrintSample(x)[0] != '#'
  {
    LabelsOneLine(x.series.labels);
    DecimalFree(x.value, '\n');
    assert x.series.metric[0] in x.series.metric;
  }

  // ---------------------------------------------------------------- blocks

  function PrintAll(xs: seq<Sample>): (ls: seq<string>)
    ensures |ls| == |xs|
  {
    if xs == [] then [] else PrintAll(xs[..|xs| - 1]) + [PrintSample(xs[|xs| - 1])]
  }

  function CleanAll(xs: seq<Sample>): (r: seq<Sample>)
    ensures |r| == |xs| && forall i | 0 <= i < |r| :: r[i] == Clean(xs[i])
  {
    if xs == [] then [] else CleanAll(xs[..|xs| - 1]) + [Clean(xs[|xs| - 1])]
  }

  ghost predicate Comment(l: string) {
    l != "" && l[0] == '#' && '\n' !in l
  }

  ghost predicate Printable(x: Sample) {
    WordNames(x) && x.series.labels != []
  }

  lemma {:induction false} ParseAppend(a: seq<string>, b: seq<string>)
    requires ParseLines(a).Some? && ParseLines(b).Some?
    ensures ParseLines(a + b) == Some(ParseLines(a).value + ParseLines(b).value)
  {
    if a == [] {
      assert a + b == b && [] + ParseLines(b).value == ParseLines(b).value;
    } else {
      ParseAppend(a[1..], b);
      HeadTail(a);
      Assoc([a[0]], a[1..], b);
      if !Skipped(a[0]) {
        Assoc([ParseSample(a[0]).value], ParseLines(a[1..]).value, ParseLines(b).value);
      }
    }
  }

  predicate Skipped(l: string) {
    l == "" || l[0] == '#'
  }

  lemma ParseOneLine(l: string)
    requires l != "" && l[0] != '#' && ParseSample(l).Some?
    ensures ParseLines([l]) == Some([ParseSample(l).value])
  {
    var x := ParseSample(l).value;
    assert [l][1..] == [] && ParseLines([]) == Some([]);
    assert [x] + [] == [x];
  }

  lemma {:induction false} ParseOfAll(xs: seq<Sample>)
    requires forall x | x in xs :: Printable(x)
    ensures ParseLines(PrintAll(xs)) == Some(CleanAll(xs))
    ensures forall l | l in PrintAll(xs) :: '\n' !in l
  {
    if xs != [] {
      var k := |xs| - 1;
      ParseOfAll(xs[..k]);
      assert xs[k] in xs;
      ParseOfSample(xs[k]);
      SampleLine(xs[k]);
      ParseOneLine(PrintSample(xs[k]));
      ParseAppend(PrintAll(xs[..k]), [PrintSample(xs[k])]);
    }
  }

  lemma ParseOfBlock(help: string, kind: string, xs: seq<Sample>)
    requires Comment(help) && Comment(kind) && forall x | x in xs :: Printable(x)
    ensures ParseLines([help, kind] + PrintAll(xs)) == Some(CleanAll(xs))
    ensures forall l | l in [help, kind] + PrintAll(xs) :: '\n' !in l
  {
    ParseOfAll(xs);
    assert ([help, kind] + PrintAll(xs))[1..] == [kind] + PrintAll(xs);
    assert ([kind] + PrintAll(xs))[1..] == PrintAll(xs);
  }

  /** As long as equal series carry equal values, the scrape holds exactly the samples printed. */
  ghost predicate Functional(xs: seq<Sample>) {
    forall x, y | x in xs && y in xs && x.series == y.series :: x.value == y.value
  }

  lemma {:induction false} SeriesMapHolds(xs: seq<Sample>)
    requires Functional(xs)
    ensures forall x :: x in xs <==> x.series in SeriesMap(xs) && SeriesMap(xs)[x.series] == x.value
  {
    if xs != [] {
      var k := |xs| - 1;
      assert xs == xs[..k] + [xs[k]];
      SeriesMapHolds(xs[..k]);
      forall x ensures x in xs <==> x.series in SeriesMap(xs) && SeriesMap(xs)[x.series] == x.value {
        assert x in xs <==> x in xs[..k] || x == xs[k];
        if x.series == xs[k].series && x.value == xs[k].value {
          assert x == xs[k];
        }
      }
    }
  }

  lemma {:induction false} SeriesMapKeys(xs: seq<Sample>)
    ensures forall s :: s in SeriesMap(xs) ==> exists x :: x in xs && x.series == s
  {
    if xs != [] {
      var k := |xs| - 1;
      SeriesMapKeys(xs[..k]);
      forall s | s in SeriesMap(xs) ensures exists x :: x in xs && x.series == s {
        if s == xs[k].series {
          assert xs[k] in xs;
        } else {
          assert s in SeriesMap(xs[..k]);
          var x :| x in xs[..k] && x.series == s;
          assert x in xs;
        }
      }
    }
  }
}
