/** The gate as a whole: what a nil result of `run` guarantees, and the reviewed
    list as the printed form of a set of pairs. */
module GateRun {
  import opened Text
  import opened Clock
  import opened Sorting
  import opened Normalize
  import opened Pairs
  import opened Gate

  // ---------------------------------------------------------------- reading an alert

  /** The pairs an alert reports: its control, and each line of its description but the last. */
  function AlertPairs(a: Alert): (r: seq<Pair>)
    requires "control" in a.labels && "description" in a.annotations
    ensures forall p | p in r :: '\n' !in p.resource
  {
    var lines := Split(a.annotations["description"], '\n');
    PairsWith(a.labels["control"], lines[..|lines| - 1])
  }

  lemma AdviceIsOneLine()
    ensures '\n' !in ADVICE
  {
    assert '\n' !in "Fix it, or add it to ";
    assert '\n' !in "cluster/kubescape/00-accepted.yaml ";
    assert '\n' !in "with its reason (ADR-0017).";
  }

  /** An alert gives its resources back exactly when none of them contains a newline. */
  lemma AlertReportsIff(c: string, rs: seq<string>, name: string, now: Time, expire: int)
    requires rs != []
    ensures AlertPairs(AlertFor(c, rs, name, now, expire)) == PairsWith(c, rs) <==> forall r | r in rs :: '\n' !in r
  {
    AdviceIsOneLine();
    DecodeIff(c, rs, ADVICE);
  }

  lemma DecodeIff(c: string, rs: seq<string>, advice: string)
    requires rs != [] && '\n' !in advice
    ensures var lines := Split(Join(rs, "\n") + "\n" + advice, '\n');
            PairsWith(c, lines[..|lines| - 1]) == PairsWith(c, rs) <==> forall r | r in rs :: '\n' !in r
  {
    var lines := Split(Join(rs, "\n") + "\n" + advice, '\n');
    DescriptionLines(rs, advice);
    if forall r | r in rs :: '\n' !in r {
      assert lines[..|lines| - 1] == rs;
    }
    if PairsWith(c, lines[..|lines| - 1]) == PairsWith(c, rs) {
      forall i | 0 <= i < |rs| ensures '\n' !in rs[i] {
        assert PairsWith(c, lines[..|lines| - 1])[i].resource == lines[i];
        assert lines[i] in lines;
      }
    }
  }

  lemma DescriptionLines(rs: seq<string>, advice: string)
    requires rs != [] && '\n' !in advice
    ensures (forall r | r in rs :: '\n' !in r) ==> Split(Join(rs, "\n") + "\n" + advice, '\n') == rs + [advice]
  {
    JoinAppend(rs, [advice], "\n");
    if forall r | r in rs :: '\n' !in r {
      SplitOfJoin(rs + [advice], '\n');
    }
  }

  /** An alert's labels, its life time, and the count in its summary. */
  lemma AlertSays(c: string, rs: seq<string>, name: string, now: Time, expire: int)
    ensures var a := AlertFor(c, rs, name, now, expire);
            && a.labels == map["alertname" := "KubescapeRegression", "source" := "kubescape", "severity" := "warning", "control" := c]
            && a.startsAt == now && a.endsAt - a.startsAt == expire
            && a.annotations.Keys == {"summary", "description"}
            && exists digits :: ParseDecimal(digits) == Some(|rs|)
                 && a.annotations["summary"] == c + " " + name + ": " + digits + " resource(s) newly failing"
  {
    ParseOfDecimal(|rs|);
  }

  /** Each alert is for the control in its place, under the name the scan gave it last, if any. */
  lemma AlertsAreNamed(ps: seq<Pair>, names: map<string, string>, now: Time, expire: int, i: nat)
    requires i < |Controls(ps)|
    ensures var a, c := AlertsFor(Controls(ps), ps, names, now, expire)[i], Controls(ps)[i];
            && "control" in a.labels && a.labels["control"] == c && "summary" in a.annotations
            && c + " " + (if c in names then names[c] else "") + ": " <= a.annotations["summary"]
  {
    AlertSays(Controls(ps)[i], ResourcesOf(ps, Controls(ps)[i]), NameOf(names, Controls(ps)[i]), now, expire);
  }

  ghost predicate Reports(alerts: seq<Alert>, p: Pair) {
    exists a | a in alerts :: Readable(a) && p in AlertPairs(a)
  }

  ghost predicate OneLineResources(ps: seq<Pair>) {
    forall p | p in ps :: '\n' !in p.resource
  }

  lemma {:induction false} ResourcesListed(ps: seq<Pair>, c: string, r: string)
    ensures r in ResourcesOf(ps, c) <==> Pair(c, r) in ps
  {
    ResourcesCount(ps, Pair(c, r));
  }

  /** Alerts of this builder give their resources back exactly when these are single lines. */
  ghost predicate Faithful(build: Builder) {
    forall c, rs | rs != [] :: Readable(build(c, rs)) &&
      (AlertPairs(build(c, rs)) == PairsWith(c, rs) <==> forall r | r in rs :: '\n' !in r)
  }

  ghost predicate Readable(a: Alert) {
    "control" in a.labels && "description" in a.annotations
  }

  lemma AlertBuilderIsFaithful(names: map<string, string>, now: Time, expire: int)
    ensures Faithful(AlertBuilder(names, now, expire))
  {
    var build := AlertBuilder(names, now, expire);
    forall c, rs: seq<string> | rs != []
      ensures Readable(build(c, rs)) && (AlertPairs(build(c, rs)) == PairsWith(c, rs) <==> forall r | r in rs :: '\n' !in r)
    {
      AlertReportsIff(c, rs, NameOf(names, c), now, expire);
    }
  }

  /** The alerts report exactly the pairs they were built from, if and only if
      every resource is one line. */
  lemma AlertsReportIff(ps: seq<Pair>, names: map<string, string>, now: Time, expire: int)
    ensures (forall p :: Reports(AlertsFor(Controls(ps), ps, names, now, expire), p) <==> p in ps) <==> OneLineResources(ps)
  {
    AlertBuilderIsFaithful(names, now, expire);
    GroupsReportIff(ps, AlertBuilder(names, now, expire));
  }

  lemma GroupsReportIff(ps: seq<Pair>, build: Builder)
    requires Faithful(build)
    ensures (forall p :: Reports(BuildGroups(Controls(ps), ps, build), p) <==> p in ps) <==> OneLineResources(ps)
  {
    var alerts := BuildGroups(Controls(ps), ps, build);
    if OneLineResources(ps) {
      forall p ensures Reports(alerts, p) <==> p in ps {
        if Reports(alerts, p) {
          ReportedIsListed(ps, build, p);
        }
        if p in ps {
          ListedIsReported(ps, build, p);
        }
      }
    } else {
      var p :| p in ps && '\n' in p.resource;
      assert !Reports(alerts, p);
    }
  }

  lemma GroupReport(ps: seq<Pair>, build: Builder, c: string)
    requires Faithful(build) && OneLineResources(ps) && c in Controls(ps)
    ensures var a := build(c, ResourcesOf(ps, c));
            Readable(a) && AlertPairs(a) == PairsWith(c, ResourcesOf(ps, c))
  {
    NoneListed(ps, c);
    forall r | r in ResourcesOf(ps, c) ensures '\n' !in r {
      ResourcesListed(ps, c, r);
      assert Pair(c, r) in ps;
    }
  }

  lemma ReportedIsListed(ps: seq<Pair>, build: Builder, p: Pair)
    requires Faithful(build) && OneLineResources(ps) && Reports(BuildGroups(Controls(ps), ps, build), p)
    ensures p in ps
  {
    var cs, alerts := Controls(ps), BuildGroups(Controls(ps), ps, build);
    var a :| a in alerts && Readable(a) && p in AlertPairs(a);
    var i :| 0 <= i < |alerts| && alerts[i] == a;
    assert cs[i] in cs;
    GroupReport(ps, build, cs[i]);
    ResourcesListed(ps, cs[i], p.resource);
  }

  lemma ListedIsReported(ps: seq<Pair>, build: Builder, p: Pair)
    requires Faithful(build) && OneLineResources(ps) && p in ps
    ensures Reports(BuildGroups(Controls(ps), ps, build), p)
  {
    var cs, alerts := Controls(ps), BuildGroups(Controls(ps), ps, build);
    assert p.control in cs;
    var i :| 0 <= i < |cs| && cs[i] == p.control;
    GroupReport(ps, build, p.control);
    ResourcesListed(ps, p.control, p.resource);
    assert alerts[i] in alerts;
  }

  // ---------------------------------------------------------------- run

  ghost function FailSet(scan: seq<ScanResult>): (r: set<Pair>)
    ensures forall p :: p in r <==> Failing(scan, p)
  {
    var r := set i, j | 0 <= i < |scan| && 0 <= j < |scan[i].controls| && scan[i].controls[j].status == "failed" ::
                 Pair(scan[i].controls[j].id, Normal(scan[i].resourceID));
    assert forall p :: p in r <==> Failing(scan, p) by {
      forall p | Failing(scan, p) ensures p in r {
        var i, j :| 0 <= i < |scan| && 0 <= j < |scan[i].controls| && FailsAt(scan, p, i, j);
      }
      forall p | p in r ensures Failing(scan, p) {
        var i, j :| 0 <= i < |scan| && 0 <= j < |scan[i].controls| && scan[i].controls[j].status == "failed"
                    && p == Pair(scan[i].controls[j].id, Normal(scan[i].resourceID));
        assert FailsAt(scan, p, i, j);
      }
    }
    r
  }

  ghost function AcceptSet(text: string): (r: set<Pair>)
    ensures forall p :: p in r <==> Accept(p) in Reads(Lines(text))
  {
    set l | l in Reads(Lines(text)) && l.Accept? :: l.p
  }

  /** A file: missing, or its content and whether it could be read to the end. */
  datatype ListFile = Missing | Present(text: string, readable: bool)
  datatype ScanFile = NoScan | Scan(doc: Option<seq<ScanResult>>)

  /** There is a scan with at least one result, and a list every line of which means something. */
  ghost predicate Comparable(scan: ScanFile, list: ListFile) {
    && scan.Scan? && scan.doc.Some? && scan.doc.value != []
    && list.Present? && list.readable && Bad !in Reads(Lines(list.text))
  }

  ghost function Regressions(scan: ScanFile, list: ListFile): set<Pair>
    requires Comparable(scan, list)
  {
    FailSet(scan.doc.value) - AcceptSet(list.text)
  }

  /** run. `alertmanager` says whether one is configured, `delivered` whether it
      took the alerts. The result is nil exactly when the comparison could be
      made and every regression was either none or delivered; what is posted is
      built from the sorted regressions. With an Alertmanager, nil means every
      failing pair is accepted or reported by what was posted, and nothing else
      is, exactly as long as the names of regressed resources are single lines. */
  method Run(scan: ScanFile, list: ListFile, alertmanager: bool, delivered: bool, now: Time, expire: int)
    returns (r: Result<()>, posted: seq<Alert>, ghost regressions: seq<Pair>, ghost names: map<string, string>)
    ensures r.Ok? <==> Comparable(scan, list) && (Regressions(scan, list) == {} || !alertmanager || delivered)
    ensures r.Ok? ==> Written(list.text)
    ensures r.Ok? ==> Lists(regressions, Regressions(scan, list)) && Sorted(KeyLess, regressions)
    ensures r.Ok? ==> LastNames(scan.doc.value, names) && forall id :: id in names <==> Mentioned(scan.doc.value, id)
    ensures r.Ok? ==> posted == if alertmanager then AlertsFor(Controls(regressions), regressions, names, now, expire) else []
    ensures r.Ok? && alertmanager ==> (NothingLost(scan, list, posted) <==> OneLines(Regressions(scan, list)))
  {
    posted, regressions, names := [], [], map[];
    if scan.NoScan? {
      return Err(CannotOpen), posted, regressions, names;
    }
    var parsed := ParseScan(scan.doc);
    if parsed.Err? {
      return Err(parsed.error), posted, regressions, names;
    }
    if list.Missing? {
      return Err(CannotOpen), posted, regressions, names;
    }
    var accepted := ParseAccepted(list.text, list.readable);
    if accepted.Err? {
      return Err(accepted.error), posted, regressions, names;
    }
    assert parsed.value.0 == FailSet(scan.doc.value);
    assert accepted.value == AcceptSet(list.text);
    var out := Difference(parsed.value.0, accepted.value);
    regressions, names := out, parsed.value.1;
    ListsEmpty(out, Regressions(scan, list));
    NothingLostIff(scan, list, out, names, now, expire);
    if |out| == 0 || !alertmanager {
      return Ok(()), posted, regressions, names;
    }
    posted := BuildAlerts(out, parsed.value.1, now, expire);
    r := if delivered then Ok(()) else Err(PostFailed);
  }

  lemma ListsEmpty(s: seq<Pair>, keys: set<Pair>)
    requires Lists(s, keys)
    ensures s == [] <==> keys == {}
  {
    ListsMembers(s, keys);
    if s != [] {
      assert s[0] in keys;
    }
  }

  /** Every failing normalised pair is accepted or reported, and nothing else is reported. */
  ghost predicate NothingLost(scan: ScanFile, list: ListFile, posted: seq<Alert>)
    requires Comparable(scan, list)
  {
    forall p :: Reports(posted, p) <==> Failing(scan.doc.value, p) && Accept(p) !in Reads(Lines(list.text))
  }

  /** The alerts built from the regressions lose nothing exactly when every
      regression's resource is a single line. */
  lemma NothingLostIff(scan: ScanFile, list: ListFile, ps: seq<Pair>, names: map<string, string>, now: Time, expire: int)
    requires Comparable(scan, list) && Lists(ps, Regressions(scan, list))
    ensures NothingLost(scan, list, AlertsFor(Controls(ps), ps, names, now, expire)) <==> OneLines(Regressions(scan, list))
  {
    AlertsReportIff(ps, names, now, expire);
    ListsMembers(ps, Regressions(scan, list));
    assert forall p :: p in ps <==> Failing(scan.doc.value, p) && Accept(p) !in Reads(Lines(list.text));
    assert OneLineResources(ps) <==> OneLines(Regressions(scan, list));
  }

  ghost predicate OneLines(ps: set<Pair>) {
    forall p | p in ps :: '\n' !in p.resource
  }

  // ---------------------------------------------------------------- the list as a printed set

  /** "control resource" on a line of its own reads back as that pair exactly when it is listable. */
  lemma ListableIff(p: Pair)
    ensures ReadLine(p.Key()) == Accept(p) <==> Listable(p)
  {
    var l := p.Key();
    if Listable(p) {
      assert l[..|l|] == l;
      FieldsOfTwo("", p.control, " ", p.resource, "");
      assert "" + (p.control + (" " + (p.resource + ""))) == l;
    }
    AcceptedLineIsListable(l);
  }

  /** No list whatever accepts a pair that is not listable, so a failing resource
      whose name has a space or a "#" in it cannot be silenced; any other can be. */
  lemma AcceptableIff(p: Pair)
    ensures (exists text :: Accept(p) in Reads(Lines(text))) <==> Listable(p)
  {
    if text :| Accept(p) in Reads(Lines(text)) {
      var i :| 0 <= i < |Lines(text)| && Reads(Lines(text))[i] == Accept(p);
      AcceptedLineIsListable(DropReturn(Lines(text)[i]));
    }
    if Listable(p) {
      var e := Entry("", Some(p), " ", "", "");
      assert GoodEntry(e) && e in [e];
      ListRoundTrip([e]);
    }
  }

  /** A line of a list: white space, perhaps a pair, more white space, perhaps a comment. */
  datatype Entry = Entry(lead: string, p: Option<Pair>, gap: string, tail: string, comment: string)

  ghost predicate GoodEntry(e: Entry) {
    && AllSpace(e.lead) && '\n' !in e.lead && AllSpace(e.gap) && e.gap != "" && '\n' !in e.gap
    && AllSpace(e.tail) && '\n' !in e.tail
    && (e.comment == "" || (e.comment[0] == '#' && '\n' !in e.comment))
    && (e.p.Some? ==> Listable(e.p.value))
  }

  function Body(e: Entry): string {
    e.lead + match e.p
             case Some(p) => p.control + (e.gap + (p.resource + e.tail))
             case None => e.tail
  }

  function PrintEntry(e: Entry): string {
    Body(e) + e.comment
  }

  function PrintList(es: seq<Entry>): (ls: seq<string>)
    ensures |ls| == |es| && forall i | 0 <= i < |es| :: ls[i] == PrintEntry(es[i])
  {
    seq(|es|, i requires 0 <= i < |es| => PrintEntry(es[i]))
  }

  function Meaning(e: Entry): Line {
    match e.p
    case Some(p) => Accept(p)
    case None => Blank
  }

  /** Cutting at the comment and dropping a final carriage return leave the body's fields. */
  lemma FieldsOfEntry(e: Entry)
    requires GoodEntry(e)
    ensures Fields(Body(e)) == match e.p
                               case Some(p) => [p.control, p.resource]
                               case None => []
    ensures '#' !in Body(e) && '\n' !in Body(e)
  {
    match e.p
    case Some(p) =>
      FieldsOfTwo(e.lead, p.control, e.gap, p.resource, e.tail);
      assert IsSpace('\n') && !IsSpace('#');
    case None =>
      assert AllSpace(e.lead + e.tail);
      FieldsOfSpace(e.lead + e.tail);
  }

  lemma {:induction false} FieldsAppendSpace(t: string, c: char)
    requires IsSpace(c)
    ensures Fields(t + [c]) == Fields(t)
    decreases |t|
  {
    if t == "" {
      assert t + [c] == [c];
      FieldsOfSpace([c]);
    } else if IsSpace(t[0]) {
      FieldsAppendSpace(t[1..], c);
      assert (t + [c])[1..] == t[1..] + [c];
    } else {
      var n := TokenLength(t);
      FieldsAppendSpace(t[n..], c);
      FirstToken(t, n, t[n..] + [c]);
      FirstToken(t, n, t[n..]);
      assert t[..n] + (t[n..] + [c]) == t + [c] && t[..n] + t[n..] == t;
    }
  }

  lemma FirstToken(t: string, n: nat, rest: string)
    requires t != "" && !IsSpace(t[0]) && n == TokenLength(t) && (rest == "" || IsSpace(rest[0]))
    ensures Fields(t[..n] + rest) == [t[..n]] + Fields(rest)
  {
    FieldsToken(t[..n], rest);
  }

  lemma ReadOfEntry(e: Entry)
    requires GoodEntry(e)
    ensures ReadLine(DropReturn(PrintEntry(e))) == Meaning(e)
    ensures '\n' !in PrintEntry(e)
  {
    BodyMeaning(e);
    ReadWith(Body(e), e.comment);
  }

  lemma BodyMeaning(e: Entry)
    requires GoodEntry(e)
    ensures LineOf(Fields(Body(e))) == Meaning(e) && '#' !in Body(e) && '\n' !in Body(e)
  {
    FieldsOfEntry(e);
  }

  lemma ReadWith(body: string, comment: string)
    requires '#' !in body && (comment == "" || comment[0] == '#')
    ensures ReadLine(DropReturn(body + comment)) == LineOf(Fields(body))
  {
    if comment == "" {
      assert body + comment == body;
      ReadBare(body);
    } else {
      assert body + comment == body + ['#'] + comment[1..];
      ReadCommented(body, comment[1..]);
    }
  }

  lemma ReadBare(body: string)
    requires '#' !in body
    ensures ReadLine(DropReturn(body)) == LineOf(Fields(body))
  {
    DropReturnKeepsFields(body);
    var d := DropReturn(body);
    IndexOfAbsent(d, '#');
    assert d[..|d|] == d;
  }

  lemma DropReturnKeepsFields(body: string)
    ensures Fields(DropReturn(body)) == Fields(body)
    ensures '#' !in body ==> '#' !in DropReturn(body)
  {
    if DropReturn(body) != body {
      FieldsAppendSpace(DropReturn(body), '\r');
      FrontLast(body);
    }
  }

  lemma ReadCommented(body: string, rest: string)
    requires '#' !in body
    ensures ReadLine(DropReturn(body + ['#'] + rest)) == LineOf(Fields(body))
  {
    var l := body + ['#'] + rest;
    var kept := if rest != "" && rest[|rest| - 1] == '\r' then rest[..|rest| - 1] else rest;
    assert DropReturn(l) == body + ['#'] + kept;
    IndexOfHead(body, '#', kept);
  }

  /** Any set of listable pairs, printed one to a line with any spacing and any
      comments and blank lines mixed in, reads back as that set. */
  lemma ListRoundTrip(es: seq<Entry>)
    requires forall e | e in es :: GoodEntry(e)
    ensures var ls := Reads(Lines(Unlines(PrintList(es))));
            Bad !in ls && forall p :: Accept(p) in ls <==> exists e | e in es :: e.p == Some(p)
  {
    forall i | 0 <= i < |es| ensures ReadLine(DropReturn(PrintList(es)[i])) == Meaning(es[i]) && '\n' !in PrintList(es)[i] {
      assert es[i] in es;
      ReadOfEntry(es[i]);
    }
    LinesOfUnlines(PrintList(es));
  }

  /** A list that is a snapshot of a scan accepts all of that scan and nothing
      else: compared with it, the scan has no regressions and the list nothing stale. */
  lemma SnapshotIsClean(scan: seq<ScanResult>, es: seq<Entry>)
    requires scan != [] && (forall e | e in es :: GoodEntry(e))
    requires forall p :: Failing(scan, p) <==> exists e | e in es :: e.p == Some(p)
    ensures var list := Present(Unlines(PrintList(es)), true);
            && Comparable(Scan(Some(scan)), list)
            && Regressions(Scan(Some(scan)), list) == {}
            && AcceptSet(list.text) - FailSet(scan) == {}
  {
    ListRoundTrip(es);
    var text := Unlines(PrintList(es));
    forall p ensures p in FailSet(scan) <==> p in AcceptSet(text) {
    }
    assert FailSet(scan) == AcceptSet(text);
  }

  /** Some readable list silences the whole scan exactly when every failing pair is listable. */
  lemma SilenceableIff(scan: seq<ScanResult>)
    requires scan != []
    ensures (exists text :: Silences(scan, text)) <==> forall p | p in FailSet(scan) :: Listable(p)
  {
    if text :| Silences(scan, text) {
      SilencedIsListable(scan, text);
    }
    if forall p | p in FailSet(scan) :: Listable(p) {
      var text := SilencingList(scan);
    }
  }

  lemma SilencedIsListable(scan: seq<ScanResult>, text: string)
    requires scan != [] && Silences(scan, text)
    ensures forall p | p in FailSet(scan) :: Listable(p)
  {
    forall p | p in FailSet(scan) ensures Listable(p) {
      assert p !in Regressions(Scan(Some(scan)), Present(text, true));
      assert Accept(p) in Reads(Lines(text));
      AcceptableIff(p);
    }
  }

  /** One line for each failing pair. */
  lemma SilencingList(scan: seq<ScanResult>) returns (text: string)
    requires scan != [] && forall p | p in FailSet(scan) :: Listable(p)
    ensures Silences(scan, text)
  {
    var ps := SomeListing(FailSet(scan));
    ListsMembers(ps, FailSet(scan));
    var es := seq(|ps|, i requires 0 <= i < |ps| => Entry("", Some(ps[i]), " ", "", ""));
    forall e | e in es ensures GoodEntry(e) && e.p.Some? && e.p.value in ps {
      var i :| 0 <= i < |es| && es[i] == e;
      assert ps[i] in ps && ps[i] in FailSet(scan);
    }
    forall p ensures Failing(scan, p) <==> exists e | e in es :: e.p == Some(p) {
      if p in ps {
        var i :| 0 <= i < |ps| && ps[i] == p;
        assert es[i] in es;
      }
    }
    SnapshotIsClean(scan, es);
    text := Unlines(PrintList(es));
  }

  ghost predicate Silences(scan: seq<ScanResult>, text: string)
    requires scan != []
  {
    Comparable(Scan(Some(scan)), Present(text, true)) && Regressions(Scan(Some(scan)), Present(text, true)) == {}
  }

  /** Normalising keeps a newline. */
  lemma NewlineStays()
    ensures Normal("\n") == "\n"
  {
    IndexOfAbsent("\n", '/');
    assert Split("\n", '/') == ["\n"];
    assert "\n"[1..] == "" && ReplaceRuns("\n") == "\n";
  }

  /** A resource ID with a newline that normalising keeps, "\n" itself for one: the run is nil, and what
      it posted does not report the failing pair. */
  method LosesNewline(id: string, now: Time, expire: int) returns (scan: ScanFile, list: ListFile, posted: seq<Alert>)
    requires '\n' in Normal(id)
    ensures scan == Scan(Some([ScanResult(id, [Control("C-1", "", "failed")])])) && list == Present("", true)
    ensures Comparable(scan, list) && !NothingLost(scan, list, posted)
  {
    scan, list := Scan(Some([ScanResult(id, [Control("C-1", "", "failed")])])), Present("", true);
    var r;
    ghost var regressions, names;
    r, posted, regressions, names := Run(scan, list, true, true, now, expire);
    assert FailsAt(scan.doc.value, Pair("C-1", Normal(id)), 0, 0);
    assert Pair("C-1", Normal(id)) in Regressions(scan, list);
  }
}
