/** kubescape-gate: from a scan and a reviewed list to the alerts that say what
    is new. Nothing may be lost between a failing pair and an alert. */
module Gate {
  import opened Text
  import opened Clock
  import opened Sorting
  import opened Normalize
  import opened Pairs

  // ---------------------------------------------------------------- the scan

  datatype Control = Control(id: string, name: string, status: string)
  datatype ScanResult = ScanResult(resourceID: string, controls: seq<Control>)

  datatype Error = CannotOpen | BadScan | EmptyScan | BadList(line: nat) | CannotRead | PostFailed
  datatype Result<T> = Ok(value: T) | Err(error: Error)

  /** A pair fails if some result reports that control failed on an ID that normalises to it. */
  ghost predicate Failing(scan: seq<ScanResult>, p: Pair) {
    exists i, j :: 0 <= i < |scan| && 0 <= j < |scan[i].controls| && FailsAt(scan, p, i, j)
  }

  predicate FailsAt(scan: seq<ScanResult>, p: Pair, i: nat, j: nat)
    requires i < |scan| && j < |scan[i].controls|
  {
    var c := scan[i].controls[j];
    c.status == "failed" && p == Pair(c.id, Normal(scan[i].resourceID))
  }

  ghost predicate Mentioned(scan: seq<ScanResult>, id: string) {
    exists i, j :: 0 <= i < |scan| && 0 <= j < |scan[i].controls| && scan[i].controls[j].id == id
  }

  /** parseScan; `None` is a document that does not decode. */
  method ParseScan(doc: Option<seq<ScanResult>>) returns (r: Result<(set<Pair>, map<string, string>)>)
    ensures doc.None? ==> r == Err(BadScan)
    ensures doc == Some([]) ==> r == Err(EmptyScan)
    ensures doc.Some? && doc.value != [] ==>
              && r.Ok?
              && (forall p :: p in r.value.0 <==> Failing(doc.value, p))
              && (forall id :: id in r.value.1 <==> Mentioned(doc.value, id))
              && LastNames(doc.value, r.value.1)
  {
    if doc.None? {
      return Err(BadScan);
    }
    var scan := doc.value;
    if |scan| == 0 {
      return Err(EmptyScan);
    }
    var failing: set<Pair> := {};
    var names: map<string, string> := map[];
    for i := 0 to |scan|
      invariant forall p :: p in failing <==> FailingBefore(scan, p, i, 0)
      invariant forall id :: id in names <==> MentionedBefore(scan, id, i, 0)
      invariant NamesBefore(scan, names, i, 0)
    {
      var res := scan[i];
      for j := 0 to |res.controls|
        invariant forall p :: p in failing <==> FailingBefore(scan, p, i, j)
        invariant forall id :: id in names <==> MentionedBefore(scan, id, i, j)
        invariant NamesBefore(scan, names, i, j)
      {
        var c := res.controls[j];
        FailingStep(scan, i, j);
        NamesStep(scan, names, i, j);
        names := names[c.id := c.name];
        if c.status == "failed" {
          var n := NormalizeId(res.resourceID);
          failing := failing + {Pair(c.id, n)};
        }
      }
      NamesNextResult(scan, names, i);
    }
    r := Ok((failing, names));
  }

  /** As Failing, among the results before i and the first j controls of result i. */
  ghost predicate FailingBefore(scan: seq<ScanResult>, p: Pair, i: nat, j: nat) {
    exists k, l :: 0 <= k < |scan| && 0 <= l < |scan[k].controls| && (k < i || (k == i && l < j)) && FailsAt(scan, p, k, l)
  }

  /** Control j of result i, in reading order. */
  predicate Earlier(k: nat, l: nat, i: nat, j: nat) {
    k < i || (k == i && l < j)
  }

  /** The last control with this ID before position (i, j) is at (k, l). */
  ghost predicate LastAt(scan: seq<ScanResult>, id: string, name: string, k: nat, l: nat, i: nat, j: nat) {
    && k < |scan| && l < |scan[k].controls| && Earlier(k, l, i, j)
    && scan[k].controls[l].id == id && scan[k].controls[l].name == name
    && forall m: nat, n: nat | m < |scan| && n < |scan[m].controls| && Earlier(k, l, m, n) && Earlier(m, n, i, j) ::
         scan[m].controls[n].id != id
  }

  /** Each ID has the name its last mention before (i, j) gives it. */
  ghost predicate NamesBefore(scan: seq<ScanResult>, names: map<string, string>, i: nat, j: nat) {
    forall id | id in names :: NamedBefore(scan, id, names[id], i, j)
  }

  ghost predicate NamedBefore(scan: seq<ScanResult>, id: string, name: string, i: nat, j: nat) {
    exists k: nat, l: nat :: LastAt(scan, id, name, k, l, i, j)
  }

  /** Each ID has the name its last mention in the scan gives it. */
  ghost predicate LastNames(scan: seq<ScanResult>, names: map<string, string>) {
    NamesBefore(scan, names, |scan|, 0)
  }

  lemma NamesStep(scan: seq<ScanResult>, names: map<string, string>, i: nat, j: nat)
    requires i < |scan| && j < |scan[i].controls| && NamesBefore(scan, names, i, j)
    ensures NamesBefore(scan, names[scan[i].controls[j].id := scan[i].controls[j].name], i, j + 1)
  {
    var c := scan[i].controls[j];
    var names' := names[c.id := c.name];
    forall id | id in names' ensures NamedBefore(scan, id, names'[id], i, j + 1) {
      if id == c.id {
        assert LastAt(scan, id, c.name, i, j, i, j + 1);
      } else {
        assert NamedBefore(scan, id, names[id], i, j);
        var k: nat, l: nat :| LastAt(scan, id, names[id], k, l, i, j);
        assert LastAt(scan, id, names'[id], k, l, i, j + 1);
      }
    }
  }

  lemma NamesNextResult(scan: seq<ScanResult>, names: map<string, string>, i: nat)
    requires i < |scan| && NamesBefore(scan, names, i, |scan[i].controls|)
    ensures NamesBefore(scan, names, i + 1, 0)
  {
    forall id | id in names ensures NamedBefore(scan, id, names[id], i + 1, 0) {
      assert NamedBefore(scan, id, names[id], i, |scan[i].controls|);
      var k: nat, l: nat :| LastAt(scan, id, names[id], k, l, i, |scan[i].controls|);
      assert LastAt(scan, id, names[id], k, l, i + 1, 0);
    }
  }

  lemma FailingStep(scan: seq<ScanResult>, i: nat, j: nat)
    requires i < |scan| && j < |scan[i].controls|
    ensures forall p :: FailingBefore(scan, p, i, j + 1) <==> FailingBefore(scan, p, i, j) || FailsAt(scan, p, i, j)
  {
  }

  ghost predicate MentionedBefore(scan: seq<ScanResult>, id: string, i: nat, j: nat) {
    exists k, l :: 0 <= k < |scan| && 0 <= l < |scan[k].controls| && (k < i || (k == i && l < j)) && scan[k].controls[l].id == id
  }

  // ---------------------------------------------------------------- the reviewed list

  datatype Line = Blank | Accept(p: Pair) | Bad

  /** One line: what is before "#", split at white space. */
  function ReadLine(l: string): Line {
    LineOf(Fields(l[..IndexOf(l, '#')]))
  }

  function LineOf(fields: seq<string>): Line {
    if fields == [] then Blank
    else if |fields| == 2 && "C-" <= fields[0] then Accept(Pair(fields[0], fields[1]))
    else Bad
  }

  /** bufio.ScanLines drops one carriage return at the end of a line. */
  function DropReturn(l: string): string {
    if l != "" && l[|l| - 1] == '\r' then l[..|l| - 1] else l
  }

  function Reads(lines: seq<string>): (r: seq<Line>)
    ensures |r| == |lines| && forall i | 0 <= i < |r| :: r[i] == ReadLine(DropReturn(lines[i]))
  {
    seq(|lines|, i requires 0 <= i < |lines| => ReadLine(DropReturn(lines[i])))
  }

  /** Line number n, counted from 1, is the first that is not blank, a comment or a pair. */
  ghost predicate FirstBad(ls: seq<Line>, n: nat) {
    0 < n <= |ls| && ls[n - 1] == Bad && forall i | 0 <= i < n - 1 :: ls[i] != Bad
  }

  // ---------------------------------------------------------------- what a line may look like

  /** A pair the list can hold: two words, the first starting "C-", no comment sign. */
  ghost predicate Listable(p: Pair) {
    && "C-" <= p.control && SpaceFree(p.control) && '#' !in p.control
    && p.resource != "" && SpaceFree(p.resource) && '#' !in p.resource
  }

  lemma AcceptedLineIsListable(l: string)
    ensures ReadLine(l).Accept? ==> Listable(ReadLine(l).p)
  {
    var text := l[..IndexOf(l, '#')];
    assert '#' !in text;
    FieldsMembers(text, '#');
    if ReadLine(l).Accept? {
      assert Fields(text)[0] in Fields(text) && Fields(text)[1] in Fields(text);
    }
  }

  function BeforeComment(l: string): string {
    l[..IndexOf(l, '#')]
  }

  /** Control, white space and resource, with white space around them. */
  ghost predicate Spelled(t: string, p: Pair, lead: string, gap: string, tail: string) {
    t == lead + (p.control + (gap + (p.resource + tail))) && AllSpace(lead) && AllSpace(gap) && gap != "" && AllSpace(tail)
  }

  ghost predicate Spells(t: string, p: Pair) {
    exists lead, gap, tail :: Spelled(t, p, lead, gap, tail)
  }

  /** Only white space before the comment is a blank line. */
  lemma BlankIff(l: string)
    ensures ReadLine(l) == Blank <==> AllSpace(BeforeComment(l))
  {
    FieldsEmptyIff(BeforeComment(l));
  }

  /** A line accepts a pair exactly when it spells it and the list can hold it. */
  lemma AcceptIff(l: string, p: Pair)
    ensures ReadLine(l) == Accept(p) <==> Listable(p) && Spells(BeforeComment(l), p)
  {
    var t := BeforeComment(l);
    if ReadLine(l) == Accept(p) {
      AcceptedLineIsListable(l);
      TwoFields(t);
    }
    if lead, gap, tail :| Listable(p) && Spelled(t, p, lead, gap, tail) {
      FieldsOfTwo(lead, p.control, gap, p.resource, tail);
    }
  }

  lemma TwoFields(t: string)
    requires |Fields(t)| == 2
    ensures Spells(t, Pair(Fields(t)[0], Fields(t)[1]))
  {
    var p := Pair(Fields(t)[0], Fields(t)[1]);
    var lead, rest := FirstField(t);
    var gap, tail := FirstField(rest);
    FieldsEmptyIff(tail);
    assert Spelled(t, p, lead, gap, tail);
  }

  /** Blank up to its comment, or a listable pair. */
  ghost predicate WellWritten(l: string) {
    AllSpace(BeforeComment(l)) || exists p :: Listable(p) && Spells(BeforeComment(l), p)
  }

  lemma BadIff(l: string)
    ensures ReadLine(l) != Bad <==> WellWritten(l)
  {
    BlankIff(l);
    if ReadLine(l).Accept? {
      AcceptIff(l, ReadLine(l).p);
    }
    if p :| Listable(p) && Spells(BeforeComment(l), p) {
      AcceptIff(l, p);
    }
  }

  /** Every line of the list means something. */
  ghost predicate Written(text: string) {
    forall l | l in Lines(text) :: WellWritten(DropReturn(l))
  }

  /** Some line of the list is for this pair. */
  ghost predicate Listed(text: string, p: Pair) {
    Listable(p) && exists l | l in Lines(text) :: Spells(BeforeComment(DropReturn(l)), p)
  }

  lemma WrittenIff(text: string)
    ensures Bad !in Reads(Lines(text)) <==> Written(text)
  {
    var ls := Lines(text);
    forall i | 0 <= i < |ls| ensures Reads(ls)[i] != Bad <==> WellWritten(DropReturn(ls[i])) {
      BadIff(DropReturn(ls[i]));
    }
  }

  lemma ListedIff(text: string, p: Pair)
    ensures Accept(p) in Reads(Lines(text)) <==> Listed(text, p)
  {
    var ls := Lines(text);
    forall i | 0 <= i < |ls| ensures Reads(ls)[i] == Accept(p) <==> Listable(p) && Spells(BeforeComment(DropReturn(ls[i])), p) {
      AcceptIff(DropReturn(ls[i]), p);
    }
  }

  lemma AcceptedAreListed(text: string, accepted: set<Pair>)
    requires forall p :: p in accepted <==> Accept(p) in Reads(Lines(text))
    ensures forall p :: p in accepted <==> Listed(text, p)
    ensures Bad !in Reads(Lines(text)) <==> Written(text)
  {
    WrittenIff(text);
    forall p ensures p in accepted <==> Listed(text, p) {
      ListedIff(text, p);
    }
  }

  /** parseAccepted; `readable` is whether the reader got to the end. */
  method ParseAccepted(text: string, readable: bool) returns (r: Result<set<Pair>>)
    ensures r.Err? && r.error.BadList? ==> FirstBad(Reads(Lines(text)), r.error.line)
    ensures r.Err? && !r.error.BadList? ==> r == Err(CannotRead) && !readable && Bad !in Reads(Lines(text))
    ensures r.Ok? <==> readable && Written(text)
    ensures r.Ok? ==> forall p :: p in r.value <==> Listed(text, p)
    ensures r.Ok? ==> Bad !in Reads(Lines(text)) && forall p :: p in r.value <==> Accept(p) in Reads(Lines(text))
  {
    ghost var ls := Reads(Lines(text));
    var lines := Lines(text);
    var accepted: set<Pair> := {};
    for i := 0 to |lines|
      invariant ReadSoFar(ls, i, accepted)
    {
      var line := ReadLine(DropReturn(lines[i]));
      ReadOneMore(ls, i, accepted);
      if line == Bad {
        WrittenIff(text);
        return Err(BadList(i + 1));
      }
      if line.Accept? {
        accepted := accepted + {line.p};
      }
    }
    AllRead(ls, accepted);
    AcceptedAreListed(text, accepted);
    r := if readable then Ok(accepted) else Err(CannotRead);
  }

  /** The first i lines are not bad, and these are the pairs they accept. */
  ghost predicate ReadSoFar(ls: seq<Line>, i: nat, accepted: set<Pair>) {
    && i <= |ls| && (forall k | 0 <= k < i :: ls[k] != Bad)
    && forall p :: p in accepted <==> exists k | 0 <= k < i :: ls[k] == Accept(p)
  }

  lemma ReadOneMore(ls: seq<Line>, i: nat, accepted: set<Pair>)
    requires i < |ls| && ReadSoFar(ls, i, accepted)
    ensures ls[i] == Bad ==> FirstBad(ls, i + 1) && Bad in ls
    ensures ls[i] == Blank ==> ReadSoFar(ls, i + 1, accepted)
    ensures ls[i].Accept? ==> ReadSoFar(ls, i + 1, accepted + {ls[i].p})
  {
  }

  lemma AllRead(ls: seq<Line>, accepted: set<Pair>)
    requires ReadSoFar(ls, |ls|, accepted)
    ensures Bad !in ls && forall p :: p in accepted <==> Accept(p) in ls
  {
  }

  // ---------------------------------------------------------------- comparison

  /** difference: what is in a but not in b, sorted by key. */
  method Difference(a: set<Pair>, b: set<Pair>) returns (out: seq<Pair>)
    ensures Lists(out, a - b) && Sorted(KeyLess, out)
  {
    out := ListKeys(a - b);
    KeyOrder();
    out := SortSlice(KeyLess, out);
  }

  ghost predicate KeysApart(s: set<Pair>) {
    forall p, q | p in s && q in s && p != q :: p.Key() != q.Key()
  }

  /** What difference returns is a function of its two sets exactly when no two
      pairs of a - b share a key. */
  lemma DifferenceDeterminedIff(s: set<Pair>)
    ensures (forall x, y | Lists(x, s) && Sorted(KeyLess, x) && Lists(y, s) && Sorted(KeyLess, y) :: x == y) <==> KeysApart(s)
  {
    KeyOrder();
    OneListingIff(KeyLess, s);
    StringOrder();
    forall p: Pair, q: Pair ensures KeyLess(p, q) || KeyLess(q, p) <==> p.Key() != q.Key() {
      assert Less(p.Key(), q.Key()) ==> !Less(q.Key(), p.Key());
    }
  }

  /** In particular when no control in it continues another with a space. */
  lemma SeparateControlsKeysApart(s: set<Pair>)
    requires forall p, q | p in s && q in s :: !SpaceContinues(p.control, q.control)
    ensures KeysApart(s)
  {
    forall p, q | p in s && q in s && p != q ensures p.Key() != q.Key() {
      if p.Key() == q.Key() {
        KeyDetermines(p, q);
      }
    }
  }

  // ---------------------------------------------------------------- alerts

  datatype Alert = Alert(labels: map<string, string>, annotations: map<string, string>, startsAt: Time, endsAt: Time)

  const ADVICE := "Fix it, or add it to " + "cluster/kubescape/00-accepted.yaml " + "with its reason (ADR-0017)."

  function NameOf(names: map<string, string>, c: string): string {
    if c in names then names[c] else ""
  }

  function AlertFor(c: string, resources: seq<string>, name: string, now: Time, expire: int): Alert {
    Alert(map["alertname" := "KubescapeRegression", "source" := "kubescape", "severity" := "warning", "control" := c],
          map["summary" := c + " " + name + ": " + Decimal(|resources|) + " resource(s) newly failing",
              "description" := Join(resources, "\n") + "\n" + ADVICE],
          now, now + expire)
  }

  /** The controls of `ps`, each once, in order of first appearance. */
  function Controls(ps: seq<Pair>): (r: seq<string>)
    ensures forall c :: c in r <==> exists p :: p in ps && p.control == c
    ensures forall i, j | 0 <= i < j < |r| :: r[i] != r[j]
  {
    if ps == [] then [] else
      var k := |ps| - 1;
      var rest := Controls(ps[..k]);
      assert forall p :: p in ps <==> p in ps[..k] || p == ps[k];
      if ps[k].control in rest then rest else rest + [ps[k].control]
  }

  /** One control stands before another exactly if it was met before it. */
  lemma {:induction false} FirstMetFirst(ps: seq<Pair>, i: nat, j: nat) returns (k: nat)
    requires i < j < |Controls(ps)|
    ensures k < |ps| && ps[k].control == Controls(ps)[i]
    ensures forall l | 0 <= l <= k :: ps[l].control != Controls(ps)[j]
  {
    var n := |ps| - 1;
    var front := ps[..n];
    if j < |Controls(front)| {
      k := FirstMetFirst(front, i, j);
      assert forall l | 0 <= l <= k :: front[l] == ps[l];
    } else {
      assert Controls(ps)[i] in Controls(front) && Controls(ps)[j] !in Controls(front);
      var p :| p in front && p.control == Controls(ps)[i];
      k :| 0 <= k < n && front[k] == p;
      assert forall l | 0 <= l <= k :: front[l] in front && front[l] == ps[l];
    }
  }

  /** The resources listed for control `c`, in order. */
  function ResourcesOf(ps: seq<Pair>, c: string): seq<string> {
    if ps == [] then [] else
      var k := |ps| - 1;
      ResourcesOf(ps[..k], c) + if ps[k].control == c then [ps[k].resource] else []
  }

  /** How a control and its resources become an alert. */
  type Builder = (string, seq<string>) -> Alert

  function AlertBuilder(names: map<string, string>, now: Time, expire: int): Builder {
    (c, rs) => AlertFor(c, rs, NameOf(names, c), now, expire)
  }

  function BuildGroups(cs: seq<string>, ps: seq<Pair>, build: Builder): (r: seq<Alert>)
    ensures |r| == |cs| && forall i | 0 <= i < |cs| :: r[i] == build(cs[i], ResourcesOf(ps, cs[i]))
  {
    seq(|cs|, i requires 0 <= i < |cs| => build(cs[i], ResourcesOf(ps, cs[i])))
  }

  /** One alert for each of these controls. */
  function AlertsFor(cs: seq<string>, ps: seq<Pair>, names: map<string, string>, now: Time, expire: int): seq<Alert> {
    BuildGroups(cs, ps, AlertBuilder(names, now, expire))
  }

  /** buildAlerts: groups by control in a map, keeping the controls in order of first appearance. */
  method BuildAlerts(regressions: seq<Pair>, names: map<string, string>, now: Time, expire: int) returns (alerts: seq<Alert>)
    ensures alerts == AlertsFor(Controls(regressions), regressions, names, now, expire)
  {
    alerts := BuildWith(regressions, AlertBuilder(names, now, expire));
  }

  method BuildWith(regressions: seq<Pair>, build: Builder) returns (alerts: seq<Alert>)
    ensures alerts == BuildGroups(Controls(regressions), regressions, build)
  {
    var controls, byControl := GroupByControl(regressions);
    alerts := [];
    for i := 0 to |controls|
      invariant |alerts| == i
      invariant forall j | 0 <= j < i :: alerts[j] == build(controls[j], ResourcesOf(regressions, controls[j]))
    {
      assert controls[i] in controls;
      var resources := byControl[controls[i]];
      assert resources == ResourcesOf(regressions, controls[i]);
      alerts := alerts + [build(controls[i], resources)];
    }
    assert alerts == BuildGroups(controls, regressions, build);
  }

  /** The first loop: the controls met, and each one's resources. */
  method GroupByControl(regressions: seq<Pair>) returns (controls: seq<string>, byControl: map<string, seq<string>>)
    ensures controls == Controls(regressions)
    ensures forall c :: c in byControl <==> c in controls
    ensures forall c | c in byControl :: byControl[c] == ResourcesOf(regressions, c)
  {
    controls, byControl := [], map[];
    for i := 0 to |regressions|
      invariant Grouped(controls, byControl, regressions[..i])
    {
      var p := regressions[i];
      assert regressions[..i + 1] == regressions[..i] + [p];
      GroupedOneMore(controls, byControl, regressions[..i], p);
      if p.control !in byControl {
        controls := controls + [p.control];
      }
      byControl := byControl[p.control := (if p.control in byControl then byControl[p.control] else []) + [p.resource]];
    }
    assert regressions[..|regressions|] == regressions;
  }

  ghost predicate Grouped(controls: seq<string>, byControl: map<string, seq<string>>, ps: seq<Pair>) {
    && controls == Controls(ps) && (forall c :: c in byControl <==> c in controls)
    && forall c | c in byControl :: byControl[c] == ResourcesOf(ps, c)
  }

  lemma GroupedOneMore(controls: seq<string>, byControl: map<string, seq<string>>, ps: seq<Pair>, p: Pair)
    requires Grouped(controls, byControl, ps)
    ensures Grouped(if p.control in byControl then controls else controls + [p.control],
                    byControl[p.control := (if p.control in byControl then byControl[p.control] else []) + [p.resource]],
                    ps + [p])
  {
    ControlsSnoc(ps, p);
    ResourcesSnoc(ps, p);
    NoneListed(ps, p.control);
  }

  lemma ResourcesSnoc(ps: seq<Pair>, p: Pair)
    ensures forall c :: ResourcesOf(ps + [p], c) == ResourcesOf(ps, c) + if p.control == c then [p.resource] else []
  {
    assert (ps + [p])[..|ps|] == ps;
  }

  lemma {:induction false} NoneListed(ps: seq<Pair>, c: string)
    ensures c in Controls(ps) <==> ResourcesOf(ps, c) != []
  {
    if ps != [] {
      NoneListed(ps[..|ps| - 1], c);
    }
  }

  // ---------------------------------------------------------------- nothing is lost on the way

  function PairsWith(c: string, resources: seq<string>): (r: seq<Pair>)
    ensures |r| == |resources| && forall i | 0 <= i < |r| :: r[i] == Pair(c, resources[i])
  {
    seq(|resources|, i requires 0 <= i < |resources| => Pair(c, resources[i]))
  }

  /** The groups laid end to end. */
  function Flatten(cs: seq<string>, ps: seq<Pair>): seq<Pair> {
    if cs == [] then [] else
      var k := |cs| - 1;
      Flatten(cs[..k], ps) + PairsWith(cs[k], ResourcesOf(ps, cs[k]))
  }

  lemma {:induction false} ResourcesCount(ps: seq<Pair>, p: Pair)
    ensures multiset(ResourcesOf(ps, p.control))[p.resource] == multiset(ps)[p]
  {
    if ps != [] {
      var k := |ps| - 1;
      ResourcesCount(ps[..k], p);
      assert ps == ps[..k] + [ps[k]];
    }
  }

  lemma {:induction false} PairsWithCount(c: string, rs: seq<string>, p: Pair)
    ensures multiset(PairsWith(c, rs))[p] == if p.control == c then multiset(rs)[p.resource] else 0
  {
    if rs != [] {
      var k := |rs| - 1;
      PairsWithCount(c, rs[..k], p);
      assert rs == rs[..k] + [rs[k]];
      assert PairsWith(c, rs) == PairsWith(c, rs[..k]) + [Pair(c, rs[k])];
    }
  }

  lemma {:induction false} FlattenCount(cs: seq<string>, ps: seq<Pair>, p: Pair)
    requires forall i, j | 0 <= i < j < |cs| :: cs[i] != cs[j]
    ensures multiset(Flatten(cs, ps))[p] == if p.control in cs then multiset(ps)[p] else 0
  {
    if cs != [] {
      var k := |cs| - 1;
      FlattenCount(cs[..k], ps, p);
      assert cs == cs[..k] + [cs[k]];
      PairsWithCount(cs[k], ResourcesOf(ps, cs[k]), p);
      ResourcesCount(ps, p);
    }
  }

  /** Whatever the order, every regression is in exactly one group, as often as it was listed. */
  lemma GroupsLoseNothing(ps: seq<Pair>)
    ensures multiset(Flatten(Controls(ps), ps)) == multiset(ps)
  {
    forall p: Pair ensures multiset(Flatten(Controls(ps), ps))[p] == multiset(ps)[p] {
      FlattenCount(Controls(ps), ps, p);
      if p in multiset(ps) {
        var i :| 0 <= i < |ps| && ps[i] == p;
      }
    }
  }

  /** No control in the list continues another with a character not above the space. */
  ghost predicate NoneStraddle(ps: seq<Pair>) {
    forall i, j | 0 <= i < |ps| && 0 <= j < |ps| :: !Straddles(ps[i].control, ps[j].control)
  }

  /** In such a sorted list equal controls are neighbours: the last control is
      either the previous one or a new, greater one. */
  lemma SortedControlsGrow(ps: seq<Pair>, i: nat)
    requires ps != [] && Sorted(KeyLess, ps) && NoneStraddle(ps) && i < |ps|
    ensures ps[i].control == ps[|ps| - 1].control || Less(ps[i].control, ps[|ps| - 1].control)
  {
    var last := ps[|ps| - 1];
    LessTotal(ps[i].control, last.control);
    if ps[i].control != last.control {
      assert !KeyLess(last, ps[i]);
      KeyOrderIff(last.control, ps[i].control);
    }
  }

  /** Over difference's output, laying the groups end to end gives that output
      back exactly, and the controls ascend strictly: one alert per control. */
  lemma {:induction false} GroupsInOrder(ps: seq<Pair>)
    requires Sorted(KeyLess, ps) && NoneStraddle(ps)
    ensures Flatten(Controls(ps), ps) == ps
    ensures forall i, j | 0 <= i < j < |Controls(ps)| :: Less(Controls(ps)[i], Controls(ps)[j])
    ensures ps != [] ==> Controls(ps) != [] && Controls(ps)[|Controls(ps)| - 1] == ps[|ps| - 1].control
  {
    if ps != [] {
      var k := |ps| - 1;
      var before := ps[..k];
      GroupsInOrder(before);
      ControlsGrow(ps);
      GroupsOneMore(before, ps[k]);
      FrontLast(ps);
    }
  }

  /** From the two sets to the groups: when no two controls of the difference
      straddle, difference has one result only, and grouping it by control and
      laying the groups end to end gives that result back, controls ascending. */
  lemma DifferenceGroups(s: set<Pair>, ps: seq<Pair>)
    requires forall p, q | p in s && q in s :: !Straddles(p.control, q.control)
    requires Lists(ps, s) && Sorted(KeyLess, ps)
    ensures forall x | Lists(x, s) && Sorted(KeyLess, x) :: x == ps
    ensures Flatten(Controls(ps), ps) == ps
    ensures forall i, j | 0 <= i < j < |Controls(ps)| :: Less(Controls(ps)[i], Controls(ps)[j])
  {
    forall p, q | p in s && q in s ensures !SpaceContinues(p.control, q.control) {
      ContinuesStraddles(p.control, q.control);
    }
    SeparateControlsKeysApart(s);
    DifferenceDeterminedIff(s);
    ListsMembers(ps, s);
    assert forall i | 0 <= i < |ps| :: ps[i] in s;
    GroupsInOrder(ps);
  }

  /** Control IDs without white space are always so. */
  lemma PlainDifferenceGroups(s: set<Pair>, ps: seq<Pair>)
    requires (forall p | p in s :: Plain(p.control)) && Lists(ps, s) && Sorted(KeyLess, ps)
    ensures forall x | Lists(x, s) && Sorted(KeyLess, x) :: x == ps
    ensures Flatten(Controls(ps), ps) == ps
    ensures forall i, j | 0 <= i < j < |Controls(ps)| :: Less(Controls(ps)[i], Controls(ps)[j])
  {
    forall p, q | p in s && q in s ensures !Straddles(p.control, q.control) {
      PlainStaysApart(p.control, q.control);
    }
    DifferenceGroups(s, ps);
  }

  lemma ControlsGrow(ps: seq<Pair>)
    requires ps != [] && Sorted(KeyLess, ps) && NoneStraddle(ps)
    ensures var cs, c := Controls(ps[..|ps| - 1]), ps[|ps| - 1].control;
            forall i | 0 <= i < |cs| :: cs[i] == c || Less(cs[i], c)
  {
    var before, c := ps[..|ps| - 1], ps[|ps| - 1].control;
    var cs := Controls(before);
    forall i | 0 <= i < |cs| ensures cs[i] == c || Less(cs[i], c) {
      assert cs[i] in cs;
      var p :| p in before && p.control == cs[i];
      var j :| 0 <= j < |before| && before[j] == p;
      SortedControlsGrow(ps, j);
    }
  }

  lemma GroupsOneMore(ps: seq<Pair>, p: Pair)
    requires Flatten(Controls(ps), ps) == ps
    requires forall i, j | 0 <= i < j < |Controls(ps)| :: Less(Controls(ps)[i], Controls(ps)[j])
    requires forall i | 0 <= i < |Controls(ps)| :: Controls(ps)[i] == p.control || Less(Controls(ps)[i], p.control)
    ensures var cs := Controls(ps + [p]);
            && Flatten(cs, ps + [p]) == ps + [p]
            && (forall i, j | 0 <= i < j < |cs| :: Less(cs[i], cs[j]))
            && cs != [] && cs[|cs| - 1] == p.control
  {
    var cs := Controls(ps);
    ControlsSnoc(ps, p);
    if p.control in cs {
      SameGroupGrows(ps, p, cs);
      assert Controls(ps + [p]) == cs;
    } else {
      NewGroupOpens(ps, p, cs);
      assert Controls(ps + [p]) == cs + [p.control];
    }
  }

  lemma SameGroupGrows(ps: seq<Pair>, p: Pair, cs: seq<string>)
    requires Flatten(cs, ps) == ps && p.control in cs
    requires forall i, j | 0 <= i < j < |cs| :: Less(cs[i], cs[j]) && cs[i] != cs[j]
    requires forall i | 0 <= i < |cs| :: cs[i] == p.control || Less(cs[i], p.control)
    ensures Flatten(cs, ps + [p]) == ps + [p] && cs[|cs| - 1] == p.control
  {
    LastIsLast(cs, p.control);
    FlattenLast(cs, ps, p);
  }

  lemma NewGroupOpens(ps: seq<Pair>, p: Pair, cs: seq<string>)
    requires cs == Controls(ps) && Flatten(cs, ps) == ps && p.control !in cs
    requires forall i, j | 0 <= i < j < |cs| :: Less(cs[i], cs[j])
    requires forall i | 0 <= i < |cs| :: cs[i] == p.control || Less(cs[i], p.control)
    ensures Flatten(cs + [p.control], ps + [p]) == ps + [p]
    ensures forall i, j | 0 <= i < j < |cs + [p.control]| :: Less((cs + [p.control])[i], (cs + [p.control])[j])
  {
    NewGroup(ps, p);
    FlattenOther(cs, ps, p);
  }

  lemma ControlsSnoc(ps: seq<Pair>, p: Pair)
    ensures Controls(ps + [p]) == if p.control in Controls(ps) then Controls(ps) else Controls(ps) + [p.control]
  {
    assert (ps + [p])[..|ps|] == ps;
  }

  /** A control met for the first time opens a group of one. */
  lemma NewGroup(ps: seq<Pair>, p: Pair)
    requires p.control !in Controls(ps)
    ensures Flatten(Controls(ps) + [p.control], ps + [p]) == Flatten(Controls(ps), ps + [p]) + [p]
  {
    var cs := Controls(ps);
    NoneListed(ps, p.control);
    assert (ps + [p])[..|ps|] == ps && (cs + [p.control])[..|cs|] == cs;
    assert PairsWith(p.control, ResourcesOf(ps + [p], p.control)) == [p];
  }

  /** A member of an ascending list that nothing in it exceeds is its last. */
  lemma LastIsLast(cs: seq<string>, c: string)
    requires c in cs && forall i | 0 <= i < |cs| :: cs[i] == c || Less(cs[i], c)
    requires forall i, j | 0 <= i < j < |cs| :: Less(cs[i], cs[j])
    ensures cs[|cs| - 1] == c
  {
    var i :| 0 <= i < |cs| && cs[i] == c;
    if i < |cs| - 1 {
      LessAsymmetric(c, cs[|cs| - 1]);
    }
  }

  lemma {:induction false} FlattenOther(cs: seq<string>, ps: seq<Pair>, p: Pair)
    requires p.control !in cs
    ensures Flatten(cs, ps + [p]) == Flatten(cs, ps)
  {
    if cs != [] {
      var k := |cs| - 1;
      FlattenOther(cs[..k], ps, p);
      assert (ps + [p])[..|ps|] == ps;
      assert cs[k] in cs;
    }
  }

  lemma FlattenLast(cs: seq<string>, ps: seq<Pair>, p: Pair)
    requires cs != [] && cs[|cs| - 1] == p.control
    requires forall i, j | 0 <= i < j < |cs| :: cs[i] != cs[j]
    ensures Flatten(cs, ps + [p]) == Flatten(cs, ps) + [p]
  {
    var k := |cs| - 1;
    FlattenOther(cs[..k], ps, p);
    assert (ps + [p])[..|ps|] == ps;
    assert PairsWith(p.control, ResourcesOf(ps + [p], p.control)) == PairsWith(p.control, ResourcesOf(ps, p.control)) + [p];
  }
}
