/** What `check` and `credentials` of ops/node-maintenance.sh decide, from the
    text kubectl prints to the verdict that `on` waits for. */
module Checks {
  import opened Text
  import opened Filters

  /** Output of one kubectl call, and whether it succeeded. */
  datatype Read = Read(text: string, ok: bool)

  datatype Reads = Reads(volumes: Read, namespaces: Read, accounts: string -> Read, pods: string -> Read)

  /** The verdict, with what is printed. Aborted: a read failed and set -e ended the script. */
  datatype Verdict = Ready | BadVolumes(report: string) | BadPods(report: string) | Aborted

  // ---------------------------------------------------------------- text, as the shell handles it

  /** `$(...)` drops the newlines at the end. */
  function Strip(s: string): string {
    if s != "" && s[|s| - 1] == '\n' then Strip(s[..|s| - 1]) else s
  }

  /** The lines a filter reads from a here-string. */
  function HereLines(s: string): seq<string> {
    Lines(s + "\n")
  }

  /** awk's `$(n + 1)` */
  function Column(line: string, n: nat): string {
    if n < |Fields(line)| then Fields(line)[n] else ""
  }

  function Same(line: string): string {
    line
  }

  predicate NotEmpty(line: string) {
    line != ""
  }

  // ---------------------------------------------------------------- volumes

  predicate Unhealthy(line: string) {
    Column(line, 1) != "detached" && Column(line, 2) != "healthy"
  }

  function VolumeReport(text: string): string {
    Strip(Unlines(FilterMap(Unhealthy, Same, HereLines(Strip(text)))))
  }

  // ---------------------------------------------------------------- credentials

  predicate HasRole(line: string) {
    |Fields(line)| == 2
  }

  /** The first awk filter: `$1` and a space, for each line of two fields. */
  function Roles(text: string): string {
    RolesOf(Lines(text))
  }

  function RolesOf(lines: seq<string>): string {
    if lines == [] then ""
    else (if HasRole(lines[0]) then Column(lines[0], 0) + " " else "") + RolesOf(lines[1..])
  }

  const ROLE_ARN := "AWS_ROLE_ARN"

  predicate RoleArnAt(s: string, i: nat) {
    && i + 13 <= |s| && s[i] == ' ' && s[i + 1..i + 13] == ROLE_ARN
    && (i + 13 < |s| ==> s[i + 13] == ' ')
  }

  /** / AWS_ROLE_ARN( |$)/ */
  predicate HasRoleArn(s: string) {
    exists i | 0 <= i < |s| :: RoleArnAt(s, i)
  }

  /** ($2 in federated) && !/ AWS_ROLE_ARN( |$)/ */
  predicate Lacks(federated: seq<string>, line: string) {
    Column(line, 1) in federated && !HasRoleArn(line)
  }

  function Reported(ns: string, line: string): string {
    ns + "/" + Column(line, 0)
  }

  /** What awk prints for the pods of one namespace. */
  function PodReport(ns: string, federated: seq<string>, lines: seq<string>): seq<string> {
    if lines == [] then [] else
      var line := lines[|lines| - 1];
      PodReport(ns, federated, lines[..|lines| - 1]) + if Lacks(federated, line) then [Reported(ns, line)] else []
  }

  function FlaggedIn(ns: string, accounts: string, pods: string): seq<string> {
    if Roles(accounts) == "" then [] else PodReport(ns, Fields(Roles(accounts)), HereLines(Strip(pods)))
  }

  function Flagged(r: Reads, nss: seq<string>): seq<string> {
    if nss == [] then [] else
      var ns := nss[|nss| - 1];
      Flagged(r, nss[..|nss| - 1]) + FlaggedIn(ns, r.accounts(ns).text, r.pods(ns).text)
  }

  predicate ReadsIn(r: Reads, ns: string) {
    r.accounts(ns).ok && (Roles(r.accounts(ns).text) != "" ==> r.pods(ns).ok)
  }

  ghost predicate AllRead(r: Reads, nss: seq<string>, i: nat) {
    i <= |nss| && forall k | 0 <= k < i :: ReadsIn(r, nss[k])
  }

  // ---------------------------------------------------------------- the decision

  /** With set -e in force a failed read ends the script. `on` calls `check` on
      the left of `||`, where it is not in force: what could not be read is then
      taken as empty. The listing of the namespaces stands in the head of a `for`,
      so its failure is never noticed, with set -e or without. */
  function Decide(errexit: bool, r: Reads): Verdict {
    var nss := Fields(r.namespaces.text);
    if errexit && !r.volumes.ok then Aborted
    else if VolumeReport(r.volumes.text) != "" then BadVolumes(VolumeReport(r.volumes.text))
    else if errexit && exists ns | ns in nss :: !ReadsIn(r, ns) then Aborted
    else if Flagged(r, nss) != [] then BadPods(Join(Flagged(r, nss), "\n"))
    else Ready
  }

  method Check(errexit: bool, r: Reads) returns (v: Verdict)
    ensures v == Decide(errexit, r)
  {
    if errexit && !r.volumes.ok {
      return Aborted;
    }
    var vols := Strip(r.volumes.text);
    var bad := Strip(Unlines(FilterMap(Unhealthy, Same, HereLines(vols))));
    if bad != "" {
      return BadVolumes(bad);
    }
    v := Credentials(errexit, r);
  }

  method Credentials(errexit: bool, r: Reads) returns (v: Verdict)
    ensures var nss := Fields(r.namespaces.text);
            v == if errexit && exists ns | ns in nss :: !ReadsIn(r, ns) then Aborted
                 else if Flagged(r, nss) != [] then BadPods(Join(Flagged(r, nss), "\n"))
                 else Ready
  {
    var nss := Fields(r.namespaces.text);
    var bad := "";
    ghost var lines: seq<string> := [];
    for i := 0 to |nss|
      invariant Collected(r, nss[..i], bad, lines)
      invariant errexit ==> AllRead(r, nss, i)
    {
      var ns := nss[i];
      assert ns in nss && nss[..i + 1] == nss[..i] + [ns];
      if errexit && !r.accounts(ns).ok {
        return Aborted;
      }
      lines := CollectStep(r, nss[..i], ns, bad, lines);
      var roles := Roles(r.accounts(ns).text);
      if roles == "" {
        assert errexit ==> AllRead(r, nss, i + 1);
        continue;
      }
      if errexit && !r.pods(ns).ok {
        return Aborted;
      }
      var pods := Strip(r.pods(ns).text);
      bad := bad + (Strip(Unlines(PodReport(ns, Fields(roles), HereLines(pods)))) + "\n");
      assert errexit ==> AllRead(r, nss, i + 1);
    }
    assert nss[..|nss|] == nss;
    bad := Strip(Unlines(FilterMap(NotEmpty, Same, HereLines(bad))));
    FinalReport(lines);
    if bad != "" {
      v := BadPods(bad);
    } else {
      v := Ready;
    }
  }

  // ---------------------------------------------------------------- what the shell's text handling loses: nothing

  ghost predicate Line(l: string) {
    l != "" && '\n' !in l
  }

  lemma {:induction false} StripUnlines(ls: seq<string>)
    requires forall l | l in ls :: Line(l)
    ensures Strip(Unlines(ls)) == Join(ls, "\n")
    ensures ls != [] ==> Join(ls, "\n") != "" && Join(ls, "\n") + "\n" == Unlines(ls)
    ensures ls != [] ==> Join(ls, "\n")[|Join(ls, "\n")| - 1] != '\n'
  {
    if ls != [] {
      var j := Join(ls, "\n");
      assert ls[0] in ls;
      if |ls| == 1 {
        assert ls[0][|ls[0]| - 1] in ls[0];
        assert Unlines(ls[1..]) == "" && Unlines(ls) == ls[0] + "\n" + "" == j + "\n";
      } else {
        StripUnlines(ls[1..]);
        var k := Join(ls[1..], "\n");
        assert j[|j| - 1] == k[|k| - 1];
        assert j + "\n" == ls[0] + "\n" + (k + "\n");
      }
      assert (j + "\n")[..|j|] == j;
      assert Strip(j) == j;
    }
  }

  /** A filter fed by a here-string sees the lines kubectl printed, or one empty line. */
  lemma HereLinesOfOutput(ls: seq<string>)
    requires forall l | l in ls :: Line(l)
    ensures HereLines(Strip(Unlines(ls))) == if ls == [] then [""] else ls
  {
    StripUnlines(ls);
    if ls != [] {
      LinesOfUnlines(ls);
    }
  }

  /** `bad` after some namespaces: the reported lines, and an empty one for each
      namespace without any. */
  ghost predicate Collected(r: Reads, done: seq<string>, bad: string, lines: seq<string>) {
    && bad == Unlines(lines) && (forall l | l in lines :: '\n' !in l)
    && FilterMap(NotEmpty, Same, lines) == Flagged(r, done)
  }

  lemma CollectStep(r: Reads, done: seq<string>, ns: string, bad: string, lines: seq<string>) returns (more: seq<string>)
    requires Collected(r, done, bad, lines) && SpaceFree(ns)
    ensures var roles, pods := Roles(r.accounts(ns).text), Strip(r.pods(ns).text);
            Collected(r, done + [ns],
              if roles == "" then bad else bad + (Strip(Unlines(PodReport(ns, Fields(roles), HereLines(pods)))) + "\n"), more)
  {
    assert (done + [ns])[..|done|] == done;
    var roles, pods := Roles(r.accounts(ns).text), Strip(r.pods(ns).text);
    if roles == "" {
      more := lines;
    } else {
      var out := PodReport(ns, Fields(roles), HereLines(pods));
      PodReportLines(ns, Fields(roles), HereLines(pods));
      more := AddReport(lines, out);
    }
  }

  lemma AddReport(lines: seq<string>, out: seq<string>) returns (r: seq<string>)
    requires (forall l | l in lines :: '\n' !in l) && forall l | l in out :: Line(l)
    ensures Unlines(r) == Unlines(lines) + (Strip(Unlines(out)) + "\n")
    ensures FilterMap(NotEmpty, Same, r) == FilterMap(NotEmpty, Same, lines) + out
    ensures forall l | l in r :: '\n' !in l
  {
    var more := if out == [] then [""] else out;
    r := lines + more;
    UnlinesAppend(lines, more);
    StripUnlines(out);
    assert Unlines([""]) == "\n";
    KeepAppend(lines, more);
    if out == [] {
      assert FilterMap(NotEmpty, Same, [""]) == [];
    } else {
      assert forall l | l in out :: Line(l) && NotEmpty(l);
      KeepAll(out);
    }
  }

  lemma {:induction false} KeepAppend(a: seq<string>, b: seq<string>)
    ensures FilterMap(NotEmpty, Same, a + b) == FilterMap(NotEmpty, Same, a) + FilterMap(NotEmpty, Same, b)
  {
    if b == [] {
      assert a + b == a;
    } else {
      KeepAppend(a, b[..|b| - 1]);
      assert a + b == (a + b[..|b| - 1]) + [b[|b| - 1]];
      FilterMapSnoc(NotEmpty, Same, a + b[..|b| - 1], b[|b| - 1]);
    }
  }

  lemma {:induction false} KeepAll(ls: seq<string>)
    requires forall l | l in ls :: NotEmpty(l)
    ensures FilterMap(NotEmpty, Same, ls) == ls
  {
    if ls != [] {
      var front := ls[..|ls| - 1];
      assert ls == front + [ls[|ls| - 1]] && NotEmpty(ls[|ls| - 1]);
      forall l | l in front ensures NotEmpty(l) {
        assert l in ls;
      }
      KeepAll(front);
    }
  }

  lemma {:induction false} KeptLines(keep: string -> bool, ls: seq<string>)
    ensures forall l :: l in FilterMap(keep, Same, ls) <==> l in ls && keep(l)
  {
    if ls != [] {
      KeptLines(keep, ls[..|ls| - 1]);
      FrontLast(ls);
      assert forall l :: l in ls <==> l in ls[..|ls| - 1] || l == ls[|ls| - 1];
    }
  }

  lemma FinalReport(lines: seq<string>)
    requires forall l | l in lines :: '\n' !in l
    ensures var kept := FilterMap(NotEmpty, Same, lines);
            && Strip(Unlines(FilterMap(NotEmpty, Same, HereLines(Unlines(lines))))) == Join(kept, "\n")
            && (kept != [] <==> Join(kept, "\n") != "")
  {
    BlankEnd(lines);
    var kept := FilterMap(NotEmpty, Same, lines);
    FilterMapSnoc(NotEmpty, Same, lines, "");
    assert FilterMap(NotEmpty, Same, lines + [""]) == kept + [] == kept;
    KeptLines(NotEmpty, lines);
    JoinKept(kept);
  }

  lemma JoinKept(kept: seq<string>)
    requires forall l | l in kept :: NotEmpty(l) && '\n' !in l
    ensures Strip(Unlines(kept)) == Join(kept, "\n") && (kept != [] <==> Join(kept, "\n") != "")
  {
    assert forall l | l in kept :: Line(l);
    StripUnlines(kept);
  }

  /** A here-string adds an empty line to a text that already ends its last line. */
  lemma BlankEnd(lines: seq<string>)
    requires forall l | l in lines :: '\n' !in l
    ensures HereLines(Unlines(lines)) == lines + [""]
  {
    UnlinesAppend(lines, [""]);
    assert Unlines([""]) == "\n";
    LinesOfUnlines(lines + [""]);
  }

  lemma {:induction false} PodReportLines(ns: string, federated: seq<string>, lines: seq<string>)
    requires '\n' !in ns && forall l | l in lines :: '\n' !in l
    ensures forall l | l in PodReport(ns, federated, lines) :: Line(l)
  {
    if lines != [] {
      var line := lines[|lines| - 1];
      PodReportLines(ns, federated, lines[..|lines| - 1]);
      FieldsMembers(line, '\n');
    }
  }

  // ---------------------------------------------------------------- what the verdict means

  datatype Volume = Volume(name: string, state: string, robustness: string, node: string, claim: string)

  datatype Account = Account(name: string, arn: Option<string>)

  datatype Pod = Pod(name: string, account: string, envs: seq<string>)

  /** A row of the volume table, however wide its columns are. */
  ghost predicate PrintsVolume(v: Volume, row: string) {
    Fields(row) == [v.name, v.state, v.robustness, v.node, v.claim] && '\n' !in row
  }

  predicate Healthy(v: Volume) {
    v.state == "detached" || v.robustness == "healthy"
  }

  /** The volume table passes exactly when every volume is detached or healthy. */
  lemma VolumesReportedIff(vs: seq<Volume>, rows: seq<string>)
    requires |rows| == |vs| && forall i | 0 <= i < |vs| :: PrintsVolume(vs[i], rows[i])
    ensures VolumeReport(Unlines(rows)) == "" <==> forall i | 0 <= i < |vs| :: Healthy(vs[i])
  {
    forall i | 0 <= i < |rows| ensures Line(rows[i]) && (Unhealthy(rows[i]) <==> !Healthy(vs[i])) {
      RowIff(vs[i], rows[i]);
    }
    ReportEmptyIff(rows);
  }

  lemma RowIff(v: Volume, row: string)
    requires PrintsVolume(v, row)
    ensures Line(row) && (Unhealthy(row) <==> !Healthy(v))
  {
    var f := Fields(row);
    assert f[1] == v.state && f[2] == v.robustness;
  }

  lemma ReportEmptyIff(rows: seq<string>)
    requires forall i | 0 <= i < |rows| :: Line(rows[i])
    ensures VolumeReport(Unlines(rows)) == "" <==> forall i | 0 <= i < |rows| :: !Unhealthy(rows[i])
  {
    HereLinesOfOutput(rows);
    if rows == [] {
      FilterMapSnoc(Unhealthy, Same, [], "");
      assert FilterMap(Unhealthy, Same, [""]) == [""] && Unlines([""]) == "\n";
    } else {
      KeptLines(Unhealthy, rows);
      var kept := FilterMap(Unhealthy, Same, rows);
      forall l | l in kept ensures NotEmpty(l) && '\n' !in l {
        var i :| 0 <= i < |rows| && rows[i] == l;
        assert Line(rows[i]);
      }
      JoinKept(kept);
      SomeMember(kept);
      assert forall i | 0 <= i < |rows| && Unhealthy(rows[i]) :: rows[i] in kept;
    }
  }

  lemma SomeMember(ls: seq<string>)
    ensures ls != [] ==> exists l :: l in ls
  {
    if ls != [] {
      assert ls[0] in ls;
    }
  }

  function Tail(words: seq<string>): string {
    if words == [] then "" else " " + words[0] + Tail(words[1..])
  }

  /** The pattern finds AWS_ROLE_ARN as a whole word after the first, and only so. */
  lemma {:induction false} HasRoleArnIff(head: string, words: seq<string>)
    requires ' ' !in head && forall w | w in words :: ' ' !in w
    ensures HasRoleArn(head + Tail(words)) <==> ROLE_ARN in words
    decreases |words|
  {
    var s := head + Tail(words);
    if words == [] {
      assert forall i | 0 <= i < |s| :: s[i] in head;
    } else {
      var w, rest := words[0], Tail(words[1..]);
      assert w in words && forall x :: x in words <==> x == w || x in words[1..];
      var n := |head| + 1;
      assert s == head + [' '] + (w + rest) && s[n..] == w + rest;
      HasRoleArnIff(w, words[1..]);
      RoleArnHere(head, w, rest);
      assert forall i | 0 <= i < |head| :: s[i] in head;
      MatchesBehind(s, n);
    }
  }

  lemma MatchesBehind(s: string, n: nat)
    requires n <= |s|
    ensures HasRoleArn(s[n..]) <==> exists i | n <= i < |s| :: RoleArnAt(s, i)
  {
    forall i | 0 <= i < |s| - n ensures RoleArnAt(s[n..], i) <==> RoleArnAt(s, n + i) {
      Shifted(s, n, i);
    }
    if i :| n <= i < |s| && RoleArnAt(s, i) {
      assert RoleArnAt(s[n..], i - n);
    }
  }

  lemma Shifted(s: string, n: nat, i: nat)
    requires n + i <= |s|
    ensures RoleArnAt(s[n..], i) <==> RoleArnAt(s, n + i)
  {
    if i + 13 <= |s| - n {
      assert s[n..][i + 1..i + 13] == s[n + i + 1..n + i + 13];
    }
  }

  lemma RoleArnHere(head: string, w: string, rest: string)
    requires ' ' !in w && (rest == "" || rest[0] == ' ')
    ensures RoleArnAt(head + [' '] + (w + rest), |head|) <==> w == ROLE_ARN
  {
    var s := head + [' '] + (w + rest);
    var n := |head| + 1;
    assert s[n..] == w + rest;
    assert |ROLE_ARN| == 12 && forall c | c in ROLE_ARN :: c != ' ';
    if |w| < 12 {
      if n + 12 <= |s| {
        assert s[n..n + 12][|w|] == s[n + |w|] == rest[0];
        assert ROLE_ARN[|w|] in ROLE_ARN;
      }
    } else if |w| > 12 {
      assert s[n + 12] == w[12] && w[12] in w;
    } else {
      assert s[n..n + 12] == w;
      assert n + 12 < |s| ==> s[n + 12] == rest[0];
    }
  }

  function AccountLine(a: Account): string {
    a.name + " " + if a.arn.Some? then a.arn.value else ""
  }

  function AccountLines(xs: seq<Account>): seq<string> {
    if xs == [] then [] else [AccountLine(xs[0])] + AccountLines(xs[1..])
  }

  ghost predicate PlainAccount(a: Account) {
    Word(a.name) && (a.arn.Some? ==> Word(a.arn.value))
  }

  function Federated(xs: seq<Account>): seq<string> {
    if xs == [] then [] else (if xs[0].arn.Some? then [xs[0].name] else []) + Federated(xs[1..])
  }

  lemma FieldsOfAccount(a: Account)
    requires PlainAccount(a)
    ensures Fields(AccountLine(a)) == if a.arn.Some? then [a.name, a.arn.value] else [a.name]
    ensures '\n' !in AccountLine(a)
  {
    var last := if a.arn.Some? then a.arn.value else "";
    assert AccountLine(a) == a.name + (" " + last);
    FieldsToken(a.name, " " + last);
    assert (" " + last)[1..] == last;
    if a.arn.Some? {
      FieldsToken(last, "");
      assert last + "" == last;
    }
  }

  lemma RoleStep(a: Account, rest: seq<string>)
    requires PlainAccount(a)
    ensures var s := RolesOf([AccountLine(a)] + rest);
            && Fields(s) == (if a.arn.Some? then [a.name] else []) + Fields(RolesOf(rest))
            && (s == "" <==> a.arn.None? && RolesOf(rest) == "")
  {
    FieldsOfAccount(a);
    assert ([AccountLine(a)] + rest)[1..] == rest;
    var s := RolesOf(rest);
    if a.arn.Some? {
      assert RolesOf([AccountLine(a)] + rest) == a.name + (" " + s);
      FieldsToken(a.name, " " + s);
      FieldsSkip(" ", s);
    } else {
      assert RolesOf([AccountLine(a)] + rest) == s;
    }
  }

  /** The first filter passes on exactly the accounts with a role. */
  lemma {:induction false} RolesRead(xs: seq<Account>)
    requires forall a | a in xs :: PlainAccount(a)
    ensures Fields(RolesOf(AccountLines(xs))) == Federated(xs)
    ensures RolesOf(AccountLines(xs)) == "" <==> Federated(xs) == []
  {
    if xs != [] {
      assert xs[0] in xs;
      RolesRead(xs[1..]);
      RoleStep(xs[0], AccountLines(xs[1..]));
    }
  }

  lemma {:induction false} AccountLinesPlain(xs: seq<Account>)
    requires forall a | a in xs :: PlainAccount(a)
    ensures forall l | l in AccountLines(xs) :: '\n' !in l
  {
    if xs != [] {
      assert xs[0] in xs;
      FieldsOfAccount(xs[0]);
      AccountLinesPlain(xs[1..]);
    }
  }

  function PodLine(p: Pod): string {
    p.name + " " + p.account + " " + Join(p.envs, " ")
  }

  function PodLines(ps: seq<Pod>): (r: seq<string>)
    ensures |r| == |ps| && forall i | 0 <= i < |ps| :: r[i] == PodLine(ps[i])
  {
    seq(|ps|, i requires 0 <= i < |ps| => PodLine(ps[i]))
  }

  /** Kubernetes names have no upper-case letters, so an account is not called AWS_ROLE_ARN. */
  ghost predicate PlainPod(p: Pod) {
    Word(p.name) && Word(p.account) && p.account != ROLE_ARN && forall e | e in p.envs :: Word(e)
  }

  predicate Equipped(p: Pod) {
    "AWS_ROLE_ARN" in p.envs
  }

  lemma {:induction false} TailOfJoin(ws: seq<string>)
    ensures Tail(if ws == [] then [""] else ws) == " " + Join(ws, " ")
  {
    if |ws| > 1 {
      TailOfJoin(ws[1..]);
    } else if |ws| == 1 {
      assert Tail(ws[1..]) == "";
    } else {
      assert Tail([""][1..]) == "";
    }
  }

  lemma FieldsOfPod(p: Pod)
    requires PlainPod(p)
    ensures Column(PodLine(p), 0) == p.name && Column(PodLine(p), 1) == p.account
    ensures Line(PodLine(p))
  {
    var envs := Join(p.envs, " ");
    assert PodLine(p) == p.name + (" " + (p.account + (" " + envs)));
    FirstTwo(p.name, p.account, envs);
    JoinFree(p.envs, " ", '\n');
  }

  lemma FirstTwo(a: string, b: string, rest: string)
    requires Word(a) && Word(b)
    ensures Fields(a + (" " + (b + (" " + rest)))) == [a, b] + Fields(rest)
  {
    var tail := b + (" " + rest);
    FieldsToken(a, " " + tail);
    FieldsSkip(" ", tail);
    FieldsToken(b, " " + rest);
    FieldsSkip(" ", rest);
  }

  /** A pod is flagged exactly when its account federates and no container has the variable. */
  lemma LacksIff(federated: seq<string>, p: Pod)
    requires PlainPod(p)
    ensures Lacks(federated, PodLine(p)) <==> p.account in federated && !Equipped(p)
  {
    FieldsOfPod(p);
    EquippedIff(p);
  }

  lemma EquippedIff(p: Pod)
    requires PlainPod(p)
    ensures HasRoleArn(PodLine(p)) <==> Equipped(p)
  {
    var words := if p.envs == [] then [""] else p.envs;
    TailOfJoin(p.envs);
    var all := [p.account] + words;
    assert all[1..] == words;
    assert PodLine(p) == p.name + Tail(all);
    assert forall w | w in words :: w == "" || Word(w);
    assert forall w :: w in all <==> w == p.account || w in words;
    HasRoleArnIff(p.name, all);
  }

  function FlaggedPods(ns: string, federated: seq<string>, ps: seq<Pod>): seq<string> {
    if ps == [] then [] else
      var p := ps[|ps| - 1];
      FlaggedPods(ns, federated, ps[..|ps| - 1])
      + if p.account in federated && !Equipped(p) then [ns + "/" + p.name] else []
  }

  lemma {:induction false} PodsReported(ns: string, federated: seq<string>, ps: seq<Pod>)
    requires forall p | p in ps :: PlainPod(p)
    ensures PodReport(ns, federated, PodLines(ps)) == FlaggedPods(ns, federated, ps)
  {
    if ps != [] {
      var front, p := ps[..|ps| - 1], ps[|ps| - 1];
      assert p in ps && forall q | q in front :: q in ps;
      PodsReported(ns, federated, front);
      assert PodLines(ps)[..|ps| - 1] == PodLines(front);
      LacksIff(federated, p);
      FieldsOfPod(p);
    }
  }

  /** One namespace's part of the report, from what the cluster holds. */
  lemma FlaggedInIs(ns: string, xs: seq<Account>, ps: seq<Pod>)
    requires (forall a | a in xs :: PlainAccount(a)) && forall p | p in ps :: PlainPod(p)
    ensures FlaggedIn(ns, Unlines(AccountLines(xs)), Unlines(PodLines(ps))) == FlaggedPods(ns, Federated(xs), ps)
  {
    RolesRead(xs);
    AccountLinesPlain(xs);
    LinesOfUnlines(AccountLines(xs));
    if Federated(xs) == [] {
      NoneFlagged(ns, ps);
    } else {
      forall l | l in PodLines(ps) ensures Line(l) {
        var i :| 0 <= i < |ps| && l == PodLine(ps[i]);
        FieldsOfPod(ps[i]);
      }
      HereLinesOfOutput(PodLines(ps));
      PodsReported(ns, Federated(xs), ps);
      if ps == [] {
        assert "" !in Fields(RolesOf(AccountLines(xs)));
        assert [""][..0] == [];
        assert PodReport(ns, Federated(xs), [""]) == [];
      }
    }
  }

  lemma {:induction false} NoneFlagged(ns: string, ps: seq<Pod>)
    ensures FlaggedPods(ns, [], ps) == []
  {
    if ps != [] {
      NoneFlagged(ns, ps[..|ps| - 1]);
    }
  }

  lemma {:induction false} FlaggedPodsEmptyIff(ns: string, federated: seq<string>, ps: seq<Pod>)
    ensures FlaggedPods(ns, federated, ps) == [] <==> forall p | p in ps :: p.account in federated ==> Equipped(p)
  {
    if ps != [] {
      FlaggedPodsEmptyIff(ns, federated, ps[..|ps| - 1]);
      assert forall p :: p in ps <==> p in ps[..|ps| - 1] || p == ps[|ps| - 1];
    }
  }

  /** The volumes, the namespaces the webhook serves, and the accounts and running pods of each. */
  datatype Contents = Contents(volumes: seq<Volume>, namespaces: seq<string>,
                               accounts: string -> seq<Account>, pods: string -> seq<Pod>)

  ghost predicate Plain(c: Contents, ns: string) {
    (forall a | a in c.accounts(ns) :: PlainAccount(a)) && forall p | p in c.pods(ns) :: PlainPod(p)
  }

  ghost predicate RowsOf(c: Contents, rows: seq<string>) {
    |rows| == |c.volumes| && forall i | 0 <= i < |rows| :: PrintsVolume(c.volumes[i], rows[i])
  }

  ghost predicate AllHealthy(c: Contents) {
    forall i | 0 <= i < |c.volumes| :: Healthy(c.volumes[i])
  }

  ghost predicate Provided(c: Contents, ns: string) {
    forall p | p in c.pods(ns) && p.account in Federated(c.accounts(ns)) :: Equipped(p)
  }

  /** The cluster is fit for maintenance. */
  ghost predicate Fit(c: Contents) {
    AllHealthy(c) && forall ns | ns in c.namespaces :: Provided(c, ns)
  }

  /** A call that succeeds prints what there is, one that fails prints nothing. */
  ghost predicate Tells(r: Read, text: string) {
    r.text == if r.ok then text else ""
  }

  ghost predicate TellsOf(c: Contents, r: Reads, ns: string) {
    && Tells(r.accounts(ns), Unlines(AccountLines(c.accounts(ns))))
    && Tells(r.pods(ns), Unlines(PodLines(c.pods(ns))))
    && Plain(c, ns)
  }

  ghost predicate Prints(c: Contents, rows: seq<string>, r: Reads) {
    && RowsOf(c, rows) && Tells(r.volumes, Unlines(rows))
    && Fields(r.namespaces.text) == (if r.namespaces.ok then c.namespaces else [])
    && forall ns | ns in c.namespaces :: TellsOf(c, r, ns)
  }

  /** What the calls show of the namespace. */
  ghost predicate ProvidedAsSeen(c: Contents, r: Reads, ns: string) {
    r.accounts(ns).ok && r.pods(ns).ok ==> Provided(c, ns)
  }

  lemma FlaggedInSeen(c: Contents, r: Reads, ns: string)
    requires TellsOf(c, r, ns)
    ensures FlaggedIn(ns, r.accounts(ns).text, r.pods(ns).text) == [] <==> ProvidedAsSeen(c, r, ns)
    ensures r.accounts(ns).ok ==> (Roles(r.accounts(ns).text) != "" <==> Federated(c.accounts(ns)) != [])
  {
    var xs := if r.accounts(ns).ok then c.accounts(ns) else [];
    var ps := if r.pods(ns).ok then c.pods(ns) else [];
    FlaggedInIs(ns, xs, ps);
    FlaggedPodsEmptyIff(ns, Federated(xs), ps);
    RolesRead(xs);
    AccountLinesPlain(xs);
    LinesOfUnlines(AccountLines(xs));
  }

  lemma {:induction false} FlaggedEmptyIff(c: Contents, r: Reads, nss: seq<string>)
    requires forall ns | ns in nss :: TellsOf(c, r, ns)
    ensures Flagged(r, nss) == [] <==> forall ns | ns in nss :: ProvidedAsSeen(c, r, ns)
  {
    if nss != [] {
      var front, ns := nss[..|nss| - 1], nss[|nss| - 1];
      assert ns in nss && forall n | n in front :: n in nss;
      FlaggedEmptyIff(c, r, front);
      FlaggedInSeen(c, r, ns);
      assert forall n :: n in nss <==> n in front || n == ns;
    }
  }

  lemma VolumesSeen(c: Contents, rows: seq<string>, r: Reads)
    requires RowsOf(c, rows) && Tells(r.volumes, Unlines(rows))
    ensures VolumeReport(r.volumes.text) == "" <==> (r.volumes.ok ==> AllHealthy(c))
  {
    if r.volumes.ok {
      VolumesReportedIff(c.volumes, rows);
    } else {
      VolumesReportedIff([], []);
    }
  }

  /** The check of `on`, for any cluster and whichever calls fail: it is passed
      exactly when what could be read is in order. */
  lemma ReadyIff(c: Contents, rows: seq<string>, r: Reads)
    requires Prints(c, rows, r)
    ensures Decide(false, r) == Ready <==>
              && (r.volumes.ok ==> AllHealthy(c))
              && forall ns | ns in Fields(r.namespaces.text) :: r.accounts(ns).ok && r.pods(ns).ok ==> Provided(c, ns)
  {
    VolumesSeen(c, rows, r);
    FlaggedEmptyIff(c, r, Fields(r.namespaces.text));
    assert forall ns :: ProvidedAsSeen(c, r, ns) <==> (r.accounts(ns).ok && r.pods(ns).ok ==> Provided(c, ns));
  }

  /** A plain check, with set -e in force: everything it set out to read was read
      and is in order; but it sets out to read only the namespaces it was told. */
  lemma StrictlyReadyIff(c: Contents, rows: seq<string>, r: Reads)
    requires Prints(c, rows, r)
    ensures Decide(true, r) == Ready <==>
              && r.volumes.ok && AllHealthy(c)
              && forall ns | ns in Fields(r.namespaces.text) ::
                   r.accounts(ns).ok && (Federated(c.accounts(ns)) != [] ==> r.pods(ns).ok) && Provided(c, ns)
  {
    VolumesSeen(c, rows, r);
    var nss := Fields(r.namespaces.text);
    FlaggedEmptyIff(c, r, nss);
    forall ns | ns in nss
      ensures ReadsIn(r, ns) && ProvidedAsSeen(c, r, ns) <==>
              r.accounts(ns).ok && (Federated(c.accounts(ns)) != [] ==> r.pods(ns).ok) && Provided(c, ns)
    {
      FlaggedInSeen(c, r, ns);
    }
  }

  ghost predicate AllOk(c: Contents, r: Reads) {
    r.volumes.ok && r.namespaces.ok && forall ns | ns in c.namespaces :: r.accounts(ns).ok && r.pods(ns).ok
  }

  /** When every call succeeds, the listing of the namespaces included, Ready means fit. */
  lemma ReadyMeansFit(errexit: bool, c: Contents, rows: seq<string>, r: Reads)
    requires Prints(c, rows, r) && AllOk(c, r)
    ensures Decide(errexit, r) == Ready <==> Fit(c)
  {
    ReadyIff(c, rows, r);
    StrictlyReadyIff(c, rows, r);
  }

  /** Nothing read is nothing wrong, whatever the cluster: `on` goes ahead where a plain check stops. */
  lemma UnreadPassesOn(c: Contents, rows: seq<string>, r: Reads)
    requires Prints(c, rows, r) && !r.volumes.ok && !r.namespaces.ok
    ensures Decide(false, r) == Ready && Decide(true, r) == Aborted
  {
    ReadyIff(c, rows, r);
  }

  /** In particular past an attached volume that is not healthy. */
  lemma UnhealthyVolumePassesOn(v: Volume, row: string) returns (c: Contents, r: Reads)
    requires !Healthy(v) && PrintsVolume(v, row)
    ensures c.volumes == [v] && Prints(c, [row], r) && r.namespaces.ok
    ensures Decide(false, r) == Ready && !Fit(c)
  {
    c := Contents([v], [], ns => [], ns => []);
    r := Reads(Read("", false), Read("", true), ns => Read("", true), ns => Read("", true));
    assert c.volumes[0] == v;
    ReadyIff(c, [row], r);
  }

  /** With healthy volumes and a failed listing of the namespaces, even a plain
      check says that every federated pod has credentials, whatever the pods. */
  lemma UnlistedNamespacesPass(errexit: bool, c: Contents, rows: seq<string>, r: Reads)
    requires Prints(c, rows, r) && r.volumes.ok && AllHealthy(c) && !r.namespaces.ok
    ensures Decide(errexit, r) == Ready
  {
    ReadyIff(c, rows, r);
    StrictlyReadyIff(c, rows, r);
  }

  /** For instance past a pod without credentials. */
  lemma UnequippedPodPasses(ns: string, account: string, arn: string, pod: string) returns (c: Contents, r: Reads)
    requires Word(account) && Word(arn) && Word(pod) && account != ROLE_ARN
    ensures c.namespaces == [ns] && c.pods(ns) == [Pod(pod, account, [])] && c.accounts(ns) == [Account(account, Some(arn))]
    ensures Prints(c, [], r) && Decide(true, r) == Ready && !Fit(c)
  {
    var x, p := Account(account, Some(arn)), Pod(pod, account, []);
    c := Contents([], [ns], n => [x], n => [p]);
    r := Reads(Read("", true), Read("", false),
               n => Read(Unlines(AccountLines([x])), true), n => Read(Unlines(PodLines([p])), true));
    assert Federated([x]) == [account] + Federated([]);
    assert p in c.pods(ns) && p.account in Federated(c.accounts(ns)) && !Equipped(p);
    assert ns in c.namespaces && !Provided(c, ns);
    UnlistedNamespacesPass(true, c, [], r);
  }
}
