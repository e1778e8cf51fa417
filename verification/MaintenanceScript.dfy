/** The script in its own form: the list it expands, and the two loops that
    issue kubectl calls against a cluster that changes under them. Each loop is
    proved to be a run of the transition system. */
module MaintenanceScript {
  import opened Text
  import opened Maintenance
  import opened MaintenanceOrder
  import opened Checks

  // ---------------------------------------------------------------- targets

  /** An element of SHED: one object, or every deployment and statefulset of a namespace. */
  datatype Entry = One(ns: string, kind: string, name: string) | Namespace(ns: string)

  const SHED: seq<Entry> := [
    One("argocd", "statefulset", "argocd-application-controller"),
    Namespace("argocd"),
    Namespace("eightbitsaxlounge-dev"),
    Namespace("eightbitsaxlounge-prod"),
    Namespace("composer-dev"),
    Namespace("dash"),
    Namespace("findings"),
    One("falco", "deployment", "falco-falcosidekick"),
    One("monitoring", "deployment", "monitoring-grafana")
  ]

  /** What `kubectl get -o name` printed for a namespace, and whether it succeeded. */
  datatype Listing = Listing(lines: seq<string>, ok: bool)

  predicate AppsAt(s: string, i: nat) {
    i + 6 <= |s| && s[i] == '.' && s[i + 1] == 'a' && s[i + 2] == 'p' && s[i + 3] == 'p' && s[i + 4] == 's' && s[i + 5] == '/'
  }

  /** sed 's|\.apps/|/|': the first ".apps/" becomes "/". */
  function DropApps(s: string): string {
    if s == "" then ""
    else if AppsAt(s, 0) then "/" + s[6..]
    else [s[0]] + DropApps(s[1..])
  }

  lemma {:induction false} DropAppsOfName(head: string, name: string)
    requires '.' !in head
    ensures DropApps(head + ".apps/" + name) == head + "/" + name
  {
    var s := head + ".apps/" + name;
    if head == "" {
      assert s[6..] == name;
    } else {
      DropAppsOfName(head[1..], name);
      assert s[0] == head[0] && head[0] in head;
      assert s[1..] == head[1..] + ".apps/" + name;
      assert head + "/" + name == [head[0]] + (head[1..] + "/" + name);
    }
  }

  function ListedAs(ns: string, lines: seq<string>): (r: seq<Obj>)
    ensures forall o :: o in r <==> exists l :: l in lines && o == DropApps(ns + " " + l)
  {
    if lines == [] then [] else [DropApps(ns + " " + lines[0])] + ListedAs(ns, lines[1..])
  }

  /** What the loop over SHED writes into the pipe. A failed listing ends it
      (set -e), but nobody looks at its exit status. */
  function Expand(shed: seq<Entry>, list: string -> Listing): seq<Obj> {
    if shed == [] then []
    else match shed[0]
         case One(ns, kind, name) => [ns + " " + kind + "/" + name] + Expand(shed[1..], list)
         case Namespace(ns) =>
           ListedAs(ns, list(ns).lines) + if list(ns).ok then Expand(shed[1..], list) else []
  }

  /** awk '!seen[$0]++' */
  method Dedupe(ls: seq<Obj>) returns (r: seq<Obj>)
    ensures forall o :: o in r <==> o in ls
    ensures forall i, j | 0 <= i < j < |r| :: r[i] != r[j]
    ensures ls != [] ==> r != [] && r[0] == ls[0]
    ensures forall i, j | 0 <= i < j < |r| :: IndexIn(ls, r[i]) < IndexIn(ls, r[j])
  {
    var seen: set<Obj> := {};
    r := [];
    for k := 0 to |ls|
      invariant Deduped(ls, k, r) && forall o :: o in seen <==> o in r
    {
      DedupeStep(ls, k, r);
      if ls[k] !in seen {
        r := r + [ls[k]];
        seen := seen + {ls[k]};
      }
    }
    assert ls[..|ls|] == ls;
  }

  /** `r` holds the first k lines, each where it first occurs. */
  ghost predicate Deduped(ls: seq<Obj>, k: nat, r: seq<Obj>) {
    && k <= |ls| && (forall o :: o in r <==> o in ls[..k])
    && (k > 0 ==> r != [] && r[0] == ls[0])
    && (forall i | 0 <= i < |r| :: IndexIn(ls, r[i]) < k)
    && (forall i, j | 0 <= i < j < |r| :: IndexIn(ls, r[i]) < IndexIn(ls, r[j]))
  }

  lemma DedupeStep(ls: seq<Obj>, k: nat, r: seq<Obj>)
    requires k < |ls| && Deduped(ls, k, r)
    ensures Deduped(ls, k + 1, if ls[k] in r then r else r + [ls[k]])
  {
    PrefixMembers(ls, k);
    if ls[k] !in r {
      SnocMembers(r, ls[k]);
    }
  }

  lemma SnocMembers(r: seq<Obj>, x: Obj)
    ensures forall o :: o in r + [x] <==> o in r || o == x
  {
  }

  lemma PrefixMembers(ls: seq<Obj>, k: nat)
    requires k < |ls|
    ensures forall o :: o in ls[..k + 1] <==> o in ls[..k] || o == ls[k]
  {
    assert ls[..k + 1] == ls[..k] + [ls[k]];
  }

  /** Where `o` first occurs. */
  function IndexIn(ls: seq<Obj>, o: Obj): (n: nat)
    ensures n <= |ls| && forall i | 0 <= i < n :: ls[i] != o
    ensures n < |ls| ==> ls[n] == o
  {
    if ls == [] || ls[0] == o then 0 else 1 + IndexIn(ls[1..], o)
  }

  /** The controller is first and listed once, although its namespace lists it again. */
  method Targets(list: string -> Listing) returns (ts: seq<Obj>)
    ensures ControllerFirst(ts)
    ensures forall i, j | 0 <= i < j < |ts| :: ts[i] != ts[j]
    ensures forall o :: o in ts <==> o in Expand(SHED, list)
  {
    var raw := Expand(SHED, list);
    assert raw[0] == SHED[0].ns + " " + SHED[0].kind + "/" + SHED[0].name == CONTROLLER;
    ts := Dedupe(raw);
  }

  predicate ListsAll(shed: seq<Entry>, list: string -> Listing) {
    forall e | e in shed && e.Namespace? :: list(e.ns).ok
  }

  ghost predicate Named(shed: seq<Entry>, list: string -> Listing, o: Obj) {
    exists e | e in shed :: NamedBy(e, list, o)
  }

  /** When every listing succeeds, the list is everything SHED names. */
  lemma {:induction false} ExpandComplete(shed: seq<Entry>, list: string -> Listing, o: Obj)
    ensures ListsAll(shed, list) ==> (o in Expand(shed, list) <==> Named(shed, list, o))
    ensures o in Expand(shed, list) ==> Named(shed, list, o)
  {
    if shed != [] {
      ExpandComplete(shed[1..], list, o);
      NamedByOneMore(shed, list, o);
      assert ListsAll(shed, list) <==> ListsAll(shed[1..], list) && (shed[0].Namespace? ==> list(shed[0].ns).ok) by {
        assert forall e :: e in shed <==> e == shed[0] || e in shed[1..];
      }
    }
  }

  /** One failed listing, of the first namespace, leaves only the controller. */
  lemma FailedListingCutsList(list: string -> Listing)
    requires list("argocd") == Listing([], false)
    ensures Expand(SHED, list) == [CONTROLLER]
  {
    assert SHED[1..][0] == Namespace("argocd");
    assert SHED[0].ns + " " + SHED[0].kind + "/" + SHED[0].name == CONTROLLER;
    assert Expand(SHED[1..], list) == [];
  }

  ghost predicate NamedBy(e: Entry, list: string -> Listing, o: Obj) {
    match e
    case One(ns, kind, name) => o == ns + " " + kind + "/" + name
    case Namespace(ns) => o in ListedAs(ns, list(ns).lines)
  }

  lemma NamedByOneMore(shed: seq<Entry>, list: string -> Listing, o: Obj)
    requires shed != []
    ensures Named(shed, list, o) <==> NamedBy(shed[0], list, o) || Named(shed[1..], list, o)
  {
    assert forall e :: e in shed <==> e == shed[0] || e in shed[1..];
  }

  /** A listed object appears under the line that names it directly, so it is not shed twice. */
  lemma ListedLineIsDirectLine(ns: string, kind: string, name: string)
    requires '.' !in ns && '.' !in kind
    ensures DropApps(ns + " " + (kind + ".apps/" + name)) == ns + " " + kind + "/" + name
  {
    DropAppsOfName(ns + " " + kind, name);
    assert ns + " " + (kind + ".apps/" + name) == (ns + " " + kind) + ".apps/" + name;
  }

  // ---------------------------------------------------------------- the two loops

  class Kubectl {
    const git: map<Obj, nat>
    var replicas: map<Obj, Option<nat>>
    var recorded: map<Obj, nat>

    constructor (git: map<Obj, nat>, c: Cluster)
      ensures this.git == git && View() == c
    {
      this.git, replicas, recorded := git, c.replicas, c.recorded;
    }

    function View(): Cluster
      reads this
    {
      Cluster(replicas, recorded)
    }

    /** Argo CD, between two kubectl calls: any number of self-heals. */
    method Meanwhile(ghost start: State, ghost es0: seq<Event>, ghost s0: State) returns (ghost es: seq<Event>, ghost s: State)
      requires Follows(git, start, es0, s0) && s0.c == View()
      modifies this
      ensures Follows(git, start, es, s) && s == State(View(), s0.proc) && es0 <= es
      ensures recorded == old(recorded) && replicas.Keys == old(replicas.Keys)
    {
      es, s := es0, s0;
      var n: nat :| n >= 0;
      for i := 0 to n
        invariant Follows(git, start, es, s) && s == State(View(), s0.proc) && es0 <= es
        invariant recorded == old(recorded) && replicas.Keys == old(replicas.Keys)
      {
        var o: Obj := *;
        es, s := Did(git, start, es, s, Heal(o));
        if CONTROLLER in replicas && Live(View(), CONTROLLER) > 0 && o in git && o in replicas {
          replicas := replicas[o := Some(git[o])];
        }
      }
    }

    /** Between two calls: self-heals, and perhaps the end of the script. */
    method Between(ghost start: State, ghost es0: seq<Event>, ghost s0: State)
      returns (alive: bool, ghost es: seq<Event>, ghost s: State)
      requires Follows(git, start, es0, s0) && s0.c == View()
      modifies this
      ensures es0 <= es && recorded == old(recorded) && replicas.Keys == old(replicas.Keys)
      ensures if alive then Follows(git, start, es, s) && s == State(View(), s0.proc) else Ends(git, start, es, s, View())
    {
      es, s := Meanwhile(start, es0, s0);
      alive := *;
      if !alive {
        es, s := Died(git, start, es, s);
      }
    }

    /** One object of `on`: skip it if annotated, else record its count and scale
        it to 0. The read of the annotation stands in a test, so its failure does
        not end the script: the object counts as not annotated. */
    method ShedOne(ts: seq<Obj>, i: nat, ghost start: State, ghost es0: seq<Event>, ghost s0: State)
      returns (alive: bool, ghost es: seq<Event>, ghost s: State)
      requires i < |ts| && Follows(git, start, es0, s0) && s0 == State(View(), OnAt(ts, i))
      modifies this
      ensures es0 <= es && s == Run(git, start, es)
      ensures if alive then Quiet(es) && s == State(View(), OnAt(ts, i + 1)) else Ends(git, start, es, s, View())
    {
      alive, es, s := Between(start, es0, s0);
      if !alive {
        return;
      }
      if ts[i] !in replicas {
        es, s := Died(git, start, es, s);
        return false, es, s;
      }
      var misread: bool := *;
      if ts[i] in recorded && !misread {
        es, s := Did(git, start, es, s, Advance);
        return true, es, s;
      }
      es, s := Did(git, start, es, s, if misread then Misread else Advance);
      var current := Live(View(), ts[i]);
      alive, es, s := RecordAndScale(ts, i, current, start, es, s);
    }

    method RecordAndScale(ts: seq<Obj>, i: nat, current: nat, ghost start: State, ghost es0: seq<Event>, ghost s0: State)
      returns (alive: bool, ghost es: seq<Event>, ghost s: State)
      requires i < |ts| && ts[i] in replicas
      requires Follows(git, start, es0, s0) && s0 == State(View(), OnRead(ts, i, current))
      modifies this
      ensures es0 <= es && s == Run(git, start, es)
      ensures if alive then Quiet(es) && s == State(View(), OnAt(ts, i + 1)) else Ends(git, start, es, s, View())
    {
      alive, es, s := Between(start, es0, s0);
      if !alive {
        return;
      }
      if Refuses(View(), ts[i], current) {
        es, s := Died(git, start, es, s);
        return false, es, s;
      }
      recorded := recorded[ts[i] := current];
      es, s := Did(git, start, es, s, Advance);
      alive, es, s := ScaleDown(ts, i, start, es, s);
    }

    method ScaleDown(ts: seq<Obj>, i: nat, ghost start: State, ghost es0: seq<Event>, ghost s0: State)
      returns (alive: bool, ghost es: seq<Event>, ghost s: State)
      requires i < |ts| && ts[i] in replicas
      requires Follows(git, start, es0, s0) && s0 == State(View(), OnAnnotated(ts, i))
      modifies this
      ensures es0 <= es && s == Run(git, start, es)
      ensures if alive then Quiet(es) && s == State(View(), OnAt(ts, i + 1)) else Ends(git, start, es, s, View())
    {
      alive, es, s := Between(start, es0, s0);
      if !alive {
        return;
      }
      replicas := replicas[ts[i] := Some(0)];
      es, s := Did(git, start, es, s, Advance);
      alive := true;
    }

    /** `on` once the health check has passed. Any call may fail or be the last
        one before the script is killed, and set -e ends it either way. */
    method On(ts: seq<Obj>) returns (completed: bool, ghost es: seq<Event>)
      modifies this
      ensures es != [] && es[0] == StartOn(ts) && OneScriptRun(es)
      ensures Run(git, State(old(View()), Idle), es) == State(View(), if completed then OnDone(ts) else Idle)
    {
      ghost var start, s := State(View(), Idle), State(View(), Idle);
      es, s := Started(git, start, StartOn(ts));
      for i := 0 to |ts|
        invariant Follows(git, start, es, s) && s == State(View(), OnAt(ts, i)) && es[0] == StartOn(ts)
      {
        completed, es, s := ShedOne(ts, i, start, es, s);
        if !completed {
          return;
        }
      }
      es, s := Did(git, start, es, s, Advance);
      completed := true;
    }

    /** One object of `off`; the controller's count is only noted. */
    method RestoreOne(ts: seq<Obj>, i: nat, held: Option<nat>, ghost start: State, ghost es0: seq<Event>, ghost s0: State)
      returns (alive: bool, controller: Option<nat>, ghost es: seq<Event>, ghost s: State)
      requires i < |ts| && Follows(git, start, es0, s0) && s0 == State(View(), OffAt(ts, i, held))
      modifies this
      ensures es0 <= es && s == Run(git, start, es)
      ensures if alive then Quiet(es) && s == State(View(), OffAt(ts, i + 1, controller)) else Ends(git, start, es, s, View())
    {
      controller := held;
      alive, es, s := Between(start, es0, s0);
      if !alive {
        return;
      }
      if ts[i] !in replicas {
        es, s := Died(git, start, es, s);
        return false, controller, es, s;
      }
      if ts[i] !in recorded || ts[i] == CONTROLLER {
        if ts[i] in recorded {
          controller := Some(recorded[ts[i]]);
        }
        es, s := Did(git, start, es, s, Advance);
        return true, controller, es, s;
      }
      replicas := replicas[ts[i] := Some(recorded[ts[i]])];
      es, s := Did(git, start, es, s, Advance);
      alive, es, s := Forget(ts, i, controller, start, es, s);
    }

    method Forget(ts: seq<Obj>, i: nat, held: Option<nat>, ghost start: State, ghost es0: seq<Event>, ghost s0: State)
      returns (alive: bool, ghost es: seq<Event>, ghost s: State)
      requires i < |ts| && Follows(git, start, es0, s0) && s0 == State(View(), OffScaled(ts, i, held))
      modifies this
      ensures es0 <= es && s == Run(git, start, es)
      ensures if alive then Quiet(es) && s == State(View(), OffAt(ts, i + 1, held)) else Ends(git, start, es, s, View())
    {
      alive, es, s := Between(start, es0, s0);
      if !alive {
        return;
      }
      recorded := recorded - {ts[i]};
      es, s := Did(git, start, es, s, Advance);
      alive := true;
    }

    /** `off`: everything but the controller, then the controller. */
    method Off(ts: seq<Obj>) returns (completed: bool, ghost es: seq<Event>)
      modifies this
      ensures es != [] && es[0] == StartOff(ts) && OneScriptRun(es)
      ensures Run(git, State(old(View()), Idle), es) == State(View(), if completed then OffDone(ts) else Idle)
    {
      ghost var start, s := State(View(), Idle), State(View(), Idle);
      es, s := Started(git, start, StartOff(ts));
      var controller: Option<nat> := None;
      for i := 0 to |ts|
        invariant Follows(git, start, es, s) && s == State(View(), OffAt(ts, i, controller)) && es[0] == StartOff(ts)
      {
        completed, controller, es, s := RestoreOne(ts, i, controller, start, es, s);
        if !completed {
          return;
        }
      }
      es, s := Did(git, start, es, s, Advance);
      completed := true;
      if controller.Some? {
        completed, es := OffController(ts, controller.value, start, es, s);
      }
    }

    /** The end of `off`: the controller's own count and annotation. */
    method OffController(ts: seq<Obj>, count: nat, ghost start: State, ghost es0: seq<Event>, ghost s0: State)
      returns (alive: bool, ghost es: seq<Event>)
      requires Follows(git, start, es0, s0) && s0 == State(View(), OffLast(ts, count))
      modifies this
      ensures es0 <= es && OneScriptRun(es)
      ensures Run(git, start, es) == State(View(), if alive then OffDone(ts) else Idle)
    {
      ghost var s := s0;
      alive, es, s := Between(start, es0, s);
      if !alive {
        return;
      }
      if CONTROLLER !in replicas {
        es, s := Died(git, start, es, s);
        return false, es;
      }
      replicas := replicas[CONTROLLER := Some(count)];
      es, s := Did(git, start, es, s, Advance);
      alive, es := ForgetController(ts, start, es, s);
    }

    method ForgetController(ts: seq<Obj>, ghost start: State, ghost es0: seq<Event>, ghost s0: State)
      returns (alive: bool, ghost es: seq<Event>)
      requires Follows(git, start, es0, s0) && s0 == State(View(), OffLastScaled(ts))
      modifies this
      ensures es0 <= es && OneScriptRun(es)
      ensures Run(git, start, es) == State(View(), if alive then OffDone(ts) else Idle)
    {
      ghost var s := s0;
      alive, es, s := Between(start, es0, s);
      if !alive {
        return;
      }
      recorded := recorded - {CONTROLLER};
      es, s := Did(git, start, es, s, Advance);
      alive := true;
    }

    /** One invocation of the script. `on` dies before it touches anything unless
        its check passes. */
    method Invoke(cmd: Command) returns (completed: bool, ghost es: seq<Event>)
      modifies this
      ensures cmd.On? && Decide(false, cmd.seen) != Ready ==> !completed && es == []
      ensures es != [] ==> OneScriptRun(es) && es[0] == if cmd.On? then StartOn(cmd.ts) else StartOff(cmd.ts)
      ensures completed ==> es != []
      ensures Run(git, State(old(View()), Idle), es)
              == State(View(), if !completed then Idle else if cmd.On? then OnDone(cmd.ts) else OffDone(cmd.ts))
    {
      match cmd {
        case On(ts, seen) =>
          var verdict := Check(false, seen);
          if verdict != Ready {
            return false, [];
          }
          completed, es := On(ts);
        case Off(ts) =>
          completed, es := Off(ts);
      }
    }

    /** Any sequence of invocations, in any order, each killed anywhere or not at
        all: every count is conserved. If the last one is an `off` that completes,
        it is the run `es` after `history`, and the cluster is whole exactly when
        its list named what was annotated when it began; naming all that was ever
        on the list of an `on` is enough. */
    method Maintain(cmds: seq<Command>, ghost orig: map<Obj, nat>)
      returns (completed: bool, ghost history: seq<Event>, ghost es: seq<Event>)
      requires Whole(orig, View()) && GitAgrees(git, orig)
      modifies this
      ensures forall o | o in orig :: o in replicas && Intended(View(), o) == orig[o]
      ensures completed && EndsOff(cmds) ==> var start := State(old(View()), Idle);
                && es != [] && es[0] == StartOff(cmds[|cmds| - 1].ts) && OneScriptRun(es)
                && Run(git, start, history + es) == State(View(), OffDone(cmds[|cmds| - 1].ts))
                && (Whole(orig, View()) <==> NamesShed(cmds[|cmds| - 1].ts, Run(git, start, history).c))
      ensures completed && EndsOff(cmds) && NamesListed(cmds[|cmds| - 1].ts, cmds) ==> Whole(orig, View())
    {
      ghost var start := State(View(), Idle);
      ghost var s := start;
      history, es := [], [];
      completed := true;
      for k := 0 to |cmds|
        invariant s == Run(git, start, history + es) && s.c == View() && AtRest(s.proc)
        invariant AtRest(Run(git, start, history).proc) && Listed(cmds[..k], history + es)
        invariant k > 0 && completed && cmds[k - 1].Off? ==> CompletedOff(git, start, history, es, cmds[k - 1].ts)
      {
        history := history + es;
        completed, es := Invoke(cmds[k]);
        s := RunOn(git, start, history, es);
        ListedOneMore(cmds, k, history, es);
      }
      assert cmds[..|cmds|] == cmds;
      CountsAreConserved(git, orig, start, history + es);
      if completed && EndsOff(cmds) {
        PutBackIff(git, orig, start, history, es, cmds[|cmds| - 1].ts);
        ShedWasListed(git, orig, start, history, es, cmds);
      }
    }
  }

  /** `seen` is what the check before `on` gets to see. */
  datatype Command = On(ts: seq<Obj>, seen: Reads) | Off(ts: seq<Obj>)

  ghost predicate Quiet(es: seq<Event>) {
    es != [] && forall k | 1 <= k < |es| :: es[k].Advance? || es[k].Heal? || es[k].Misread?
  }

  /** One start, then steps and self-heals; killed at the end at most. */
  ghost predicate OneScriptRun(es: seq<Event>) {
    forall k | 1 <= k < |es| :: es[k].Advance? || es[k].Heal? || es[k].Misread? || (es[k].Kill? && k == |es| - 1)
  }

  /** `s` is where the events so far lead, and the script has not been killed. */
  ghost predicate Follows(git: map<Obj, nat>, start: State, es: seq<Event>, s: State) {
    s == Run(git, start, es) && Quiet(es)
  }

  /** The script died with the cluster at `c`. */
  ghost predicate Ends(git: map<Obj, nat>, start: State, es: seq<Event>, s: State, c: Cluster) {
    OneScriptRun(es) && s == Run(git, start, es) == State(c, Idle)
  }

  lemma Started(git: map<Obj, nat>, start: State, e: Event) returns (es: seq<Event>, s: State)
    ensures Follows(git, start, es, s) && es == [e] && s == Step(git, start, e)
  {
    es, s := [e], Step(git, start, e);
    assert es[..0] == [];
  }

  lemma Did(git: map<Obj, nat>, start: State, es0: seq<Event>, s0: State, e: Event) returns (es: seq<Event>, s: State)
    requires Follows(git, start, es0, s0) && (e.Advance? || e.Heal? || e.Misread?)
    ensures Follows(git, start, es, s) && es == es0 + [e] && s == Step(git, s0, e)
  {
    Unroll(git, start, es0, e);
    es, s := es0 + [e], Step(git, s0, e);
  }

  lemma Died(git: map<Obj, nat>, start: State, es0: seq<Event>, s0: State) returns (es: seq<Event>, s: State)
    requires Follows(git, start, es0, s0)
    ensures OneScriptRun(es) && es0 <= es && s == Run(git, start, es) == State(s0.c, Idle)
  {
    Unroll(git, start, es0, Kill);
    es, s := es0 + [Kill], State(s0.c, Idle);
  }

  predicate EndsOff(cmds: seq<Command>) {
    cmds != [] && cmds[|cmds| - 1].Off?
  }

  /** The list names everything on the list of some `on`. */
  ghost predicate NamesListed(ts: seq<Obj>, cmds: seq<Command>) {
    forall c, o | c in cmds && c.On? && o in c.ts :: o in ts
  }

  /** Every `on` of the run is one of these commands. */
  ghost predicate Listed(cmds: seq<Command>, es: seq<Event>) {
    forall e | e in es && e.StartOn? :: exists c | c in cmds :: c.On? && c.ts == e.ts
  }

  ghost predicate CompletedOff(git: map<Obj, nat>, start: State, history: seq<Event>, es: seq<Event>, ts: seq<Obj>) {
    es != [] && es[0] == StartOff(ts) && OneScriptRun(es) && Run(git, start, history + es).proc == OffDone(ts)
  }

  lemma ListedOneMore(cmds: seq<Command>, k: nat, history: seq<Event>, es: seq<Event>)
    requires k < |cmds| && Listed(cmds[..k], history)
    requires es != [] ==> OneScriptRun(es) && es[0] == if cmds[k].On? then StartOn(cmds[k].ts) else StartOff(cmds[k].ts)
    ensures Listed(cmds[..k + 1], history + es)
  {
    assert cmds[..k + 1] == cmds[..k] + [cmds[k]];
    forall e | e in history + es && e.StartOn? ensures exists c | c in cmds[..k + 1] :: c.On? && c.ts == e.ts {
      if e in history {
        var c :| c in cmds[..k] && c.On? && c.ts == e.ts;
        assert c in cmds[..k + 1];
      } else {
        var i :| 0 <= i < |es| && es[i] == e;
        assert i == 0 && cmds[k] in cmds[..k + 1];
      }
    }
  }

  /** What the rest of a script run that has completed consists of. */
  lemma RestIsUninterrupted(git: map<Obj, nat>, s: State, es: seq<Event>)
    requires es != [] && OneScriptRun(es) && Run(git, s, es).proc != Idle
    ensures Uninterrupted(es[1..]) && NoLingering(es[1..])
  {
    assert es[|es| - 1] == Kill ==> Run(git, s, es).proc == Idle;
    forall e | e in es[1..] ensures e.Advance? || e.Heal? || e.Misread? {
      var k :| 0 <= k < |es| - 1 && es[1..][k] == e;
      assert e == es[k + 1];
    }
  }

  lemma PutBackIff(git: map<Obj, nat>, orig: map<Obj, nat>, start: State, history: seq<Event>, es: seq<Event>, ts: seq<Obj>)
    requires Whole(orig, start.c) && start.proc == Idle && GitAgrees(git, orig)
    requires AtRest(Run(git, start, history).proc) && CompletedOff(git, start, history, es, ts)
    ensures Whole(orig, Run(git, start, history + es).c) <==> NamesShed(ts, Run(git, start, history).c)
  {
    var r := Run(git, start, history);
    RunAppend(git, start, history, es);
    RestIsUninterrupted(git, r, es);
    assert es == [StartOff(ts)] + es[1..];
    OffRestoresAllIff(git, orig, start, history, ts, es[1..]);
  }

  /** What is annotated, or about to be, was on the list of some `on`. */
  ghost predicate FromLists(s: State, es: seq<Event>) {
    && (forall o | o in s.c.recorded :: OnSomeList(o, es))
    && (s.proc.OnAt? || s.proc.OnRead? || s.proc.OnAnnotated? ==> StartOn(s.proc.ts) in es)
  }

  ghost predicate OnSomeList(o: Obj, es: seq<Event>) {
    exists e :: e in es && e.StartOn? && o in e.ts
  }

  lemma {:induction false} AnnotatedIsListed(git: map<Obj, nat>, s: State, es: seq<Event>)
    requires s.c.recorded == map[] && s.proc == Idle
    ensures FromLists(Run(git, s, es), es)
  {
    if es != [] {
      var k := |es| - 1;
      AnnotatedIsListed(git, s, es[..k]);
      FrontLast(es);
      StepFromLists(git, Run(git, s, es[..k]), es[..k], es[k]);
      assert es[..k] + [es[k]] == es;
    }
  }

  lemma StepFromLists(git: map<Obj, nat>, s: State, es: seq<Event>, e: Event)
    requires FromLists(s, es)
    ensures FromLists(Step(git, s, e), es + [e])
  {
    var t := Step(git, s, e);
    forall o | o in t.c.recorded ensures OnSomeList(o, es + [e]) {
      if o in s.c.recorded {
        var f :| f in es && f.StartOn? && o in f.ts;
        assert f in es + [e];
      } else {
        assert StartOn(s.proc.ts) in es + [e] && o in s.proc.ts;
      }
    }
    assert forall f | f in es :: f in es + [e];
  }

  lemma ShedWasListed(git: map<Obj, nat>, orig: map<Obj, nat>, start: State, history: seq<Event>, es: seq<Event>, cmds: seq<Command>)
    requires Whole(orig, start.c) && start.proc == Idle && Listed(cmds, history + es)
    ensures cmds != [] && NamesListed(cmds[|cmds| - 1].ts, cmds) ==> NamesShed(cmds[|cmds| - 1].ts, Run(git, start, history).c)
  {
    AnnotatedIsListed(git, start, history);
    forall o | o in Run(git, start, history).c.recorded
      ensures cmds != [] && NamesListed(cmds[|cmds| - 1].ts, cmds) ==> o in cmds[|cmds| - 1].ts
    {
      var e :| e in history && e.StartOn? && o in e.ts;
      assert e in history + es;
    }
  }

  lemma RunOn(git: map<Obj, nat>, start: State, before: seq<Event>, es: seq<Event>) returns (s: State)
    requires AtRest(Run(git, start, before).proc) && (es != [] ==> es[0].StartOn? || es[0].StartOff?)
    ensures s == Run(git, start, before + es)
    ensures var r := Run(git, start, before);
            s == if es == [] then r else Run(git, State(r.c, Idle), es)
  {
    s := Run(git, start, before + es);
    RunAppend(git, start, before, es);
    if es != [] {
      RestIsIdle(git, Run(git, start, before), es);
    }
  }

  /** What `On` promises of a completed call is what the theorem about completed
      `on` runs asks for: after any history, with nothing listed half shed and
      nothing exposed, the call leaves the whole list at 0. */
  lemma CompletedOnSheds(git: map<Obj, nat>, orig: map<Obj, nat>, s: State, history: seq<Event>, ts: seq<Obj>, es: seq<Event>)
    requires Whole(orig, s.c) && s.proc == Idle && GitAgrees(git, orig) && ControllerFirst(ts)
    requires es != [] && es[0] == StartOn(ts) && OneScriptRun(es)
    requires var r := Run(git, s, history);
             && AtRest(r.proc) && Run(git, State(r.c, Idle), es).proc == OnDone(ts)
             && (forall o | o in ts :: !HalfShed(r.c, o)) && !Exposed(git, ts, r.c)
    ensures forall o | o in ts :: Down(Run(git, State(Run(git, s, history).c, Idle), es).c, o)
  {
    var r, rest := Run(git, s, history), es[1..];
    assert es == [StartOn(ts)] + rest;
    RestIsIdle(git, r, es);
    RestIsUninterrupted(git, r, es);
    CountsAreConserved(git, orig, s, history);
    StartRun(git, r, ts, rest);
    ShedsAll(git, orig, r, ts, rest);
  }

  /** A run that begins with a start does the same from any state of rest. */
  lemma {:induction false} RestIsIdle(git: map<Obj, nat>, r: State, es: seq<Event>)
    requires AtRest(r.proc) && es != [] && (es[0].StartOn? || es[0].StartOff?)
    ensures Run(git, r, es) == Run(git, State(r.c, Idle), es)
  {
    if |es| == 1 {
      assert es[..0] == [];
    } else {
      RestIsIdle(git, r, es[..|es| - 1]);
    }
  }
}
