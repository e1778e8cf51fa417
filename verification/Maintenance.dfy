/** ops/node-maintenance.sh as a transition system. One step is one kubectl
    call that changes the cluster, or one read the script acts on later. Between
    any two steps the script can die, and Argo CD can set a workload back to the
    count in git. A run is any sequence of events, so a theorem about `Run`
    covers every interruption and every order of `on` and `off`. */
module Maintenance {
  import opened Text

  /** A line of `targets`: "namespace kind/name". */
  type Obj = string

  const CONTROLLER: Obj := "argocd" + " " + "statefulset" + "/" + "argocd-application-controller"

  /** `replicas` is spec.replicas, None where it is unset. `recorded` is the
      maintenance annotation, present only for the objects in the map. */
  datatype Cluster = Cluster(replicas: map<Obj, Option<nat>>, recorded: map<Obj, nat>)

  /** `${current:-1}`: an unset count means one replica. */
  function Live(c: Cluster, o: Obj): nat
    requires o in c.replicas
  {
    match c.replicas[o]
    case Some(n) => n
    case None => 1
  }

  /** The count an object is meant to have: the recorded one if there is one, else the live one. */
  function Intended(c: Cluster, o: Obj): nat
    requires o in c.replicas
  {
    if o in c.recorded then c.recorded[o] else Live(c, o)
  }

  predicate Up(c: Cluster) {
    CONTROLLER in c.replicas && Live(c, CONTROLLER) > 0
  }

  /** Annotated, yet still running: what a script killed halfway through an object leaves. */
  predicate HalfShed(c: Cluster, o: Obj) {
    o in c.recorded && o in c.replicas && Live(c, o) > 0
  }

  function Scale(c: Cluster, o: Obj, n: nat): Cluster {
    c.(replicas := c.replicas[o := Some(n)])
  }

  function Annotate(c: Cluster, o: Obj, n: nat): Cluster {
    c.(recorded := c.recorded[o := n])
  }

  function Unannotate(c: Cluster, o: Obj): Cluster {
    c.(recorded := c.recorded - {o})
  }

  /** kubectl annotate without --overwrite: it refuses to change an annotation that is there. */
  predicate Refuses(c: Cluster, o: Obj, n: nat) {
    o in c.recorded && c.recorded[o] != n
  }

  /** Where the script is. `ts` is the list it was given, `i` the object it is at,
      `held` the controller's count that `off` keeps for the end. */
  datatype Proc =
    | Idle
    | OnAt(ts: seq<Obj>, i: nat)
    | OnRead(ts: seq<Obj>, i: nat, current: nat)
    | OnAnnotated(ts: seq<Obj>, i: nat)
    | OnDone(ts: seq<Obj>)
    | OffAt(ts: seq<Obj>, i: nat, held: Option<nat>)
    | OffScaled(ts: seq<Obj>, i: nat, held: Option<nat>)
    | OffLast(ts: seq<Obj>, count: nat)
    | OffLastScaled(ts: seq<Obj>)
    | OffDone(ts: seq<Obj>)

  datatype State = State(c: Cluster, proc: Proc)

  datatype Event =
    | StartOn(ts: seq<Obj>)
    | StartOff(ts: seq<Obj>)
    | Advance
    | Misread         // the read of the annotation fails, which the test takes for no annotation
    | Kill
    | Heal(o: Obj)    // the controller is up and syncs `o` to git
    | Linger(o: Obj)  // its pod syncs `o` although it has been scaled to 0

  function AdvanceOn(s: State): State
    requires s.proc.OnAt? || s.proc.OnRead? || s.proc.OnAnnotated?
  {
    var (c, ts, i) := (s.c, s.proc.ts, s.proc.i);
    if i >= |ts| then State(c, OnDone(ts))
    else if ts[i] !in c.replicas then State(c, Idle)  // kubectl fails, and set -e ends the script
    else
      match s.proc
      case OnAt(_, _) => State(c, if ts[i] in c.recorded then OnAt(ts, i + 1) else OnRead(ts, i, Live(c, ts[i])))
      case OnRead(_, _, n) => if Refuses(c, ts[i], n) then State(c, Idle) else State(Annotate(c, ts[i], n), OnAnnotated(ts, i))
      case OnAnnotated(_, _) => State(Scale(c, ts[i], 0), OnAt(ts, i + 1))
  }

  function AdvanceOff(s: State): State
    requires s.proc.OffAt? || s.proc.OffScaled? || s.proc.OffLast? || s.proc.OffLastScaled?
  {
    var (c, ts) := (s.c, s.proc.ts);
    match s.proc
    case OffAt(_, i, held) =>
      if i >= |ts| then State(c, if held.Some? then OffLast(ts, held.value) else OffDone(ts))
      else if ts[i] !in c.replicas then State(c, Idle)
      else if ts[i] !in c.recorded then State(c, OffAt(ts, i + 1, held))
      else if ts[i] == CONTROLLER then State(c, OffAt(ts, i + 1, Some(c.recorded[CONTROLLER])))
      else State(Scale(c, ts[i], c.recorded[ts[i]]), OffScaled(ts, i, held))
    case OffScaled(_, i, held) =>
      if i >= |ts| then s else State(Unannotate(c, ts[i]), OffAt(ts, i + 1, held))
    case OffLast(_, n) =>
      if CONTROLLER !in c.replicas then State(c, Idle)
      else State(Scale(c, CONTROLLER, n), OffLastScaled(ts))
    case OffLastScaled(_) => State(Unannotate(c, CONTROLLER), OffDone(ts))
  }

  predicate AtRest(p: Proc) {
    p.Idle? || p.OnDone? || p.OffDone?
  }

  function Sync(git: map<Obj, nat>, c: Cluster, o: Obj): Cluster {
    if o in git && o in c.replicas then Scale(c, o, git[o]) else c
  }

  function Step(git: map<Obj, nat>, s: State, e: Event): State {
    match e
    case StartOn(ts) => if AtRest(s.proc) then s.(proc := OnAt(ts, 0)) else s
    case StartOff(ts) => if AtRest(s.proc) then s.(proc := OffAt(ts, 0, None)) else s
    case Misread =>
      if !s.proc.OnAt? || s.proc.i >= |s.proc.ts| then s
      else if s.proc.ts[s.proc.i] !in s.c.replicas then s.(proc := Idle)
      else s.(proc := OnRead(s.proc.ts, s.proc.i, Live(s.c, s.proc.ts[s.proc.i])))
    case Kill => s.(proc := Idle)
    case Heal(o) => if Up(s.c) then s.(c := Sync(git, s.c, o)) else s
    case Linger(o) => s.(c := Sync(git, s.c, o))
    case Advance =>
      if AtRest(s.proc) then s
      else if s.proc.OnAt? || s.proc.OnRead? || s.proc.OnAnnotated? then AdvanceOn(s)
      else AdvanceOff(s)
  }

  function Run(git: map<Obj, nat>, s: State, es: seq<Event>): State {
    if es == [] then s else Step(git, Run(git, s, es[..|es| - 1]), es[|es| - 1])
  }

  lemma {:induction false} RunAppend(git: map<Obj, nat>, s: State, a: seq<Event>, b: seq<Event>)
    ensures Run(git, s, a + b) == Run(git, Run(git, s, a), b)
  {
    if b == [] {
      assert a + b == a;
    } else {
      RunAppend(git, s, a, b[..|b| - 1]);
      assert (a + b)[..|a + b| - 1] == a + b[..|b| - 1];
    }
  }

  // ---------------------------------------------------------------- conservation, call by call

  /** Nothing is annotated and every object has its original count. */
  ghost predicate Whole(orig: map<Obj, nat>, c: Cluster) {
    && c.replicas.Keys == orig.Keys
    && c.recorded == map[]
    && forall o | o in orig :: Live(c, o) == orig[o]
  }

  /** The counts git has are the original ones. Objects git says nothing about,
      like chat's replicas, are simply not in it. */
  ghost predicate GitAgrees(git: map<Obj, nat>, orig: map<Obj, nat>) {
    forall o | o in git && o in orig :: git[o] == orig[o]
  }

  ghost predicate Conserved(orig: map<Obj, nat>, s: State) {
    && s.c.replicas.Keys == orig.Keys
    && s.c.recorded.Keys <= orig.Keys
    && (forall o | o in orig :: Intended(s.c, o) == orig[o])
    && (forall o | o in orig :: Live(s.c, o) == orig[o] || (Live(s.c, o) == 0 && o in s.c.recorded))
    && match s.proc
       case OnRead(ts, i, n) => i < |ts| && ts[i] in orig && (ts[i] in s.c.recorded || n == orig[ts[i]])
       case OnAnnotated(ts, i) => i < |ts| && ts[i] in s.c.recorded
       case OffAt(ts, _, held) => held.Some? ==> CONTROLLER in s.c.recorded && held.value == orig[CONTROLLER]
       case OffScaled(ts, i, held) =>
         && i < |ts| && ts[i] in orig && Live(s.c, ts[i]) == orig[ts[i]] && ts[i] != CONTROLLER
         && (held.Some? ==> CONTROLLER in s.c.recorded && held.value == orig[CONTROLLER])
       case OffLast(_, n) => CONTROLLER in s.c.recorded && n == orig[CONTROLLER]
       case OffLastScaled(_) => CONTROLLER in orig && Live(s.c, CONTROLLER) == orig[CONTROLLER]
       case _ => true
  }

  lemma SyncConserves(git: map<Obj, nat>, orig: map<Obj, nat>, s: State, o: Obj)
    requires Conserved(orig, s) && GitAgrees(git, orig)
    ensures Conserved(orig, s.(c := Sync(git, s.c, o)))
  {
  }

  lemma OnConserves(orig: map<Obj, nat>, s: State)
    requires Conserved(orig, s) && (s.proc.OnAt? || s.proc.OnRead? || s.proc.OnAnnotated?)
    ensures Conserved(orig, AdvanceOn(s))
  {
  }

  lemma OffConserves(orig: map<Obj, nat>, s: State)
    requires Conserved(orig, s) && (s.proc.OffAt? || s.proc.OffScaled? || s.proc.OffLast? || s.proc.OffLastScaled?)
    ensures Conserved(orig, AdvanceOff(s))
  {
  }

  lemma StepConserves(git: map<Obj, nat>, orig: map<Obj, nat>, s: State, e: Event)
    requires Conserved(orig, s) && GitAgrees(git, orig)
    ensures Conserved(orig, Step(git, s, e))
  {
    match e
    case Heal(o) => SyncConserves(git, orig, s, o);
    case Linger(o) => SyncConserves(git, orig, s, o);
    case Advance =>
      if s.proc.OnAt? || s.proc.OnRead? || s.proc.OnAnnotated? {
        OnConserves(orig, s);
      } else if !AtRest(s.proc) {
        OffConserves(orig, s);
      }
    case _ =>
  }

  /** Over every run, interrupted anywhere and healed at any time, even by a
      controller pod that outlives its scale-down: the intended count of every
      object stays what it was. */
  lemma {:induction false} CountsAreConserved(git: map<Obj, nat>, orig: map<Obj, nat>, s: State, es: seq<Event>)
    requires Whole(orig, s.c) && s.proc == Idle && GitAgrees(git, orig)
    ensures Conserved(orig, Run(git, s, es))
    ensures forall o | o in orig ::
              o in Run(git, s, es).c.replicas && Intended(Run(git, s, es).c, o) == orig[o]
  {
    if es != [] {
      CountsAreConserved(git, orig, s, es[..|es| - 1]);
      StepConserves(git, orig, Run(git, s, es[..|es| - 1]), es[|es| - 1]);
    }
  }
}
