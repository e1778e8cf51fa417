/** What the order of the steps buys: what a completed `off` and a completed
    `on` leave behind, and when the controller being up means there is nothing
    for it to heal. */
module MaintenanceOrder {
  import opened Text
  import opened Maintenance

  ghost predicate ControllerFirst(ts: seq<Obj>) {
    ts != [] && ts[0] == CONTROLLER
  }

  /** The list names everything that is annotated. */
  ghost predicate NamesShed(ts: seq<Obj>, c: Cluster) {
    forall o | o in c.recorded :: o in ts
  }

  /** `targets` puts the controller first; and the list of an `off` names
      everything that is annotated when it starts, which it does unless a listing failed. */
  ghost predicate GoodStart(s: State, e: Event) {
    && (e.StartOn? ==> ControllerFirst(e.ts))
    && (e.StartOff? && AtRest(s.proc) ==> NamesShed(e.ts, s.c))
  }

  ghost predicate GoodLists(git: map<Obj, nat>, s: State, es: seq<Event>) {
    forall k | 0 <= k < |es| :: GoodStart(Run(git, s, es[..k]), es[k])
  }

  /** The controller's pod is gone once it is scaled to 0. The script does not wait for that. */
  ghost predicate NoLingering(es: seq<Event>) {
    forall e | e in es :: !e.Linger?
  }

  // ---------------------------------------------------------------- what `off` has done so far

  ghost predicate Restored(c: Cluster, ts: seq<Obj>, i: nat, held: bool) {
    forall j | 0 <= j < i && j < |ts| :: ts[j] !in c.recorded || (ts[j] == CONTROLLER && held)
  }

  ghost predicate OffProgress(s: State) {
    match s.proc
    case OffAt(ts, i, held) => Restored(s.c, ts, i, held.Some?)
    case OffScaled(ts, i, held) => Restored(s.c, ts, i, held.Some?)
    case OffLast(ts, _) => Restored(s.c, ts, |ts|, true)
    case OffLastScaled(ts) => Restored(s.c, ts, |ts|, true)
    case OffDone(ts) => Restored(s.c, ts, |ts|, false)
    case _ => true
  }

  lemma StepKeepsOffProgress(git: map<Obj, nat>, orig: map<Obj, nat>, s: State, e: Event)
    requires Conserved(orig, s) && OffProgress(s)
    ensures OffProgress(Step(git, s, e))
  {
  }

  lemma {:induction false} RunKeepsOffProgress(git: map<Obj, nat>, orig: map<Obj, nat>, s: State, es: seq<Event>)
    requires Whole(orig, s.c) && s.proc == Idle && GitAgrees(git, orig)
    ensures OffProgress(Run(git, s, es))
  {
    if es != [] {
      RunKeepsOffProgress(git, orig, s, es[..|es| - 1]);
      CountsAreConserved(git, orig, s, es[..|es| - 1]);
      StepKeepsOffProgress(git, orig, Run(git, s, es[..|es| - 1]), es[|es| - 1]);
    }
  }

  /** Whatever happened before, and whatever Argo CD does meanwhile: when an
      `off` completes, every object on its list has its original count and no
      annotation. */
  lemma OffRestores(git: map<Obj, nat>, orig: map<Obj, nat>, s: State, es: seq<Event>)
    requires Whole(orig, s.c) && s.proc == Idle && GitAgrees(git, orig)
    requires Run(git, s, es).proc.OffDone?
    ensures var c := Run(git, s, es).c;
            && c.replicas.Keys == orig.Keys
            && forall o | o in Run(git, s, es).proc.ts && o in orig :: o !in c.recorded && Live(c, o) == orig[o]
  {
    CountsAreConserved(git, orig, s, es);
    RunKeepsOffProgress(git, orig, s, es);
  }

  /** In kubectl's terms: a set count comes back as it was; one that was unset is
      unset still, or one replica, which is what unset means. */
  lemma OffRestoresCounts(git: map<Obj, nat>, orig: map<Obj, nat>, s: State, es: seq<Event>, o: Obj)
    requires Whole(orig, s.c) && s.proc == Idle && GitAgrees(git, orig)
    requires Run(git, s, es).proc.OffDone? && o in Run(git, s, es).proc.ts && o in orig
    ensures var c := Run(git, s, es).c;
            && o in c.replicas && o in s.c.replicas
            && match s.c.replicas[o]
               case Some(n) => n != 1 ==> c.replicas[o] == Some(n)
               case None => c.replicas[o] == None || c.replicas[o] == Some(1)
  {
    OffRestores(git, orig, s, es);
  }

  ghost predicate Uninterrupted(es: seq<Event>) {
    forall e | e in es :: e.Advance? || e.Heal? || e.Linger? || e.Misread?
  }

  ghost predicate OffWith(p: Proc, ts: seq<Obj>) {
    match p
    case OffAt(us, _, held) => us == ts && (held.Some? ==> CONTROLLER in ts)
    case OffScaled(us, i, held) => us == ts && i < |ts| && (held.Some? ==> CONTROLLER in ts)
    case OffLast(us, _) => us == ts && CONTROLLER in ts
    case OffLastScaled(us) => us == ts && CONTROLLER in ts
    case OffDone(us) => us == ts
    case Idle => true
    case _ => false
  }

  lemma {:induction false} OffTouchesOnly(git: map<Obj, nat>, s: State, ts: seq<Obj>, es: seq<Event>)
    requires AtRest(s.proc) && Uninterrupted(es)
    ensures var t := Run(git, s.(proc := OffAt(ts, 0, None)), es);
            OffWith(t.proc, ts) && forall o | o !in ts :: o in t.c.recorded <==> o in s.c.recorded
  {
    if es != [] {
      var before := es[..|es| - 1];
      assert es[|es| - 1] in es && forall e | e in before :: e in es;
      OffTouchesOnly(git, s, ts, before);
    }
  }

  /** After any history, an `off` that completes leaves the cluster as it
      originally was exactly when its list named every annotated object. A
      namespace that `targets` failed to list is the case where it does not. */
  lemma OffRestoresAllIff(git: map<Obj, nat>, orig: map<Obj, nat>, s: State, history: seq<Event>, ts: seq<Obj>, es: seq<Event>)
    requires Whole(orig, s.c) && s.proc == Idle && GitAgrees(git, orig) && Uninterrupted(es)
    requires var r := Run(git, s, history);
             AtRest(r.proc) && Run(git, r, [StartOff(ts)] + es).proc == OffDone(ts)
    ensures var r := Run(git, s, history);
            Whole(orig, Run(git, r, [StartOff(ts)] + es).c) <==> NamesShed(ts, r.c)
  {
    var r := Run(git, s, history);
    var all := history + ([StartOff(ts)] + es);
    RunAppend(git, s, history, [StartOff(ts)] + es);
    RunAppend(git, r, [StartOff(ts)], es);
    assert [StartOff(ts)][..0] == [];
    assert Run(git, r, [StartOff(ts)]) == r.(proc := OffAt(ts, 0, None));
    OffTouchesOnly(git, r, ts, es);
    CountsAreConserved(git, orig, s, all);
    CountsAreConserved(git, orig, s, history);
    OffRestores(git, orig, s, all);
    var t := Run(git, s, all);
    assert forall o | o in t.c.recorded :: o in orig && o !in ts;
    if NamesShed(ts, r.c) {
      assert t.c.recorded.Keys == {};
      assert t.c.recorded == map[];
    }
  }

  // ---------------------------------------------------------------- controller first, controller last

  /** The controller is unannotated only while nothing is. */
  ghost predicate Sequenced(s: State) {
    && (CONTROLLER !in s.c.recorded ==> s.c.recorded == map[])
    && match s.proc
       case OnAt(ts, i) => ControllerFirst(ts) && (i > 0 ==> CONTROLLER in s.c.recorded)
       case OnRead(ts, i, _) => ControllerFirst(ts) && (i > 0 ==> CONTROLLER in s.c.recorded)
       case OnAnnotated(ts, i) => ControllerFirst(ts) && CONTROLLER in s.c.recorded
       case OnDone(ts) => CONTROLLER in s.c.recorded
       case OffAt(ts, _, _) => NamesShed(ts, s.c)
       case OffScaled(ts, _, _) => NamesShed(ts, s.c)
       case OffLast(ts, _) => NamesShed(ts, s.c)
       case OffLastScaled(ts) => NamesShed(ts, s.c)
       case _ => true
  }

  ghost predicate Sound(orig: map<Obj, nat>, s: State) {
    Conserved(orig, s) && OffProgress(s) && Sequenced(s)
  }

  lemma StepKeepsSequenced(git: map<Obj, nat>, orig: map<Obj, nat>, s: State, e: Event)
    requires Sound(orig, s) && GoodStart(s, e)
    ensures Sequenced(Step(git, s, e))
  {
    if e.Advance? && s.proc.OffLastScaled? {
      assert forall o | o in s.c.recorded :: o in s.proc.ts && o == CONTROLLER;
      assert s.c.recorded.Keys - {CONTROLLER} == {};
    }
  }

  /** What is asked of every event of a run is asked of all but the last, and of the last. */
  lemma AllButLast(git: map<Obj, nat>, s: State, es: seq<Event>)
    requires es != []
    ensures var k := |es| - 1;
            && (GoodLists(git, s, es) ==> GoodLists(git, s, es[..k]) && GoodStart(Run(git, s, es[..k]), es[k]))
            && (KilledBetweenObjects(git, s, es) ==> KilledBetweenObjects(git, s, es[..k]))
            && (KilledBetweenObjects(git, s, es) && es[k] == Kill ==> BetweenObjects(Run(git, s, es[..k]).proc))
  {
    var before := es[..|es| - 1];
    assert forall i | 0 <= i < |before| :: before[..i] == es[..i];
  }

  lemma {:induction false} RunsAreSound(git: map<Obj, nat>, orig: map<Obj, nat>, s: State, es: seq<Event>)
    requires Whole(orig, s.c) && s.proc == Idle && GitAgrees(git, orig) && GoodLists(git, s, es)
    ensures Sound(orig, Run(git, s, es))
  {
    CountsAreConserved(git, orig, s, es);
    RunKeepsOffProgress(git, orig, s, es);
    if es != [] {
      var k := |es| - 1;
      var before := es[..k];
      AllButLast(git, s, es);
      RunsAreSound(git, orig, s, before);
      StepKeepsSequenced(git, orig, Run(git, s, before), es[k]);
    }
  }

  /** If the controller runs, it finds every other object as it originally was. */
  ghost predicate NothingToHeal(orig: map<Obj, nat>, c: Cluster) {
    Up(c) ==> forall o | o in orig && o != CONTROLLER :: o in c.replicas && o !in c.recorded && Live(c, o) == orig[o]
  }

  /** At the granularity of single kubectl calls, interrupted anywhere: a
      controller that is up and not annotated means the whole cluster is in its
      original state. */
  lemma UnannotatedControllerMeansWhole(git: map<Obj, nat>, orig: map<Obj, nat>, s: State, es: seq<Event>)
    requires Whole(orig, s.c) && s.proc == Idle && GitAgrees(git, orig) && GoodLists(git, s, es)
    ensures var c := Run(git, s, es).c;
            Up(c) && !HalfShed(c, CONTROLLER) ==> Whole(orig, c)
  {
    RunsAreSound(git, orig, s, es);
  }

  /** Exactly when a completed `off` that restored the controller leaves it nothing
      to heal: when its list named everything that was annotated. The list is
      there to be looked at before the first call. */
  lemma OffLeavesNothingToHealIff(git: map<Obj, nat>, orig: map<Obj, nat>, s: State, history: seq<Event>, ts: seq<Obj>, es: seq<Event>)
    requires Whole(orig, s.c) && s.proc == Idle && GitAgrees(git, orig) && Uninterrupted(es)
    requires CONTROLLER in ts && CONTROLLER in orig && orig[CONTROLLER] > 0
    requires var r := Run(git, s, history);
             AtRest(r.proc) && Run(git, r, [StartOff(ts)] + es).proc == OffDone(ts)
    ensures NothingToHeal(orig, Run(git, Run(git, s, history), [StartOff(ts)] + es).c)
            <==> NamesShed(ts, Run(git, s, history).c)
  {
    var r := Run(git, s, history);
    var all := history + ([StartOff(ts)] + es);
    RunAppend(git, s, history, [StartOff(ts)] + es);
    OffRestoresAllIff(git, orig, s, history, ts, es);
    OffRestores(git, orig, s, all);
    CountsAreConserved(git, orig, s, history);
    if o :| o in r.c.recorded && o !in ts {
      RunAppend(git, r, [StartOff(ts)], es);
      assert [StartOff(ts)][..0] == [];
      OffTouchesOnly(git, r, ts, es);
    }
  }

  predicate BetweenObjects(p: Proc) {
    !p.OnAnnotated? && !p.OffScaled? && !p.OffLastScaled?
  }

  /** The script is never killed between the two calls that shed or restore one object. */
  ghost predicate KilledBetweenObjects(git: map<Obj, nat>, s: State, es: seq<Event>) {
    forall k | 0 <= k < |es| && es[k] == Kill :: BetweenObjects(Run(git, s, es[..k]).proc)
  }

  /** The controller is up and annotated only in the middle of its own shedding or restoring. */
  ghost predicate HalfShedInPassing(s: State) {
    HalfShed(s.c, CONTROLLER) ==>
      && s.c.recorded.Keys == {CONTROLLER}
      && ((s.proc.OnAnnotated? && s.proc.i == 0) || s.proc.OffLastScaled?)
  }

  lemma StepKeepsPassing(git: map<Obj, nat>, orig: map<Obj, nat>, s: State, e: Event)
    requires Sound(orig, s) && HalfShedInPassing(s) && GoodStart(s, e) && !e.Linger?
    requires e == Kill ==> BetweenObjects(s.proc)
    ensures HalfShedInPassing(Step(git, s, e))
  {
    if e.Advance? && s.proc.OffLast? {
      assert forall o | o in s.c.recorded :: o in s.proc.ts && o == CONTROLLER;
      assert s.c.recorded.Keys == {CONTROLLER};
    }
  }

  lemma {:induction false} RunKeepsPassing(git: map<Obj, nat>, orig: map<Obj, nat>, s: State, es: seq<Event>)
    requires Whole(orig, s.c) && s.proc == Idle && GitAgrees(git, orig) && GoodLists(git, s, es)
    requires NoLingering(es) && KilledBetweenObjects(git, s, es)
    ensures HalfShedInPassing(Run(git, s, es))
  {
    if es != [] {
      var k := |es| - 1;
      var before := es[..k];
      assert es[k] in es && forall e | e in before :: e in es;
      AllButLast(git, s, es);
      RunKeepsPassing(git, orig, s, before);
      RunsAreSound(git, orig, s, before);
      StepKeepsPassing(git, orig, Run(git, s, before), es[k]);
    }
  }

  /** With interruptions only between objects, the controller being up means, in
      every state of every run, that there is nothing to heal; so a self-heal
      never changes a count. */
  lemma ControllerUpMeansNothingToHeal(git: map<Obj, nat>, orig: map<Obj, nat>, s: State, es: seq<Event>, o: Obj)
    requires Whole(orig, s.c) && s.proc == Idle && GitAgrees(git, orig) && GoodLists(git, s, es)
    requires NoLingering(es) && KilledBetweenObjects(git, s, es)
    ensures var t := Run(git, s, es);
            && NothingToHeal(orig, t.c)
            && forall p | p in orig :: p in t.c.replicas && p in Step(git, t, Heal(o)).c.replicas
                                       && Live(Step(git, t, Heal(o)).c, p) == Live(t.c, p)
  {
    RunsAreSound(git, orig, s, es);
    RunKeepsPassing(git, orig, s, es);
    var t := Run(git, s, es);
    OrderMeansNothingToHeal(orig, t);
    HealIsNoOp(git, orig, t, o);
  }

  lemma HealIsNoOp(git: map<Obj, nat>, orig: map<Obj, nat>, t: State, o: Obj)
    requires Conserved(orig, t) && GitAgrees(git, orig) && NothingToHeal(orig, t.c)
    ensures forall p | p in orig :: p in t.c.replicas && p in Step(git, t, Heal(o)).c.replicas
                                    && Live(Step(git, t, Heal(o)).c, p) == Live(t.c, p)
  {
  }

  // ---------------------------------------------------------------- interrupted between two calls of one object

  /** An `on` that starts while the controller is annotated but up skips it and
      sheds the next object under its eyes; otherwise it never does. The
      condition is what `on` itself reads when it decides to skip. */
  lemma OnKeepsOrderIff(git: map<Obj, nat>, orig: map<Obj, nat>, s: State, history: seq<Event>, ts: seq<Obj>)
    requires Whole(orig, s.c) && s.proc == Idle && GitAgrees(git, orig)
    requires ControllerFirst(ts) && (forall o | o in ts :: o in orig)
    requires forall i, j | 0 <= i < j < |ts| :: ts[i] != ts[j]
    requires var r := Run(git, s, history); AtRest(r.proc) && NothingToHeal(orig, r.c)
    ensures var r := Run(git, s, history);
            (forall es | Uninterrupted(es) && NoLingering(es) :: NothingToHeal(orig, Run(git, r, [StartOn(ts)] + es).c))
            <==> !HalfShed(r.c, CONTROLLER) || |ts| == 1
  {
    var r := Run(git, s, history);
    CountsAreConserved(git, orig, s, history);
    if HalfShed(r.c, CONTROLLER) && |ts| > 1 {
      ShedsUnderItsEyes(git, orig, r, ts);
    } else {
      forall es | Uninterrupted(es) && NoLingering(es)
        ensures NothingToHeal(orig, Run(git, r, [StartOn(ts)] + es).c)
      {
        StartRun(git, r, ts, es);
        OnKeepsOrder(git, orig, r, ts, es);
      }
    }
  }

  lemma StartRun(git: map<Obj, nat>, r: State, ts: seq<Obj>, es: seq<Event>)
    requires AtRest(r.proc)
    ensures Run(git, r, [StartOn(ts)] + es) == Run(git, r.(proc := OnAt(ts, 0)), es)
  {
    RunAppend(git, r, [StartOn(ts)], es);
    assert [StartOn(ts)][..0] == [];
  }

  lemma ShedsUnderItsEyes(git: map<Obj, nat>, orig: map<Obj, nat>, r: State, ts: seq<Obj>)
    requires Conserved(orig, r) && AtRest(r.proc) && NothingToHeal(orig, r.c) && HalfShed(r.c, CONTROLLER)
    requires ControllerFirst(ts) && |ts| > 1 && ts[1] != CONTROLLER && forall o | o in ts :: o in orig
    ensures exists es :: Uninterrupted(es) && NoLingering(es) && !NothingToHeal(orig, Run(git, r, [StartOn(ts)] + es).c)
  {
    assert ts[1] in ts;
    var a := r.(proc := OnAt(ts, 0));
    var b := Step(git, a, Advance);
    var c := Step(git, b, Advance);
    var d := Step(git, c, Advance);
    assert b.proc == OnAt(ts, 1) && c.proc == OnRead(ts, 1, Live(r.c, ts[1])) && ts[1] in d.c.recorded;
    var es := [Advance, Advance, Advance];
    ThreeSteps(git, a, Advance, Advance, Advance);
    assert Run(git, a, es) == d;
    StartRun(git, r, ts, es);
    assert !NothingToHeal(orig, d.c);
  }

  /** While `on` walks its list, the controller is up only before, or in the midst of, its own entry. */
  ghost predicate ShedsInOrder(ts: seq<Obj>, s: State) {
    && (Up(s.c) ==> s.c.recorded.Keys <= {CONTROLLER})
    && match s.proc
       case OnAt(us, i) => us == ts && (|ts| > 1 ==> if i > 0 then !Up(s.c) else !HalfShed(s.c, CONTROLLER))
       case OnRead(us, i, _) => us == ts && i < |ts| && (|ts| > 1 ==> if i > 0 then !Up(s.c) else !HalfShed(s.c, CONTROLLER))
       case OnAnnotated(us, i) => us == ts && i < |ts| && (|ts| > 1 && i > 0 ==> !Up(s.c))
       case OnDone(us) => us == ts
       case Idle => true
       case _ => false
  }

  lemma StepKeepsOrder(git: map<Obj, nat>, orig: map<Obj, nat>, ts: seq<Obj>, s: State, e: Event)
    requires Conserved(orig, s) && ShedsInOrder(ts, s) && ControllerFirst(ts) && (e.Advance? || e.Heal? || e.Misread?)
    ensures ShedsInOrder(ts, Step(git, s, e))
  {
  }

  lemma OrderMeansNothingToHeal(orig: map<Obj, nat>, s: State)
    requires Conserved(orig, s)
    ensures NothingToHeal(orig, s.c) <==> (Up(s.c) ==> s.c.recorded.Keys <= {CONTROLLER})
  {
  }

  lemma {:induction false} OnKeepsOrder(git: map<Obj, nat>, orig: map<Obj, nat>, r: State, ts: seq<Obj>, es: seq<Event>)
    requires Conserved(orig, r) && AtRest(r.proc) && GitAgrees(git, orig) && NothingToHeal(orig, r.c)
    requires ControllerFirst(ts) && (!HalfShed(r.c, CONTROLLER) || |ts| == 1)
    requires Uninterrupted(es) && NoLingering(es)
    ensures var t := Run(git, r.(proc := OnAt(ts, 0)), es);
            Conserved(orig, t) && ShedsInOrder(ts, t) && NothingToHeal(orig, t.c)
  {
    if es == [] {
      OrderMeansNothingToHeal(orig, r);
    } else {
      var k := |es| - 1;
      assert es[k] in es && forall e | e in es[..k] :: e in es;
      OnKeepsOrder(git, orig, r, ts, es[..k]);
      var t := Run(git, r.(proc := OnAt(ts, 0)), es[..k]);
      StepConserves(git, orig, t, es[k]);
      StepKeepsOrder(git, orig, ts, t, es[k]);
      OrderMeansNothingToHeal(orig, Step(git, t, es[k]));
    }
  }

  /** The defect in the concrete, for any workload `g` that git wants at 1:
      killed between annotating the controller and scaling it, then run again,
      the script sheds `g` while the controller runs, and the controller puts
      `g` back although the second run completes. */
  lemma InterruptedControllerUndoesShedding(g: Obj)
    requires g != CONTROLLER
    ensures var ts, git := [CONTROLLER, g], map[g := 1];
            var s := State(Cluster(map[CONTROLLER := Some(1), g := Some(1)], map[]), Idle);
            var first := [StartOn(ts), Advance, Advance, Kill];
            var second := [StartOn(ts), Advance, Advance, Advance, Advance, Advance, Heal(g)];
            var t := Run(git, Run(git, s, first), second);
            t.proc == OnDone(ts) && HalfShed(t.c, g) && Live(t.c, g) == 1
  {
    var ts, git := [CONTROLLER, g], map[g := 1];
    FirstRun(g, git, ts);
    SecondRun(g, git, ts);
  }

  lemma FirstRun(g: Obj, git: map<Obj, nat>, ts: seq<Obj>)
    requires g != CONTROLLER && ts == [CONTROLLER, g]
    ensures var c := Cluster(map[CONTROLLER := Some(1), g := Some(1)], map[]);
            Run(git, State(c, Idle), [StartOn(ts), Advance, Advance, Kill])
            == State(Annotate(c, CONTROLLER, 1), Idle)
  {
    var s := State(Cluster(map[CONTROLLER := Some(1), g := Some(1)], map[]), Idle);
    ThreeSteps(git, s, StartOn(ts), Advance, Advance);
    Unroll(git, s, [StartOn(ts), Advance, Advance], Kill);
    assert [StartOn(ts), Advance, Advance] + [Kill] == [StartOn(ts), Advance, Advance, Kill];
  }

  lemma SecondRun(g: Obj, git: map<Obj, nat>, ts: seq<Obj>)
    requires g != CONTROLLER && ts == [CONTROLLER, g] && git == map[g := 1]
    ensures var c := Annotate(Cluster(map[CONTROLLER := Some(1), g := Some(1)], map[]), CONTROLLER, 1);
            var t := Run(git, State(c, Idle), [StartOn(ts), Advance, Advance, Advance, Advance, Advance, Heal(g)]);
            t.proc == OnDone(ts) && HalfShed(t.c, g) && Live(t.c, g) == 1
  {
    var c := Annotate(Cluster(map[CONTROLLER := Some(1), g := Some(1)], map[]), CONTROLLER, 1);
    var s := State(c, Idle);
    var skip, shed := [StartOn(ts), Advance, Advance], [Advance, Advance, Advance];
    SkipsController(g, git, ts, c);
    RunAppend(git, s, skip, shed);
    ShedsNext(g, git, ts, c);
    HealsBack(g, git, ts, c);
    Unroll(git, s, skip + shed, Heal(g));
    assert skip + shed + [Heal(g)] == [StartOn(ts), Advance, Advance, Advance, Advance, Advance, Heal(g)];
  }

  lemma HealsBack(g: Obj, git: map<Obj, nat>, ts: seq<Obj>, c: Cluster)
    requires g != CONTROLLER && git == map[g := 1]
    requires c == Annotate(Cluster(map[CONTROLLER := Some(1), g := Some(1)], map[]), CONTROLLER, 1)
    ensures var t := Step(git, State(Scale(Annotate(c, g, 1), g, 0), OnDone(ts)), Heal(g));
            t.proc == OnDone(ts) && HalfShed(t.c, g) && Live(t.c, g) == 1
  {
  }

  lemma SkipsController(g: Obj, git: map<Obj, nat>, ts: seq<Obj>, c: Cluster)
    requires g != CONTROLLER && ts == [CONTROLLER, g]
    requires c == Annotate(Cluster(map[CONTROLLER := Some(1), g := Some(1)], map[]), CONTROLLER, 1)
    ensures Run(git, State(c, Idle), [StartOn(ts), Advance, Advance]) == State(c, OnRead(ts, 1, 1))
  {
    ThreeSteps(git, State(c, Idle), StartOn(ts), Advance, Advance);
  }

  lemma ShedsNext(g: Obj, git: map<Obj, nat>, ts: seq<Obj>, c: Cluster)
    requires g != CONTROLLER && ts == [CONTROLLER, g]
    requires c == Annotate(Cluster(map[CONTROLLER := Some(1), g := Some(1)], map[]), CONTROLLER, 1)
    ensures Run(git, State(c, OnRead(ts, 1, 1)), [Advance, Advance, Advance]) == State(Scale(Annotate(c, g, 1), g, 0), OnDone(ts))
  {
    ThreeSteps(git, State(c, OnRead(ts, 1, 1)), Advance, Advance, Advance);
  }

  /** Where the list of an `off` is cut short, with nothing killed: `on` sheds the
      controller and any `g`, `off` gets only the controller's line and completes,
      and the controller is back, unannotated, while `g` is still shed. */
  lemma CutListBreaksOrder(git: map<Obj, nat>, g: Obj)
    requires g != CONTROLLER
    ensures var ts, orig := [CONTROLLER, g], map[CONTROLLER := 1, g := 1];
            var s := State(Cluster(map[CONTROLLER := Some(1), g := Some(1)], map[]), Idle);
            var r := Run(git, s, [StartOn(ts), Advance, Advance, Advance, Advance, Advance, Advance, Advance]);
            var t := Run(git, r, [StartOff([CONTROLLER]), Advance, Advance, Advance, Advance]);
            && Whole(orig, s.c) && r.proc == OnDone(ts) && Down(r.c, CONTROLLER) && Down(r.c, g)
            && t.proc == OffDone([CONTROLLER]) && Up(t.c) && CONTROLLER !in t.c.recorded && Down(t.c, g)
            && !NothingToHeal(orig, t.c)
  {
    var ts := [CONTROLLER, g];
    var up := Cluster(map[CONTROLLER := Some(1), g := Some(1)], map[]);
    ShedsBoth(git, g, ts, up);
    RestoresController(git, g, Cluster(map[CONTROLLER := Some(0), g := Some(0)], map[CONTROLLER := 1, g := 1]), ts);
  }

  lemma ShedsOne(git: map<Obj, nat>, c: Cluster, ts: seq<Obj>, i: nat, d: Cluster)
    requires i < |ts| && ts[i] in c.replicas && ts[i] !in c.recorded
    requires d == Scale(Annotate(c, ts[i], Live(c, ts[i])), ts[i], 0)
    ensures Run(git, State(c, OnAt(ts, i)), [Advance, Advance, Advance]) == State(d, OnAt(ts, i + 1))
  {
    ThreeSteps(git, State(c, OnAt(ts, i)), Advance, Advance, Advance);
  }

  lemma ShedsBoth(git: map<Obj, nat>, g: Obj, ts: seq<Obj>, c: Cluster)
    requires g != CONTROLLER && ts == [CONTROLLER, g] && c == Cluster(map[CONTROLLER := Some(1), g := Some(1)], map[])
    ensures Run(git, State(c, Idle), [StartOn(ts), Advance, Advance, Advance, Advance, Advance, Advance, Advance])
            == State(Cluster(map[CONTROLLER := Some(0), g := Some(0)], map[CONTROLLER := 1, g := 1]), OnDone(ts))
  {
    var first := Cluster(map[CONTROLLER := Some(0), g := Some(1)], map[CONTROLLER := 1]);
    var second := Cluster(map[CONTROLLER := Some(0), g := Some(0)], map[CONTROLLER := 1, g := 1]);
    TwoClusters(g, c, first, second);
    ShedsOne(git, c, ts, 0, first);
    ShedsOne(git, first, ts, 1, second);
    ShedsTwo(git, c, first, second, ts);
  }

  lemma TwoClusters(g: Obj, c: Cluster, first: Cluster, second: Cluster)
    requires g != CONTROLLER && c == Cluster(map[CONTROLLER := Some(1), g := Some(1)], map[])
    requires first == Cluster(map[CONTROLLER := Some(0), g := Some(1)], map[CONTROLLER := 1])
    requires second == Cluster(map[CONTROLLER := Some(0), g := Some(0)], map[CONTROLLER := 1, g := 1])
    ensures Scale(Annotate(c, CONTROLLER, 1), CONTROLLER, 0) == first
    ensures Scale(Annotate(first, g, 1), g, 0) == second
  {
    assert c.replicas[CONTROLLER := Some(0)] == first.replicas && c.recorded[CONTROLLER := 1] == first.recorded;
    assert first.replicas[g := Some(0)] == second.replicas && first.recorded[g := 1] == second.recorded;
  }

  lemma ShedsTwo(git: map<Obj, nat>, c: Cluster, first: Cluster, second: Cluster, ts: seq<Obj>)
    requires |ts| == 2
    requires Run(git, State(c, OnAt(ts, 0)), [Advance, Advance, Advance]) == State(first, OnAt(ts, 1))
    requires Run(git, State(first, OnAt(ts, 1)), [Advance, Advance, Advance]) == State(second, OnAt(ts, 2))
    ensures Run(git, State(c, Idle), [StartOn(ts), Advance, Advance, Advance, Advance, Advance, Advance, Advance])
            == State(second, OnDone(ts))
  {
    var a, three := State(c, OnAt(ts, 0)), [Advance, Advance, Advance];
    RunAppend(git, a, three, three);
    Unroll(git, a, three + three, Advance);
    StartRun(git, State(c, Idle), ts, three + three + [Advance]);
    assert [StartOn(ts)] + (three + three + [Advance])
           == [StartOn(ts), Advance, Advance, Advance, Advance, Advance, Advance, Advance];
  }

  lemma RestoresController(git: map<Obj, nat>, g: Obj, c: Cluster, ts: seq<Obj>)
    requires g != CONTROLLER && c == Cluster(map[CONTROLLER := Some(0), g := Some(0)], map[CONTROLLER := 1, g := 1])
    ensures Run(git, State(c, OnDone(ts)), [StartOff([CONTROLLER]), Advance, Advance, Advance, Advance])
            == State(Cluster(map[CONTROLLER := Some(1), g := Some(0)], map[g := 1]), OffDone([CONTROLLER]))
  {
    OffController(git, State(c, OnDone(ts)));
    assert Scale(c, CONTROLLER, 1).replicas == map[CONTROLLER := Some(1), g := Some(0)];
    assert Unannotate(c, CONTROLLER).recorded == map[g := 1];
  }

  /** An `off` that was given the controller's line alone. */
  lemma OffController(git: map<Obj, nat>, s: State)
    requires AtRest(s.proc) && CONTROLLER in s.c.replicas && CONTROLLER in s.c.recorded
    ensures Run(git, s, [StartOff([CONTROLLER]), Advance, Advance, Advance, Advance])
            == State(Unannotate(Scale(s.c, CONTROLLER, s.c.recorded[CONTROLLER]), CONTROLLER), OffDone([CONTROLLER]))
  {
    ThreeSteps(git, s, StartOff([CONTROLLER]), Advance, Advance);
    var es := [StartOff([CONTROLLER]), Advance, Advance];
    assert Run(git, s, es) == State(s.c, OffLast([CONTROLLER], s.c.recorded[CONTROLLER]));
    Unroll(git, s, es, Advance);
    Unroll(git, s, es + [Advance], Advance);
    assert es + [Advance] + [Advance] == [StartOff([CONTROLLER]), Advance, Advance, Advance, Advance];
  }

  lemma Unroll(git: map<Obj, nat>, s: State, es: seq<Event>, e: Event)
    ensures Run(git, s, es + [e]) == Step(git, Run(git, s, es), e)
  {
    assert (es + [e])[..|es|] == es;
  }

  lemma ThreeSteps(git: map<Obj, nat>, s: State, a: Event, b: Event, c: Event)
    ensures Run(git, s, [a, b, c]) == Step(git, Step(git, Step(git, s, a), b), c)
  {
    assert Run(git, s, [a]) == Step(git, s, a) by {
      assert [a][..0] == [];
    }
    assert Run(git, s, [a, b]) == Step(git, Run(git, s, [a]), b) by {
      assert [a, b][..1] == [a];
    }
    assert [a, b, c][..2] == [a, b];
  }

  // ---------------------------------------------------------------- what a completed `on` leaves

  ghost predicate Down(c: Cluster, o: Obj) {
    o in c.recorded && o in c.replicas && Live(c, o) == 0
  }

  /** An unannotated controller runs and would bring back a listed object that
      is annotated: what an `off` over a list cut short leaves. */
  ghost predicate Exposed(git: map<Obj, nat>, ts: seq<Obj>, c: Cluster) {
    Up(c) && exists o | o in ts :: o != CONTROLLER && o in c.recorded && o in git && git[o] > 0
  }

  /** Everything before position i is down; nothing on the list is half shed but
      the object being worked on; past the first entry the controller is down. */
  ghost predicate Shedding(git: map<Obj, nat>, ts: seq<Obj>, s: State) {
    && !Exposed(git, ts, s.c)
    && match s.proc
       case OnAt(us, i) =>
         us == ts && (forall j | 0 <= j < i && j < |ts| :: Down(s.c, ts[j])) && (i > 0 ==> !Up(s.c))
         && forall o | o in ts :: !HalfShed(s.c, o)
       case OnRead(us, i, n) =>
         us == ts && i < |ts| && (forall j | 0 <= j < i :: Down(s.c, ts[j])) && (i > 0 ==> !Up(s.c))
         && (ts[i] in s.c.recorded ==> n == 0)
         && forall o | o in ts :: !HalfShed(s.c, o)
       case OnAnnotated(us, i) =>
         us == ts && i < |ts| && (forall j | 0 <= j < i :: Down(s.c, ts[j])) && (Up(s.c) ==> i == 0)
         && forall o | o in ts && o != ts[i] :: !HalfShed(s.c, o)
       case OnDone(us) => us == ts && !Up(s.c) && forall o | o in ts :: Down(s.c, o)
       case Idle => true
       case _ => false
  }

  lemma AdvanceSheds(git: map<Obj, nat>, orig: map<Obj, nat>, ts: seq<Obj>, s: State)
    requires Conserved(orig, s) && Shedding(git, ts, s) && ControllerFirst(ts)
    requires s.proc.OnAt? || s.proc.OnRead? || s.proc.OnAnnotated?
    ensures Shedding(git, ts, AdvanceOn(s))
  {
    assert CONTROLLER in ts;
    assert forall i | 0 <= i < |ts| :: ts[i] in ts;
  }

  lemma StepSheds(git: map<Obj, nat>, orig: map<Obj, nat>, ts: seq<Obj>, s: State, e: Event)
    requires Conserved(orig, s) && GitAgrees(git, orig) && Shedding(git, ts, s) && ControllerFirst(ts)
    requires e.Advance? || e.Heal? || e.Misread?
    ensures Shedding(git, ts, Step(git, s, e))
  {
    assert CONTROLLER in ts;
    assert forall i | 0 <= i < |ts| :: ts[i] in ts;
    if e.Advance? && !AtRest(s.proc) {
      AdvanceSheds(git, orig, ts, s);
    }
  }

  lemma {:induction false} ShedsAll(git: map<Obj, nat>, orig: map<Obj, nat>, r: State, ts: seq<Obj>, es: seq<Event>)
    requires Conserved(orig, r) && AtRest(r.proc) && GitAgrees(git, orig) && ControllerFirst(ts)
    requires Uninterrupted(es) && NoLingering(es) && !Exposed(git, ts, r.c) && forall o | o in ts :: !HalfShed(r.c, o)
    ensures var t := Run(git, r.(proc := OnAt(ts, 0)), es); Conserved(orig, t) && Shedding(git, ts, t)
  {
    if es != [] {
      var k := |es| - 1;
      assert es[k] in es && forall e | e in es[..k] :: e in es;
      ShedsAll(git, orig, r, ts, es[..k]);
      var t := Run(git, r.(proc := OnAt(ts, 0)), es[..k]);
      StepConserves(git, orig, t, es[k]);
      StepSheds(git, orig, ts, t, es[k]);
    }
  }

  ghost predicate NoMisread(es: seq<Event>) {
    forall e | e in es :: !e.Misread?
  }

  ghost predicate StaysUp(o: Obj, s: State) {
    && HalfShed(s.c, o)
    && (s.proc.OnRead? || s.proc.OnAnnotated? ==> s.proc.i < |s.proc.ts| && s.proc.ts[s.proc.i] != o)
    && (s.proc.OnAt? || s.proc.OnRead? || s.proc.OnAnnotated? || s.proc.OnDone? || s.proc.Idle?)
  }

  lemma {:induction false} HalfShedStaysUp(git: map<Obj, nat>, orig: map<Obj, nat>, r: State, ts: seq<Obj>, es: seq<Event>, o: Obj)
    requires Conserved(orig, r) && AtRest(r.proc) && GitAgrees(git, orig) && Uninterrupted(es)
    requires HalfShed(r.c, o) && NoMisread(es)
    ensures var t := Run(git, r.(proc := OnAt(ts, 0)), es); Conserved(orig, t) && StaysUp(o, t)
  {
    if es != [] {
      var k := |es| - 1;
      assert es[k] in es && forall e | e in es[..k] :: e in es;
      HalfShedStaysUp(git, orig, r, ts, es[..k], o);
      var t := Run(git, r.(proc := OnAt(ts, 0)), es[..k]);
      StepConserves(git, orig, t, es[k]);
      StepKeepsUp(git, orig, t, es[k], o);
    }
  }

  lemma StepKeepsUp(git: map<Obj, nat>, orig: map<Obj, nat>, s: State, e: Event, o: Obj)
    requires Conserved(orig, s) && GitAgrees(git, orig) && StaysUp(o, s)
    requires e.Advance? || e.Heal? || e.Linger?
    ensures StaysUp(o, Step(git, s, e))
  {
  }

  /** Left alone, `on` gets to the end of its list. */
  lemma {:induction false} OnCompletes(git: map<Obj, nat>, s: State, ts: seq<Obj>, i: nat) returns (es: seq<Event>)
    requires s.proc == OnAt(ts, i) && i <= |ts| && forall o | o in ts :: o in s.c.replicas
    ensures Run(git, s, es).proc == OnDone(ts) && forall e | e in es :: e == Advance
    decreases |ts| - i
  {
    if i == |ts| {
      es := [Advance];
      assert es[..0] == [];
    } else {
      es := OneObject(git, s, ts, i);
      var rest := OnCompletes(git, Run(git, s, es), ts, i + 1);
      RunAppend(git, s, es, rest);
      es := es + rest;
    }
  }

  lemma OneObject(git: map<Obj, nat>, s: State, ts: seq<Obj>, i: nat) returns (es: seq<Event>)
    requires s.proc == OnAt(ts, i) && i < |ts| && ts[i] in s.c.replicas
    ensures var t := Run(git, s, es); t.proc == OnAt(ts, i + 1) && t.c.replicas.Keys == s.c.replicas.Keys
    ensures forall e | e in es :: e == Advance
  {
    if ts[i] in s.c.recorded {
      es := [Advance];
      assert es[..0] == [];
    } else {
      es := [Advance, Advance, Advance];
      ShedsOne(git, s.c, ts, i, Scale(Annotate(s.c, ts[i], Live(s.c, ts[i])), ts[i], 0));
    }
  }

  lemma HalfShedIsMissed(git: map<Obj, nat>, orig: map<Obj, nat>, r: State, ts: seq<Obj>, o: Obj) returns (es: seq<Event>)
    requires Conserved(orig, r) && AtRest(r.proc) && GitAgrees(git, orig) && (forall p | p in ts :: p in orig)
    requires o in ts && HalfShed(r.c, o)
    ensures Uninterrupted(es) && NoLingering(es)
    ensures var t := Run(git, r.(proc := OnAt(ts, 0)), es); t.proc == OnDone(ts) && !Down(t.c, o)
  {
    es := OnCompletes(git, r.(proc := OnAt(ts, 0)), ts, 0);
    HalfShedStaysUp(git, orig, r, ts, es, o);
  }

  lemma ExposedIsHealed(git: map<Obj, nat>, orig: map<Obj, nat>, r: State, ts: seq<Obj>) returns (o: Obj, es: seq<Event>)
    requires Conserved(orig, r) && AtRest(r.proc) && GitAgrees(git, orig) && (forall p | p in ts :: p in orig)
    requires Exposed(git, ts, r.c)
    ensures Uninterrupted(es) && NoLingering(es) && o in ts
    ensures var t := Run(git, r.(proc := OnAt(ts, 0)), es); t.proc == OnDone(ts) && !Down(t.c, o)
  {
    o :| o in ts && o != CONTROLLER && o in r.c.recorded && o in git && git[o] > 0;
    var a := r.(proc := OnAt(ts, 0));
    var healed := Step(git, r, Heal(o));
    SyncConserves(git, orig, r, o);
    var rest := HalfShedIsMissed(git, orig, healed, ts, o);
    es := [Heal(o)] + rest;
    RunAppend(git, a, [Heal(o)], rest);
    assert [Heal(o)][..0] == [];
  }

  /** After any history: every `on` that completes has everything on its list at
      0, whatever self-heals come between its calls and whichever reads fail,
      exactly when at its start nothing on the list is annotated and still
      running, and no running controller would bring back an annotated one. */
  lemma OnShedsAllIff(git: map<Obj, nat>, orig: map<Obj, nat>, s: State, history: seq<Event>, ts: seq<Obj>)
    requires Whole(orig, s.c) && s.proc == Idle && GitAgrees(git, orig)
    requires ControllerFirst(ts) && (forall o | o in ts :: o in orig) && AtRest(Run(git, s, history).proc)
    ensures var r := Run(git, s, history);
            (forall es | Uninterrupted(es) && NoLingering(es) && Run(git, r, [StartOn(ts)] + es).proc == OnDone(ts) ::
               forall o | o in ts :: Down(Run(git, r, [StartOn(ts)] + es).c, o))
            <==> (forall o | o in ts :: !HalfShed(r.c, o)) && !Exposed(git, ts, r.c)
  {
    var r := Run(git, s, history);
    CountsAreConserved(git, orig, s, history);
    if o :| o in ts && HalfShed(r.c, o) {
      var es := HalfShedIsMissed(git, orig, r, ts, o);
      StartRun(git, r, ts, es);
    } else if Exposed(git, ts, r.c) {
      var o, es := ExposedIsHealed(git, orig, r, ts);
      StartRun(git, r, ts, es);
    } else {
      forall es | Uninterrupted(es) && NoLingering(es) && Run(git, r, [StartOn(ts)] + es).proc == OnDone(ts)
        ensures forall o | o in ts :: Down(Run(git, r, [StartOn(ts)] + es).c, o)
      {
        StartRun(git, r, ts, es);
        ShedsAll(git, orig, r, ts, es);
      }
    }
  }

  // ---------------------------------------------------------------- recovery

  /** Left alone, `off` gets to the end of its list. */
  lemma {:induction false} OffCompletes(git: map<Obj, nat>, s: State, ts: seq<Obj>, i: nat) returns (es: seq<Event>)
    requires s.proc.OffAt? && s.proc.ts == ts && s.proc.i == i && i <= |ts|
    requires (forall o | o in ts :: o in s.c.replicas) && (s.proc.held.Some? ==> CONTROLLER in s.c.replicas)
    ensures Run(git, s, es).proc == OffDone(ts) && forall e | e in es :: e == Advance
    decreases |ts| - i
  {
    if i == |ts| {
      if s.proc.held.None? {
        es := [Advance];
        assert es[..0] == [];
      } else {
        es := [Advance, Advance, Advance];
        ThreeSteps(git, s, Advance, Advance, Advance);
      }
    } else {
      es := RestoresOne(git, s, ts, i);
      var rest := OffCompletes(git, Run(git, s, es), ts, i + 1);
      RunAppend(git, s, es, rest);
      es := es + rest;
    }
  }

  lemma RestoresOne(git: map<Obj, nat>, s: State, ts: seq<Obj>, i: nat) returns (es: seq<Event>)
    requires s.proc.OffAt? && s.proc.ts == ts && s.proc.i == i && i < |ts| && ts[i] in s.c.replicas
    ensures var t := Run(git, s, es);
            && t.proc.OffAt? && t.proc.ts == ts && t.proc.i == i + 1 && t.c.replicas.Keys == s.c.replicas.Keys
            && (t.proc.held.Some? ==> s.proc.held.Some? || CONTROLLER in s.c.replicas)
    ensures forall e | e in es :: e == Advance
  {
    es := [Advance];
    assert es[..0] == [];
    if ts[i] in s.c.recorded && ts[i] != CONTROLLER {
      Unroll(git, s, [Advance], Advance);
      es := [Advance] + [Advance];
    }
  }

  /** Whatever happened before, there is a way back: an `off` whose list names what
      is annotated, left alone, completes and makes the cluster whole. */
  lemma OffRecovers(git: map<Obj, nat>, orig: map<Obj, nat>, s: State, history: seq<Event>, ts: seq<Obj>) returns (es: seq<Event>)
    requires Whole(orig, s.c) && s.proc == Idle && GitAgrees(git, orig) && forall o | o in ts :: o in orig
    requires AtRest(Run(git, s, history).proc) && NamesShed(ts, Run(git, s, history).c)
    ensures forall e | e in es :: e == Advance
    ensures var t := Run(git, Run(git, s, history), [StartOff(ts)] + es); t.proc == OffDone(ts) && Whole(orig, t.c)
  {
    var r := Run(git, s, history);
    CountsAreConserved(git, orig, s, history);
    es := OffCompletes(git, r.(proc := OffAt(ts, 0, None)), ts, 0);
    RunAppend(git, r, [StartOff(ts)], es);
    assert [StartOff(ts)][..0] == [];
    OffRestoresAllIff(git, orig, s, history, ts, es);
  }
}
