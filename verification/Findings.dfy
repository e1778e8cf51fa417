/** The metrics store as a value, its three operations, and the pollers that
    drive it concurrently. Every operation holds the store's mutex, so a run is
    an interleaving of whole operations. */
module Findings {
  import opened Text
  import opened Clock

  datatype Finding = Finding(severity: string, item: string, since: Time)

  datatype State = State(findings: seq<Finding>, up: bool, lastSuccess: Time, dataTime: Time)

  type Sources = map<string, State>

  datatype Op =
    | Set(name: string, findings: seq<Finding>, now: Time)
    | SetDataTime(name: string, at: Time)
    | Fail(name: string)

  const NEVER := State([], false, 0, 0)

  function Previous(v: Sources, n: string): State {
    if n in v then v[n] else NEVER
  }

  function Apply(v: Sources, op: Op): Sources {
    match op
    case Set(n, fs, now) => v[n := State(fs, true, now, Previous(v, n).dataTime)]
    case SetDataTime(n, at) => if n in v then v[n := v[n].(dataTime := at)] else v
    case Fail(n) => v[n := Previous(v, n).(up := false)]
  }

  function Fold(v: Sources, ops: seq<Op>): Sources {
    if ops == [] then v else Apply(Fold(v, ops[..|ops| - 1]), ops[|ops| - 1])
  }

  lemma {:induction false} FoldAppend(v: Sources, a: seq<Op>, b: seq<Op>)
    ensures Fold(v, a + b) == Fold(Fold(v, a), b)
  {
    if b == [] {
      assert a + b == a;
    } else {
      FoldAppend(v, a, b[..|b| - 1]);
      assert (a + b)[..|a + b| - 1] == a + b[..|b| - 1];
    }
  }

  // ---------------------------------------------------------------- one polling round

  /** What one call of `collect` came back with. `clock(i)` is the time read for
      the i-th name, `dataTimes` what dataTimes() listed, in map order. */
  datatype Outcome =
    | Failed
    | Collected(results: map<string, seq<Finding>>, clock: nat -> Time, dataTimes: seq<(string, Time)>)

  function Reported(o: Outcome, n: string): seq<Finding>
    requires o.Collected?
  {
    if n in o.results then o.results[n] else []
  }

  function FailOps(names: seq<string>): seq<Op> {
    if names == [] then [] else
      var k := |names| - 1;
      FailOps(names[..k]) + [Fail(names[k])]
  }

  function SetOps(names: seq<string>, o: Outcome): seq<Op>
    requires o.Collected?
  {
    if names == [] then [] else
      var k := |names| - 1;
      SetOps(names[..k], o) + [Set(names[k], Reported(o, names[k]), o.clock(k))]
  }

  function DataOps(times: seq<(string, Time)>): seq<Op> {
    if times == [] then [] else
      var k := |times| - 1;
      DataOps(times[..k]) + [SetDataTime(times[k].0, times[k].1)]
  }

  /** The store operations of one round of `poll`. */
  function RoundOps(names: seq<string>, o: Outcome): seq<Op> {
    match o
    case Failed => FailOps(names)
    case Collected(_, _, times) => SetOps(names, o) + DataOps(times)
  }

  function AllOps(names: seq<string>, history: seq<Outcome>): seq<Op> {
    if history == [] then [] else
      AllOps(names, history[..|history| - 1]) + RoundOps(names, history[|history| - 1])
  }

  // ---------------------------------------------------------------- what a poller alone leaves behind

  function LastSuccess(history: seq<Outcome>): (r: Option<nat>)
    ensures r.None? ==> forall i | 0 <= i < |history| :: history[i].Failed?
    ensures r.Some? ==> r.value < |history| && history[r.value].Collected?
    ensures r.Some? ==> forall i | r.value < i < |history| :: history[i].Failed?
  {
    if history == [] then None
    else if history[|history| - 1].Collected? then Some(|history| - 1)
    else LastSuccess(history[..|history| - 1])
  }

  function LastTime(times: seq<(string, Time)>, n: string): Option<Time> {
    if times == [] then None
    else if times[|times| - 1].0 == n then Some(times[|times| - 1].1)
    else LastTime(times[..|times| - 1], n)
  }

  /** The data time of the last round that reported one for `n`. */
  function LastDataTime(history: seq<Outcome>, n: string): Time {
    if history == [] then 0 else
      var o := history[|history| - 1];
      if o.Collected? && LastTime(o.dataTimes, n).Some? then LastTime(o.dataTimes, n).value
      else LastDataTime(history[..|history| - 1], n)
  }

  /** `t` is the clock reading that `set` got for `n` in this round. */
  ghost predicate ReadFor(names: seq<string>, o: Outcome, n: string, t: Time) {
    o.Collected? && exists i: nat :: i < |names| && names[i] == n && t == o.clock(i)
  }

  lemma {:induction false} AfterFails(v: Sources, names: seq<string>, n: string)
    ensures var w := Fold(v, FailOps(names));
            && (n in names ==> n in w && w[n] == Previous(v, n).(up := false))
            && (n !in names ==> (n in w <==> n in v) && (n in v ==> w[n] == v[n]))
  {
    if names != [] {
      var k := |names| - 1;
      AfterFails(v, names[..k], n);
      FoldAppend(v, FailOps(names[..k]), [Fail(names[k])]);
      assert names == names[..k] + [names[k]];
    }
  }

  lemma {:induction false} AfterSets(v: Sources, names: seq<string>, o: Outcome, n: string)
    requires o.Collected?
    ensures var w := Fold(v, SetOps(names, o));
            && (n in names ==>
                  && n in w && w[n].up && w[n].findings == Reported(o, n)
                  && w[n].dataTime == Previous(v, n).dataTime && ReadFor(names, o, n, w[n].lastSuccess))
            && (n !in names ==> (n in w <==> n in v) && (n in v ==> w[n] == v[n]))
  {
    if names != [] {
      var k := |names| - 1;
      AfterSets(v, names[..k], o, n);
      FoldAppend(v, SetOps(names[..k], o), [Set(names[k], Reported(o, names[k]), o.clock(k))]);
      assert names == names[..k] + [names[k]];
      var before := Fold(v, SetOps(names[..k], o));
      if names[k] != n && n in names {
        var i: nat :| i < k && names[..k][i] == n && before[n].lastSuccess == o.clock(i);
        assert names[i] == n;
      }
    }
  }

  lemma {:induction false} AfterData(v: Sources, times: seq<(string, Time)>, n: string)
    ensures var w := Fold(v, DataOps(times));
            && (n in w <==> n in v)
            && (n in v ==> w[n] == match LastTime(times, n)
                                   case Some(t) => v[n].(dataTime := t)
                                   case None => v[n])
  {
    if times != [] {
      var k := |times| - 1;
      AfterData(v, times[..k], n);
      FoldAppend(v, DataOps(times[..k]), [SetDataTime(times[k].0, times[k].1)]);
    }
  }

  /** After any number of complete rounds a source shows the findings and the
      time of its last success, is up exactly if the last round succeeded, and
      keeps the last data time ever reported for it. A source that has never
      succeeded has no findings and no success time, and is down. */
  lemma {:induction false} SoloState(names: seq<string>, history: seq<Outcome>, n: string)
    requires n in names && history != []
    ensures n in Fold(map[], AllOps(names, history))
    ensures var st := Fold(map[], AllOps(names, history))[n];
            && st.up == history[|history| - 1].Collected?
            && st.dataTime == LastDataTime(history, n)
            && match LastSuccess(history)
               case None => st.findings == [] && st.lastSuccess == 0
               case Some(k) => st.findings == Reported(history[k], n) && ReadFor(names, history[k], n, st.lastSuccess)
  {
    var k := |history| - 1;
    var o, before := history[k], Fold(map[], AllOps(names, history[..k]));
    FoldAppend(map[], AllOps(names, history[..k]), RoundOps(names, o));
    if k > 0 {
      SoloState(names, history[..k], n);
    }
    match o
    case Failed =>
      AfterFails(before, names, n);
    case Collected(_, _, times) =>
      FoldAppend(before, SetOps(names, o), DataOps(times));
      AfterSets(before, names, o, n);
      AfterData(Fold(before, SetOps(names, o)), times, n);
  }

  // ---------------------------------------------------------------- all pollers together

  /** A poller: the rounds it has begun, and the operations the current one still owes. */
  datatype Poller = Poller(history: seq<Outcome>, pending: seq<Op>)

  datatype System = System(store: Sources, pollers: map<nat, Poller>)

  /** `collect` of poller p returns, or poller p gets the mutex for its next operation. */
  datatype Event = Begin(p: nat, outcome: Outcome) | Next(p: nat)

  type Config = map<nat, seq<string>>

  function Step(cfg: Config, s: System, e: Event): System {
    if e.p !in cfg || e.p !in s.pollers then s else
      var w := s.pollers[e.p];
      match e
      case Begin(p, o) =>
        if w.pending != [] then s else
          s.(pollers := s.pollers[p := Poller(w.history + [o], RoundOps(cfg[p], o))])
      case Next(p) =>
        if w.pending == [] then s else
          System(Apply(s.store, w.pending[0]), s.pollers[p := w.(pending := w.pending[1..])])
  }

  function Run(cfg: Config, es: seq<Event>): System {
    if es == [] then System(map[], map p | p in cfg :: Poller([], []))
    else Step(cfg, Run(cfg, es[..|es| - 1]), es[|es| - 1])
  }

  ghost predicate DisjointNames(cfg: Config) {
    forall p, q, n | p in cfg && q in cfg && p != q :: !(n in cfg[p] && n in cfg[q])
  }

  /** No source reports a data time under a name it does not own. */
  ghost predicate OwnDataTimes(cfg: Config, es: seq<Event>) {
    forall e | e in es && e.Begin? && e.outcome.Collected? && e.p in cfg ::
      forall d | d in e.outcome.dataTimes :: d.0 in cfg[e.p]
  }

  ghost predicate Owned(ops: seq<Op>, names: seq<string>) {
    forall op | op in ops :: op.name in names
  }

  ghost predicate AgreeOn(a: Sources, b: Sources, names: seq<string>) {
    forall n | n in names :: (n in a <==> n in b) && (n in a ==> a[n] == b[n])
  }

  /** The operations poller `w` has completed so far. */
  ghost function Completed(names: seq<string>, w: Poller): seq<Op>
    requires |w.pending| <= |AllOps(names, w.history)|
  {
    var all := AllOps(names, w.history);
    all[..|all| - |w.pending|]
  }

  /** On its own names, the shared store is what this poller alone would have made of an empty one. */
  ghost predicate Isolated(names: seq<string>, store: Sources, w: Poller) {
    var all := AllOps(names, w.history);
    && |w.pending| <= |all|
    && Completed(names, w) + w.pending == all
    && Owned(w.pending, names)
    && AgreeOn(store, Fold(map[], Completed(names, w)), names)
  }

  lemma {:induction false} FailOpsOwned(names: seq<string>, all: seq<string>)
    requires forall n | n in names :: n in all
    ensures Owned(FailOps(names), all)
  {
    if names != [] {
      FailOpsOwned(names[..|names| - 1], all);
    }
  }

  lemma {:induction false} SetOpsOwned(names: seq<string>, o: Outcome, all: seq<string>)
    requires o.Collected? && forall n | n in names :: n in all
    ensures Owned(SetOps(names, o), all)
  {
    if names != [] {
      SetOpsOwned(names[..|names| - 1], o, all);
    }
  }

  lemma {:induction false} DataOpsOwned(times: seq<(string, Time)>, all: seq<string>)
    requires forall d | d in times :: d.0 in all
    ensures Owned(DataOps(times), all)
  {
    if times != [] {
      DataOpsOwned(times[..|times| - 1], all);
    }
  }

  lemma BeginIsolated(names: seq<string>, store: Sources, w: Poller, o: Outcome)
    requires Isolated(names, store, w) && w.pending == []
    requires o.Collected? ==> forall d | d in o.dataTimes :: d.0 in names
    ensures Isolated(names, store, Poller(w.history + [o], RoundOps(names, o)))
  {
    var h := w.history + [o];
    assert h[..|h| - 1] == w.history;
    match o {
      case Failed => FailOpsOwned(names, names);
      case Collected(_, _, times) =>
        SetOpsOwned(names, o, names);
        DataOpsOwned(times, names);
    }
    var all, ops := AllOps(names, w.history), RoundOps(names, o);
    assert all[..|all|] == all;
    assert (all + ops)[..|all|] == all;
  }

  lemma NextIsolated(names: seq<string>, store: Sources, w: Poller)
    requires Isolated(names, store, w) && w.pending != []
    ensures Isolated(names, Apply(store, w.pending[0]), w.(pending := w.pending[1..]))
  {
    var all := AllOps(names, w.history);
    var k := |all| - |w.pending|;
    var done, op := all[..k], w.pending[0];
    OneMoreDone(all, done, w.pending);
    FoldSnoc(map[], done, op);
    assert op in w.pending;
    AgreeApply(store, Fold(map[], done), names, op);
    assert Owned(w.pending[1..], names) by {
      assert forall x | x in w.pending[1..] :: x in w.pending;
    }
  }

  lemma FoldSnoc(v: Sources, ops: seq<Op>, op: Op)
    ensures Fold(v, ops + [op]) == Apply(Fold(v, ops), op)
  {
    assert (ops + [op])[..|ops|] == ops;
  }

  lemma AgreeApply(a: Sources, b: Sources, names: seq<string>, op: Op)
    requires AgreeOn(a, b, names) && op.name in names
    ensures AgreeOn(Apply(a, op), Apply(b, op), names)
  {
  }

  lemma OneMoreDone(all: seq<Op>, done: seq<Op>, pending: seq<Op>)
    requires done + pending == all && pending != []
    ensures all[..|done| + 1] == done + [pending[0]] && done + [pending[0]] + pending[1..] == all
  {
  }

  lemma OtherKeepsIsolated(names: seq<string>, store: Sources, w: Poller, op: Op)
    requires Isolated(names, store, w) && op.name !in names
    ensures Isolated(names, Apply(store, op), w)
  {
  }

  /** Over every interleaving of pollers with disjoint names, at every moment
      and for every poller: the shared store shows under its names exactly what
      its own completed operations, run alone, produce. */
  lemma {:induction false} PollersAreIsolated(cfg: Config, es: seq<Event>, p: nat)
    requires DisjointNames(cfg) && OwnDataTimes(cfg, es) && p in cfg
    ensures p in Run(cfg, es).pollers
    ensures Isolated(cfg[p], Run(cfg, es).store, Run(cfg, es).pollers[p])
  {
    if es != [] {
      var before, e := Run(cfg, es[..|es| - 1]), es[|es| - 1];
      assert forall x | x in es[..|es| - 1] :: x in es;
      PollersAreIsolated(cfg, es[..|es| - 1], p);
      assert e in es;
      if e.p == p && e.Begin? && before.pollers[p].pending == [] {
        BeginIsolated(cfg[p], before.store, before.pollers[p], e.outcome);
      } else if e.p == p && e.Next? && before.pollers[p].pending != [] {
        NextIsolated(cfg[p], before.store, before.pollers[p]);
      } else if e.p in cfg && e.p != p && e.Next? {
        PollersAreIsolated(cfg, es[..|es| - 1], e.p);
        if before.pollers[e.p].pending != [] {
          var op := before.pollers[e.p].pending[0];
          assert op in before.pollers[e.p].pending;
          OtherKeepsIsolated(cfg[p], before.store, before.pollers[p], op);
        }
      }
    }
  }

  // ---------------------------------------------------------------- a shared name

  function Nexts(p: nat, k: nat): seq<Event> {
    if k == 0 then [] else Nexts(p, k - 1) + [Next(p)]
  }

  /** One poller's failed round, its first k operations done. */
  function FailedRound(p: nat, k: nat): seq<Event> {
    [Begin(p, Failed)] + Nexts(p, k)
  }

  lemma {:induction false} AfterFailedRound(cfg: Config, q: nat, k: nat)
    requires q in cfg && k <= |FailOps(cfg[q])|
    ensures var s := Run(cfg, FailedRound(q, k));
            && s.store == Fold(map[], FailOps(cfg[q])[..k]) && s.pollers.Keys == cfg.Keys
            && s.pollers[q].pending == FailOps(cfg[q])[k..]
            && forall p | p in cfg && p != q :: s.pollers[p] == Poller([], [])
  {
    var ops, es := FailOps(cfg[q]), FailedRound(q, k);
    if k == 0 {
      assert es == [Begin(q, Failed)] && es[..0] == [];
    } else {
      AfterFailedRound(cfg, q, k - 1);
      assert es == FailedRound(q, k - 1) + [Next(q)] && es[..|es| - 1] == FailedRound(q, k - 1);
      assert ops[..k] == ops[..k - 1] + [ops[k - 1]];
      FoldSnoc(map[], ops[..k - 1], ops[k - 1]);
    }
  }

  /** When two pollers report the same name, one failed round of the first shows
      under the name of the second, which has done nothing. */
  lemma SharedNameBreaks(cfg: Config, p: nat, q: nat, n: string) returns (es: seq<Event>)
    requires p in cfg && q in cfg && p != q && n in cfg[p] && n in cfg[q]
    ensures OwnDataTimes(cfg, es) && !IsolatedAfter(cfg, es, p)
  {
    var ops := FailOps(cfg[q]);
    es := FailedRound(q, |ops|);
    AfterFailedRound(cfg, q, |ops|);
    assert ops[..|ops|] == ops;
    AfterFails(map[], cfg[q], n);
    NextsAreNext(q, |ops|);
  }

  lemma {:induction false} NextsAreNext(p: nat, k: nat)
    ensures forall e | e in Nexts(p, k) :: e.Next?
  {
    if k > 0 {
      NextsAreNext(p, k - 1);
    }
  }

  ghost predicate IsolatedAfter(cfg: Config, es: seq<Event>, p: nat)
    requires p in cfg
  {
    p in Run(cfg, es).pollers && Isolated(cfg[p], Run(cfg, es).store, Run(cfg, es).pollers[p])
  }

  /** Pollers are isolated in every run exactly when no two of them report the
      same name, which the program leaves to its configuration. */
  lemma IsolatedIff(cfg: Config)
    ensures (forall es, p | p in cfg && OwnDataTimes(cfg, es) :: IsolatedAfter(cfg, es, p)) <==> DisjointNames(cfg)
  {
    if DisjointNames(cfg) {
      forall es, p | p in cfg && OwnDataTimes(cfg, es) ensures IsolatedAfter(cfg, es, p) {
        PollersAreIsolated(cfg, es, p);
      }
    } else {
      var p, q, n :| p in cfg && q in cfg && p != q && n in cfg[p] && n in cfg[q];
      var es := SharedNameBreaks(cfg, p, q, n);
    }
  }

  /** Between two rounds of its poller, a source's entry in the shared store is
      determined by that poller's own history, whatever the others did. */
  lemma SharedState(cfg: Config, es: seq<Event>, p: nat, n: string)
    requires DisjointNames(cfg) && OwnDataTimes(cfg, es) && p in cfg && n in cfg[p]
    requires p in Run(cfg, es).pollers && Run(cfg, es).pollers[p].pending == []
    ensures var h := Run(cfg, es).pollers[p].history;
            var store := Run(cfg, es).store;
            && (n in store <==> h != [])
            && (h != [] ==>
                  && store[n].up == h[|h| - 1].Collected?
                  && store[n].dataTime == LastDataTime(h, n)
                  && match LastSuccess(h)
                     case None => store[n].findings == [] && store[n].lastSuccess == 0
                     case Some(k) => store[n].findings == Reported(h[k], n)
                                     && ReadFor(cfg[p], h[k], n, store[n].lastSuccess))
  {
    PollersAreIsolated(cfg, es, p);
    var w := Run(cfg, es).pollers[p];
    var all := AllOps(cfg[p], w.history);
    assert all[..|all|] == all;
    if w.history != [] {
      SoloState(cfg[p], w.history, n);
    }
  }
}
