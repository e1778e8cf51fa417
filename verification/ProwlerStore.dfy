/** The Prowler source as a poller: what the shared store shows of the bucket. */
module ProwlerStore {
  import opened Text
  import opened Clock
  import opened Findings
  import opened Prowler

  const NAME := "prowler"

  /** What one round of the poller reports, from the cache before it. */
  ghost predicate IsRound(o: Outcome, c: Cache, a: Attempt) {
    var (after, answer) := Collect(c, a);
    match o
    case Failed => answer.None?
    case Collected(results, _, times) =>
      answer.Some? && results == map[NAME := answer.value] && times == (if after.at == 0 then [] else [(NAME, after.at)])
  }

  ghost predicate Polls(h: seq<Outcome>, attempts: seq<Attempt>) {
    |h| == |attempts| && forall k | 0 <= k < |h| :: IsRound(h[k], CacheAfter(attempts[..k]), attempts[k])
  }

  /** The newest report of the attempt is in the bucket, has these open findings, and was written then. */
  ghost predicate ShowsReport(a: Attempt, findings: seq<Finding>, at: Time) {
    && Target(a).Some? && Target(a).value.0 in a.bucket && a.bucket[Target(a).value.0].doc.Some?
    && findings == OpenFindings(a.bucket[Target(a).value.0].doc.value) && at == Target(a).value.1
  }

  /** A round that succeeds reports the newest report's findings and its time. */
  lemma RoundShowsReport(o: Outcome, attempts: seq<Attempt>, k: nat)
    requires k < |attempts| && (forall a | a in attempts :: Truthful(a)) && WriteOnce(attempts)
    requires IsRound(o, CacheAfter(attempts[..k]), attempts[k]) && o.Collected?
    ensures LastTime(o.dataTimes, NAME).Some?
    ensures ShowsReport(attempts[k], Reported(o, NAME), LastTime(o.dataTimes, NAME).value)
  {
    var before, a := attempts[..k], attempts[k];
    assert forall x | x in before + [a] :: x in attempts;
    CachedIsUncached(before, a);
    TargetInBucket(a);
    assert Target(a.(download := true)) == Target(a);
  }

  lemma {:induction false} LastDataTimeIs(h: seq<Outcome>, k: nat, n: string, t: Time)
    requires k < |h| && h[k].Collected? && LastTime(h[k].dataTimes, n) == Some(t)
    requires forall i | k < i < |h| :: h[i].Failed?
    ensures LastDataTime(h, n) == t
  {
    if k < |h| - 1 {
      LastDataTimeIs(h[..|h| - 1], k, n, t);
    }
  }

  /** Between rounds, whatever the other pollers did and whatever failed: the
      store's entry shows the open findings of the report that was newest at the
      last success, under the time it was written. */
  lemma EntryShowsReport(cfg: Config, es: seq<Event>, p: nat, attempts: seq<Attempt>)
    requires DisjointNames(cfg) && OwnDataTimes(cfg, es) && p in cfg && cfg[p] == [NAME]
    requires p in Run(cfg, es).pollers && Run(cfg, es).pollers[p].pending == []
    requires Polls(Run(cfg, es).pollers[p].history, attempts)
    requires (forall a | a in attempts :: Truthful(a)) && WriteOnce(attempts)
    ensures var h := Run(cfg, es).pollers[p].history;
            var store := Run(cfg, es).store;
            && (NAME in store <==> attempts != [])
            && (attempts != [] ==>
                  && store[NAME].up == h[|h| - 1].Collected?
                  && match LastSuccess(h)
                     case None => store[NAME].findings == []
                     case Some(k) => ShowsReport(attempts[k], store[NAME].findings, store[NAME].dataTime))
  {
    var h := Run(cfg, es).pollers[p].history;
    SharedState(cfg, es, p, NAME);
    if LastSuccess(h).Some? {
      var k := LastSuccess(h).value;
      RoundShowsReport(h[k], attempts, k);
      LastDataTimeIs(h, k, NAME, LastTime(h[k].dataTimes, NAME).value);
    }
  }

  /** In the midst of a round it need not: after `set` and before `setDataTime` a
      scrape finds the new findings under the old data time. */
  lemma MidRoundIsTorn(cfg: Config, es: seq<Event>, p: nat, fs: seq<Finding>, clock: nat -> Time, at: Time)
    requires p in cfg && cfg[p] == [NAME] && p in Run(cfg, es).pollers && Run(cfg, es).pollers[p].pending == []
    ensures var before := Run(cfg, es);
            var s := Run(cfg, es + [Begin(p, Collected(map[NAME := fs], clock, [(NAME, at)])), Next(p)]);
            && NAME in s.store && s.store[NAME] == State(fs, true, clock(0), Previous(before.store, NAME).dataTime)
            && p in s.pollers && s.pollers[p].pending == [Op.SetDataTime(NAME, at)]
  {
    var o := Collected(map[NAME := fs], clock, [(NAME, at)]);
    var begun := es + [Begin(p, o)];
    assert begun[..|es|] == es;
    var all := es + [Begin(p, o), Next(p)];
    assert all[..|all| - 1] == begun;
    RoundIs(fs, clock, at);
  }

  lemma RoundIs(fs: seq<Finding>, clock: nat -> Time, at: Time)
    ensures RoundOps([NAME], Collected(map[NAME := fs], clock, [(NAME, at)]))
            == [Op.Set(NAME, fs, clock(0)), Op.SetDataTime(NAME, at)]
  {
    var o := Collected(map[NAME := fs], clock, [(NAME, at)]);
    assert [NAME][..0] == [] && SetOps([NAME], o) == [Op.Set(NAME, fs, clock(0))];
    assert [(NAME, at)][..0] == [] && DataOps([(NAME, at)]) == [Op.SetDataTime(NAME, at)];
  }
}
