/** The store itself: a map of mutable source states, updated in place. Each
    method is one critical section and is proved against the value-level
    operation of the same name. */
module Metrics {
  import opened Text
  import opened Clock
  import opened Sorting
  import opened Findings
  import opened Exposition
  import opened Aggregate

  class SourceState {
    var findings: seq<Finding>
    var up: bool
    var lastSuccess: Time
    var dataTime: Time

    constructor (findings: seq<Finding>, up: bool, lastSuccess: Time)
      ensures Value() == State(findings, up, lastSuccess, 0)
    {
      this.findings, this.up, this.lastSuccess, this.dataTime := findings, up, lastSuccess, 0;
    }

    function Value(): State
      reads this
    {
      State(findings, up, lastSuccess, dataTime)
    }
  }

  class Store {
    var sources: map<string, SourceState>

    /** No two names share a state. */
    ghost predicate Valid()
      reads this
    {
      forall m, n | m in sources && n in sources && m != n :: sources[m] != sources[n]
    }

    ghost function Contents(): Sources
      reads this, sources.Values
    {
      map n | n in sources :: sources[n].Value()
    }

    constructor ()
      ensures Valid() && Contents() == map[] && sources == map[]
    {
      sources := map[];
    }

    method Set(name: string, fs: seq<Finding>, now: Time)
      requires Valid()
      modifies this
      ensures Valid() && fresh(sources.Values - old(sources.Values))
      ensures Contents() == Apply(old(Contents()), Op.Set(name, fs, now))
    {
      var st := new SourceState(fs, true, now);
      if name in sources {
        st.dataTime := sources[name].dataTime;
      }
      sources := sources[name := st];
      SetIs(old(Contents()), Contents(), name, fs, now);
    }

    method SetDataTime(name: string, t: Time)
      requires Valid()
      modifies sources.Values
      ensures Valid() && Contents() == Apply(old(Contents()), Op.SetDataTime(name, t))
    {
      if name in sources {
        sources[name].dataTime := t;
      }
    }

    method Fail(name: string)
      requires Valid()
      modifies this, sources.Values
      ensures Valid() && fresh(sources.Values - old(sources.Values))
      ensures Contents() == Apply(old(Contents()), Op.Fail(name))
    {
      if name !in sources {
        var st := new SourceState([], false, 0);
        sources := sources[name := st];
      }
      sources[name].up := false;
    }

    /** The inner loop: one source's findings. */
    static method GatherSource(counts0: map<CountKey, nat>, oldest0: map<AgeKey, Time>, ghost done: set<string>,
                               ghost v: Sources, name: string, fs: seq<Finding>)
      returns (counts: map<CountKey, nat>, oldest: map<AgeKey, Time>)
      requires name !in done && name in v && v[name].findings == fs
      requires Counted(counts0, done, v) && Aged(oldest0, done, v)
      ensures Counted(counts, done + {name}, v) && Aged(oldest, done + {name}, v)
    {
      counts, oldest := counts0, oldest0;
      for i := 0 to |fs|
        invariant CountedPartly(counts, done, v, name, fs[..i])
        invariant AgedPartly(oldest, done, v, name, fs[..i])
      {
        var f := fs[i];
        assert fs[..i + 1] == fs[..i] + [f];
        CountOneMore(counts, done, v, name, fs[..i], f);
        AgeOneMore(oldest, done, v, name, fs[..i], f);
        var k := CountKey(name, f.severity, f.item);
        counts := counts[k := (if k in counts then counts[k] else 0) + 1];
        if f.since != 0 {
          var a := AgeKey(name, f.severity);
          if a !in oldest || f.since < oldest[a] {
            oldest := oldest[a := f.since];
          }
        }
      }
      assert fs[..|fs|] == fs;
    }

    /** Walks the map in an arbitrary order and counts what it meets. */
    method Gather(ghost v: Sources) returns (counts: map<CountKey, nat>, oldest: map<AgeKey, Time>, names: seq<string>)
      requires Valid() && v == Contents()
      ensures Lists(names, v.Keys)
      ensures Counted(counts, v.Keys, v) && Aged(oldest, v.Keys, v)
    {
      counts, oldest, names := map[], map[], [];
      var todo := sources.Keys;
      ghost var done: set<string> := {};
      while todo != {}
        invariant todo !! done && todo + done == sources.Keys == v.Keys
        invariant Lists(names, done)
        invariant Counted(counts, done, v) && Aged(oldest, done, v)
        decreases todo
      {
        var name :| name in todo;
        assert v[name].findings == sources[name].findings;
        counts, oldest := GatherSource(counts, oldest, done, v, name, sources[name].findings);
        ListsOneMore(names, done, name);
        names := names + [name];
        todo, done := todo - {name}, done + {name};
      }
      assert done == v.Keys;
    }

    method UpBlock(names: seq<string>, ghost v: Sources) returns (xs: seq<Sample>)
      requires Valid() && v == Contents() && forall n | n in names :: n in sources
      ensures xs == UpSamples(names, v)
    {
      xs := [];
      for i := 0 to |names|
        invariant xs == UpSamples(names[..i], v)
      {
        assert names[i] in names;
        var one := 0;
        if sources[names[i]].up {
          one := 1;
        }
        xs := xs + [Sample(SourceSeries(UP, names[i]), one)];
      }
      assert names[..|names|] == names;
    }

    method SuccessBlock(names: seq<string>, ghost v: Sources) returns (xs: seq<Sample>)
      requires Valid() && v == Contents() && forall n | n in names :: n in sources
      ensures xs == TimeSamples(SUCCESS, names, SuccessOf(v))
    {
      xs := [];
      for i := 0 to |names|
        invariant xs == TimeSamples(SUCCESS, names[..i], SuccessOf(v))
      {
        assert names[i] in names;
        assert names[..i + 1][..i] == names[..i];
        var t := sources[names[i]].lastSuccess;
        if t != 0 {
          xs := xs + [Sample(SourceSeries(SUCCESS, names[i]), Unix(t))];
        }
      }
      assert names[..|names|] == names;
    }

    method DataBlock(names: seq<string>, ghost v: Sources) returns (xs: seq<Sample>)
      requires Valid() && v == Contents() && forall n | n in names :: n in sources
      ensures xs == TimeSamples(DATA, names, DataOf(v))
    {
      xs := [];
      for i := 0 to |names|
        invariant xs == TimeSamples(DATA, names[..i], DataOf(v))
      {
        assert names[i] in names;
        assert names[..i + 1][..i] == names[..i];
        var t := sources[names[i]].dataTime;
        if t != 0 {
          xs := xs + [Sample(SourceSeries(DATA, names[i]), Unix(t))];
        }
      }
      assert names[..|names|] == names;
    }

    /** The scrape. The map is walked in any order, yet the text is a function
        of the contents alone. */
    method Write() returns (out: string)
      requires Valid()
      ensures out == Unlines(Render(HeaderLines(), old(Contents())))
    {
      ghost var v := Contents();
      out := WriteUnder(HeaderLines(), v);
    }

    method WriteUnder(h: Headers, ghost v: Sources) returns (out: string)
      requires Valid() && v == Contents()
      ensures out == Unlines(Render(h, v))
    {
      var counts, oldest, names := Gather(v);
      names := SortNames(names, v);
      var open := OpenBlock(counts, v);
      var ages := OldestBlock(oldest, v);
      var up, success, data := SourceBlocks(names, v);
      out := PrintBlocks(h, open, ages, up, success, data);
    }

    method SourceBlocks(names: seq<string>, ghost v: Sources) returns (up: seq<Sample>, success: seq<Sample>, data: seq<Sample>)
      requires Valid() && v == Contents() && forall n | n in names :: n in sources
      ensures up == UpSamples(names, v)
      ensures success == TimeSamples(SUCCESS, names, SuccessOf(v)) && data == TimeSamples(DATA, names, DataOf(v))
    {
      up := UpBlock(names, v);
      success := SuccessBlock(names, v);
      data := DataBlock(names, v);
    }
  }

  method SortNames(unsorted: seq<string>, ghost v: Sources) returns (names: seq<string>)
    requires Lists(unsorted, v.Keys)
    ensures names == NamesOf(v)
  {
    StringOrder();
    names := SortStrings(unsorted);
    OrderedIs(Less, v.Keys, names);
  }

  method OpenBlock(counts: map<CountKey, nat>, ghost v: Sources) returns (xs: seq<Sample>)
    requires Counted(counts, v.Keys, v)
    ensures xs == OpenSamples(CountKeysOf(v), v)
  {
    var ks := ListKeys(counts.Keys);
    CountOrder();
    ks := SortSlice(CountLess, ks);
    assert counts.Keys == CountKeys(v);
    OrderedIs(CountLess, CountKeys(v), ks);
    ListsMembers(ks, counts.Keys);
    xs := seq(|ks|, i requires 0 <= i < |ks| => Sample(OpenSeries(ks[i]), counts[ks[i]]));
    assert xs == OpenSamples(ks, v);
  }

  method OldestBlock(oldest: map<AgeKey, Time>, ghost v: Sources) returns (xs: seq<Sample>)
    requires Aged(oldest, v.Keys, v)
    ensures xs == OldestSamples(AgeKeysOf(v), v)
  {
    var ks := ListKeys(oldest.Keys);
    AgeOrder();
    ks := SortSlice(AgeLess, ks);
    assert oldest.Keys == AgeKeys(v);
    OrderedIs(AgeLess, AgeKeys(v), ks);
    ListsMembers(ks, oldest.Keys);
    xs := seq(|ks|, i requires 0 <= i < |ks| => Sample(OldestSeries(ks[i]), Unix(oldest[ks[i]])));
    assert xs == OldestSamples(ks, v);
  }

  /** Prints comment lines, then one line per sample, after the lines already written. */
  method PrintBlock(written: string, ghost lines: seq<string>, header: seq<string>, xs: seq<Sample>) returns (out: string)
    requires written == Unlines(lines)
    ensures out == Unlines(lines + (header + PrintAll(xs)))
  {
    UnlinesAppend(lines, header);
    out := written + Unlines(header);
    out := PrintRows(out, lines + header, xs);
    Assoc(lines, header, PrintAll(xs));
  }

  method PrintRows(written: string, ghost before: seq<string>, xs: seq<Sample>) returns (out: string)
    requires written == Unlines(before)
    ensures out == Unlines(before + PrintAll(xs))
  {
    out := written;
    assert before + PrintAll(xs[..0]) == before;
    for i := 0 to |xs|
      invariant out == Unlines(before + PrintAll(xs[..i]))
    {
      PrintOneMore(before, xs, i);
      out := out + (PrintSample(xs[i]) + "\n");
    }
    assert xs[..|xs|] == xs;
  }

  lemma PrintOneMore(before: seq<string>, xs: seq<Sample>, i: nat)
    requires i < |xs|
    ensures Unlines(before + PrintAll(xs[..i + 1])) == Unlines(before + PrintAll(xs[..i])) + (PrintSample(xs[i]) + "\n")
  {
    assert xs[..i + 1][..i] == xs[..i];
    Assoc(before, PrintAll(xs[..i]), [PrintSample(xs[i])]);
    UnlinesOneMore(before + PrintAll(xs[..i]), PrintSample(xs[i]));
  }

  lemma UnlinesOneMore(lines: seq<string>, l: string)
    ensures Unlines(lines + [l]) == Unlines(lines) + (l + "\n")
  {
    UnlinesAppend(lines, [l]);
    assert [l][1..] == [] && Unlines([l]) == l + "\n";
  }

  method PrintBlocks(h: Headers, a: seq<Sample>, b: seq<Sample>, c: seq<Sample>, d: seq<Sample>, e: seq<Sample>)
    returns (out: string)
    ensures out == Unlines(Blocks(h, a, b, c, d, e))
  {
    ghost var lines := [];
    out := PrintBlock("", lines, h.open, a);
    lines := h.open + PrintAll(a);
    assert [] + lines == lines;
    out := PrintBlock(out, lines, h.oldest, b);
    lines := lines + (h.oldest + PrintAll(b));
    out := PrintBlock(out, lines, h.up, c);
    lines := lines + (h.up + PrintAll(c));
    out := PrintBlock(out, lines, h.success, d);
    lines := lines + (h.success + PrintAll(d));
    out := PrintBlock(out, lines, h.data, e);
  }

  /** The body of `poll`'s loop: what one collection does to the store. */
  method PollRound(store: Store, names: seq<string>, o: Outcome)
    requires store.Valid()
    modifies store, store.sources.Values
    ensures store.Valid() && fresh(store.sources.Values - old(store.sources.Values))
    ensures store.Contents() == Fold(old(store.Contents()), RoundOps(names, o))
  {
    if o.Failed? {
      FailRound(store, names);
    } else {
      SetRound(store, names, o);
      FoldAppend(old(store.Contents()), SetOps(names, o), DataOps(o.dataTimes));
      DataRound(store, o.dataTimes);
    }
  }

  method FailRound(store: Store, names: seq<string>)
    requires store.Valid()
    modifies store, store.sources.Values
    ensures store.Valid() && fresh(store.sources.Values - old(store.sources.Values))
    ensures store.Contents() == Fold(old(store.Contents()), FailOps(names))
  {
    ghost var before := store.Contents();
    for i := 0 to |names|
      invariant store.Valid() && fresh(store.sources.Values - old(store.sources.Values))
      invariant store.Contents() == Fold(before, FailOps(names[..i]))
    {
      assert names[..i + 1][..i] == names[..i];
      FoldAppend(before, FailOps(names[..i]), [Op.Fail(names[i])]);
      FoldOne(Fold(before, FailOps(names[..i])), Op.Fail(names[i]));
      store.Fail(names[i]);
    }
    assert names[..|names|] == names;
  }

  method SetRound(store: Store, names: seq<string>, o: Outcome)
    requires store.Valid() && o.Collected?
    modifies store, store.sources.Values
    ensures store.Valid() && fresh(store.sources.Values - old(store.sources.Values))
    ensures store.Contents() == Fold(old(store.Contents()), SetOps(names, o))
  {
    ghost var before := store.Contents();
    for i := 0 to |names|
      invariant store.Valid() && fresh(store.sources.Values - old(store.sources.Values))
      invariant store.Contents() == Fold(before, SetOps(names[..i], o))
    {
      assert names[..i + 1][..i] == names[..i];
      var fs := Reported(o, names[i]);
      ghost var op := Op.Set(names[i], fs, o.clock(i));
      FoldAppend(before, SetOps(names[..i], o), [op]);
      FoldOne(Fold(before, SetOps(names[..i], o)), op);
      store.Set(names[i], fs, o.clock(i));
    }
    assert names[..|names|] == names;
  }

  method DataRound(store: Store, times: seq<(string, Time)>)
    requires store.Valid()
    modifies store.sources.Values
    ensures store.Valid()
    ensures store.Contents() == Fold(old(store.Contents()), DataOps(times))
  {
    ghost var before := store.Contents();
    for i := 0 to |times|
      invariant store.Contents() == Fold(before, DataOps(times[..i]))
    {
      assert times[..i + 1][..i] == times[..i];
      DataOneMore(before, times, i);
      store.SetDataTime(times[i].0, times[i].1);
    }
    assert times[..|times|] == times;
  }

  lemma DataOneMore(v: Sources, times: seq<(string, Time)>, i: nat)
    requires i < |times|
    ensures Fold(v, DataOps(times[..i + 1]))
            == Apply(Fold(v, DataOps(times[..i])), Op.SetDataTime(times[i].0, times[i].1))
  {
    assert times[..i + 1][..i] == times[..i];
  }

  lemma SetIs(v: Sources, w: Sources, name: string, fs: seq<Finding>, now: Time)
    requires w.Keys == v.Keys + {name} && w[name] == State(fs, true, now, Previous(v, name).dataTime)
    requires forall n | n in v && n != name :: w[n] == v[n]
    ensures w == Apply(v, Op.Set(name, fs, now))
  {
  }

  lemma FoldOne(v: Sources, op: Op)
    ensures Fold(v, [op]) == Apply(v, op)
  {
    assert [op][..0] == [];
  }

  lemma CountOneMore(counts: map<CountKey, nat>, done: set<string>, v: Sources, name: string, fs: seq<Finding>, f: Finding)
    requires CountedPartly(counts, done, v, name, fs)
    ensures var k := CountKey(name, f.severity, f.item);
            CountedPartly(counts[k := (if k in counts then counts[k] else 0) + 1], done, v, name, fs + [f])
  {
    assert (fs + [f])[..|fs|] == fs;
  }

  lemma AgeOneMore(oldest: map<AgeKey, Time>, done: set<string>, v: Sources, name: string, fs: seq<Finding>, f: Finding)
    requires AgedPartly(oldest, done, v, name, fs)
    ensures var a := AgeKey(name, f.severity);
            var o := if f.since != 0 && (a !in oldest || f.since < oldest[a]) then oldest[a := f.since] else oldest;
            AgedPartly(o, done, v, name, fs + [f])
  {
    assert (fs + [f])[..|fs|] == fs;
  }

  /** The counts of the sources in `done`, and of no other. */
  ghost predicate Counted(counts: map<CountKey, nat>, done: set<string>, v: Sources) {
    forall k: CountKey ::
      && (k in counts <==> k.source in done && Count(v, k) > 0)
      && (k in counts ==> counts[k] == Count(v, k))
  }

  ghost predicate Aged(oldest: map<AgeKey, Time>, done: set<string>, v: Sources) {
    forall k: AgeKey ::
      && (k in oldest <==> k.source in done && Oldest(v, k).Some?)
      && (k in oldest ==> oldest[k] == Oldest(v, k).value)
  }

  /** As Counted, and the first findings `fs` of `name` besides. */
  ghost predicate CountedPartly(counts: map<CountKey, nat>, done: set<string>, v: Sources, name: string, fs: seq<Finding>) {
    forall k: CountKey ::
      var c := if k.source == name then Tally(fs, k.severity, k.item) else if k.source in done then Count(v, k) else 0;
      (k in counts <==> c > 0) && (k in counts ==> counts[k] == c)
  }

  ghost predicate AgedPartly(oldest: map<AgeKey, Time>, done: set<string>, v: Sources, name: string, fs: seq<Finding>) {
    forall k: AgeKey ::
      var a := if k.source == name then OldestIn(fs, k.severity) else if k.source in done then Oldest(v, k) else None;
      (k in oldest <==> a.Some?) && (k in oldest ==> oldest[k] == a.value)
  }
}
