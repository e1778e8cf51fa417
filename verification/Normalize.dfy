/** normalize: a Kubescape resource ID reduced to namespace/Kind/name, with
    generated names replaced by "*". */
module Normalize {
  import opened Text

  predicate Hex(c: char) {
    '0' <= c <= '9' || 'a' <= c <= 'f'
  }

  /** The length of the run of hex digits at the front of `s`. */
  function HexRun(s: string): (n: nat)
    ensures n <= |s|
    ensures forall i | 0 <= i < n :: Hex(s[i])
    ensures n < |s| ==> !Hex(s[n])
  {
    if s == "" || !Hex(s[0]) then 0 else 1 + HexRun(s[1..])
  }

  /** generated.ReplaceAllString(s, "*"): leftmost, longest runs of eight or more. */
  function ReplaceRuns(s: string): string
    decreases |s|
  {
    if s == "" then ""
    else
      var n := HexRun(s);
      if n == 0 then [s[0]] + ReplaceRuns(s[1..])
      else (if n >= 8 then "*" else s[..n]) + ReplaceRuns(s[n..])
  }

  ghost predicate NoLongRun(s: string) {
    forall i | 0 <= i <= |s| :: HexRun(s[i..]) < 8
  }

  lemma HexRunIs(run: string, rest: string)
    requires (forall i | 0 <= i < |run| :: Hex(run[i])) && (rest == "" || !Hex(rest[0]))
    ensures HexRun(run + rest) == |run|
  {
    var s := run + rest;
    assert forall i | 0 <= i < |run| :: s[i] == run[i];
    assert rest != "" ==> s[|run|] == rest[0];
  }

  lemma NoLongRunTail(s: string, k: nat)
    requires NoLongRun(s) && k <= |s|
    ensures NoLongRun(s[k..])
  {
    forall i | 0 <= i <= |s| - k ensures HexRun(s[k..][i..]) < 8 {
      assert s[k..][i..] == s[k + i..];
    }
  }

  /** Text without a long run is left alone. */
  lemma {:induction false} ShortRunsStay(s: string)
    requires NoLongRun(s)
    ensures ReplaceRuns(s) == s
    decreases |s|
  {
    if s != "" {
      assert s[0..] == s;
      var n := HexRun(s);
      if n == 0 {
        NoLongRunTail(s, 1);
        ShortRunsStay(s[1..]);
      } else {
        NoLongRunTail(s, n);
        ShortRunsStay(s[n..]);
      }
    }
  }

  /** A short run, or one other char, in front of a text without long runs that does not continue it. */
  lemma NoLongRunPrepend(head: string, t: string)
    requires |head| < 8 && NoLongRun(t) && (t == "" || !Hex(t[0]))
    requires forall i | 0 <= i < |head| :: Hex(head[i])
    ensures NoLongRun(head + t)
  {
    var s := head + t;
    forall i | 0 <= i <= |s| ensures HexRun(s[i..]) < 8 {
      if i < |head| {
        assert s[i..] == head[i..] + t;
        HexRunIs(head[i..], t);
      } else {
        assert s[i..] == t[i - |head|..];
      }
    }
  }

  lemma NoLongRunCons(c: char, t: string)
    requires !Hex(c) && NoLongRun(t)
    ensures NoLongRun([c] + t)
  {
    var s := [c] + t;
    forall i | 0 <= i <= |s| ensures HexRun(s[i..]) < 8 {
      if i > 0 {
        assert s[i..] == t[i - 1..];
      }
    }
  }

  /** No run of eight or more is left, and a text starts with hex only if it did before. */
  lemma {:induction false} ReplacedHasNoLongRun(s: string)
    ensures NoLongRun(ReplaceRuns(s))
    ensures s != "" && !Hex(s[0]) ==> ReplaceRuns(s) != "" && ReplaceRuns(s)[0] == s[0]
    ensures s == "" ==> ReplaceRuns(s) == ""
    decreases |s|
  {
    if s == "" {
      assert ReplaceRuns(s)[0..] == "";
    } else {
      var n := HexRun(s);
      if n == 0 {
        ReplacedHasNoLongRun(s[1..]);
        NoLongRunCons(s[0], ReplaceRuns(s[1..]));
      } else {
        ReplacedHasNoLongRun(s[n..]);
        if n >= 8 {
          NoLongRunCons('*', ReplaceRuns(s[n..]));
        } else {
          NoLongRunPrepend(s[..n], ReplaceRuns(s[n..]));
        }
      }
    }
  }

  /** A text is its own replacement exactly when it has no long run. */
  lemma ReplaceFixedIff(s: string)
    ensures ReplaceRuns(s) == s <==> NoLongRun(s)
  {
    ReplacedHasNoLongRun(s);
    if NoLongRun(s) {
      ShortRunsStay(s);
    }
  }

  lemma {:induction false} ReplaceAround(a: string, run: string, b: string)
    requires a == "" || !Hex(a[|a| - 1])
    requires b == "" || !Hex(b[0])
    requires |run| >= 8 && forall i | 0 <= i < |run| :: Hex(run[i])
    ensures ReplaceRuns(a + (run + b)) == ReplaceRuns(a) + ("*" + ReplaceRuns(b))
    decreases |a|
  {
    if a == "" {
      HexRunIs(run, b);
      assert a + (run + b) == run + b && (run + b)[|run|..] == b;
    } else {
      var n := HexRun(a);
      var k := if n == 0 then 1 else n;
      var r := if n == 0 then [a[0]] else if n >= 8 then "*" else a[..n];
      ReplaceAround(a[k..], run, b);
      ReplaceStep(a, run + b);
      Assoc(r, ReplaceRuns(a[k..]), "*" + ReplaceRuns(b));
    }
  }

  lemma SlicesOfAppend(a: string, rest: string, n: nat)
    requires n <= |a|
    ensures (a + rest)[n..] == a[n..] + rest && (a + rest)[..n] == a[..n] && a[..n] + (a[n..] + rest) == a + rest
  {
  }

  /** The first run of `a` is replaced the same way whatever follows `a`. */
  lemma ReplaceStep(a: string, rest: string)
    requires a != "" && !Hex(a[|a| - 1])
    ensures var n := HexRun(a);
            var k := if n == 0 then 1 else n;
            var r := if n == 0 then [a[0]] else if n >= 8 then "*" else a[..n];
            ReplaceRuns(a) == r + ReplaceRuns(a[k..]) && ReplaceRuns(a + rest) == r + ReplaceRuns(a[k..] + rest)
  {
    var n := HexRun(a);
    HexRunIs(a[..n], a[n..] + rest);
    SlicesOfAppend(a, rest, n);
    SlicesOfAppend(a, rest, 1);
  }

  // ---------------------------------------------------------------- resource IDs

  function LastThree(parts: seq<string>): (r: seq<string>)
    requires parts != []
    ensures r != [] && |r| <= 3
  {
    if |parts| > 3 then parts[|parts| - 3..] else parts
  }

  function NormalParts(segs: seq<string>): seq<string>
    requires segs != []
  {
    var parts := LastThree(segs);
    parts[|parts| - 1 := ReplaceRuns(parts[|parts| - 1])]
  }

  function Normal(id: string): string {
    Join(NormalParts(Split(id, '/')), "/")
  }

  /** normalize, overwriting the last element of the slice. */
  method NormalizeId(resourceID: string) returns (r: string)
    ensures r == Normal(resourceID)
  {
    var parts := Split(resourceID, '/');
    if |parts| > 3 {
      parts := parts[|parts| - 3..];
    }
    parts := parts[|parts| - 1 := ReplaceRuns(parts[|parts| - 1])];
    r := Join(parts, "/");
  }

  lemma {:induction false} ReplaceKeepsOut(s: string, c: char)
    requires c !in s && c != '*'
    ensures c !in ReplaceRuns(s)
    decreases |s|
  {
    if s != "" {
      var n := HexRun(s);
      ReplaceKeepsOut(if n == 0 then s[1..] else s[n..], c);
    }
  }

  /** The segments of a normalised ID. */
  lemma NormalSegments(id: string)
    ensures var parts := LastThree(Split(id, '/'));
            Split(Normal(id), '/') == parts[|parts| - 1 := ReplaceRuns(parts[|parts| - 1])]
  {
    var parts := LastThree(Split(id, '/'));
    var k := |parts| - 1;
    assert forall p | p in parts :: p in Split(id, '/');
    assert parts[k] in parts;
    ReplaceKeepsOut(parts[k], '/');
    SplitOfJoin(parts[k := ReplaceRuns(parts[k])], '/');
  }

  /** Normalising twice changes nothing; at most three segments are kept, the
      last ones; and the last of them has no long hex run. */
  lemma NormalIdempotent(id: string)
    ensures Normal(Normal(id)) == Normal(id)
    ensures |Split(Normal(id), '/')| == if |Split(id, '/')| > 3 then 3 else |Split(id, '/')|
    ensures NoLongRun(Split(Normal(id), '/')[|Split(Normal(id), '/')| - 1])
  {
    NormalSegments(id);
    var parts := LastThree(Split(id, '/'));
    var k := |parts| - 1;
    ReplacedHasNoLongRun(parts[k]);
    ShortRunsStay(ReplaceRuns(parts[k]));
    var again := Split(Normal(id), '/');
    assert LastThree(again) == again;
    assert again[k := ReplaceRuns(again[k])] == again;
    JoinOfSplit(Normal(id), '/');
  }

  /** Text without a slash belongs to the last segment. */
  lemma {:induction false} SplitTail(p: string, t: string)
    requires '/' !in t
    ensures var segs := Split(p, '/');
            Split(p + t, '/') == segs[|segs| - 1 := segs[|segs| - 1] + t]
    decreases |p|
  {
    var n := IndexOf(p, '/');
    if n == |p| {
      IndexOfAbsent(p + t, '/');
    } else {
      var q := p[n + 1..];
      SplitTail(q, t);
      assert p == p[..n] + ['/'] + q;
      Assoc(p[..n] + ['/'], q, t);
      SplitHead(p[..n], '/', q + t);
      SplitHead(p[..n], '/', q);
      UpdateLast(p[..n], Split(q, '/'), t);
    }
  }

  lemma UpdateLast(h: string, segs: seq<string>, t: string)
    requires segs != []
    ensures ([h] + segs)[|segs| := segs[|segs| - 1] + t] == [h] + segs[|segs| - 1 := segs[|segs| - 1] + t]
  {
  }

  /** Two IDs that differ only in a generated part of the name, a maximal run of
      eight or more hex digits in the last segment, normalise to the same ID: a
      rename by an upgrade is not a new finding. */
  lemma RenameIsNotNew(p: string, was: string, now: string, b: string)
    requires '/' !in b && (p == "" || !Hex(p[|p| - 1])) && (b == "" || !Hex(b[0]))
    requires |was| >= 8 && forall i | 0 <= i < |was| :: Hex(was[i])
    requires |now| >= 8 && forall i | 0 <= i < |now| :: Hex(now[i])
    ensures Normal(p + (was + b)) == Normal(p + (now + b))
  {
    LastSegmentEnd(p);
    SplitTail(p, was + b);
    SplitTail(p, now + b);
    var segs := Split(p, '/');
    var a := segs[|segs| - 1];
    assert a == "" || !Hex(a[|a| - 1]);
    SameReplacement(a, was, now, b);
    SameLast(segs, a + (was + b), a + (now + b));
  }

  lemma SameReplacement(a: string, was: string, now: string, b: string)
    requires (a == "" || !Hex(a[|a| - 1])) && (b == "" || !Hex(b[0]))
    requires |was| >= 8 && forall i | 0 <= i < |was| :: Hex(was[i])
    requires |now| >= 8 && forall i | 0 <= i < |now| :: Hex(now[i])
    ensures ReplaceRuns(a + (was + b)) == ReplaceRuns(a + (now + b))
  {
    ReplaceAround(a, was, b);
    ReplaceAround(a, now, b);
  }

  /** Empty, or ending as `p` does. */
  predicate EndsAs(a: string, p: string) {
    a == "" || (p != "" && a[|a| - 1] == p[|p| - 1])
  }

  lemma {:induction false} LastSegmentEnd(p: string)
    ensures EndsAs(Split(p, '/')[|Split(p, '/')| - 1], p)
    decreases |p|
  {
    var n := IndexOf(p, '/');
    if n < |p| {
      var q := p[n + 1..];
      LastSegmentEnd(q);
      assert p == p[..n] + ['/'] + q;
      SplitHead(p[..n], '/', q);
      LastOfCons(p[..n], Split(q, '/'));
      EndsAsTail(Split(q, '/')[|Split(q, '/')| - 1], p, n + 1);
    } else {
      IndexOfAbsent(p, '/');
      assert Split(p, '/') == [p];
    }
  }

  lemma EndsAsTail(a: string, p: string, k: nat)
    requires k <= |p| && EndsAs(a, p[k..])
    ensures EndsAs(a, p)
  {
  }

  lemma LastOfCons(h: string, segs: seq<string>)
    requires segs != []
    ensures ([h] + segs)[|[h] + segs| - 1] == segs[|segs| - 1]
  {
  }

  lemma SameLast(segs: seq<string>, x: string, y: string)
    requires segs != [] && ReplaceRuns(x) == ReplaceRuns(y)
    ensures NormalParts(segs[|segs| - 1 := x]) == NormalParts(segs[|segs| - 1 := y])
  {
  }

  // ---------------------------------------------------------------- what is kept

  /** Around a maximal run of eight or more the text is replaced piece by piece,
      and the run becomes "*". With ReplaceFixedIff this settles every text. */
  lemma RunBecomesStar(a: string, run: string, b: string)
    requires (a == "" || !Hex(a[|a| - 1])) && (b == "" || !Hex(b[0]))
    requires |run| >= 8 && forall i | 0 <= i < |run| :: '0' <= run[i] <= '9' || 'a' <= run[i] <= 'f'
    ensures ReplaceRuns(a + (run + b)) == ReplaceRuns(a) + ("*" + ReplaceRuns(b))
  {
    ReplaceAround(a, run, b);
  }

  lemma {:induction false} SplitMore(p: string, c: char, rest: string)
    ensures Split(p + [c] + rest, c) == Split(p, c) + Split(rest, c)
    decreases |p|
  {
    var n := IndexOf(p, c);
    if n == |p| {
      SplitHead(p, c, rest);
    } else {
      var q := p[n + 1..];
      SplitMore(q, c, rest);
      assert p + [c] + rest == p[..n] + [c] + (q + [c] + rest);
      SplitHead(p[..n], c, q + [c] + rest);
      Assoc([p[..n]], Split(q, c), Split(rest, c));
    }
  }

  lemma SplitThree(a: string, b: string, c: string)
    requires '/' !in a && '/' !in b && '/' !in c
    ensures Split(a + "/" + b + "/" + c, '/') == [a, b, c]
  {
    IndexOfAbsent(c, '/');
    SplitHead(b, '/', c);
    assert a + "/" + b + "/" + c == a + ['/'] + (b + ['/'] + c);
    SplitHead(a, '/', b + ['/'] + c);
  }

  /** Of a longer ID the last three segments count, and nothing before them. */
  lemma LastThreeCount(p: string, a: string, b: string, c: string)
    requires '/' !in a && '/' !in b && '/' !in c
    ensures Normal(p + "/" + a + "/" + b + "/" + c) == Normal(a + "/" + b + "/" + c)
    ensures Split(Normal(a + "/" + b + "/" + c), '/') == [a, b, ReplaceRuns(c)]
  {
    var three := a + "/" + b + "/" + c;
    var parts := [a, b, c];
    SplitThree(a, b, c);
    LongSplit(p, a, b, c);
    NormalOf(p + "/" + a + "/" + b + "/" + c, Split(p, '/') + parts);
    NormalOf(three, parts);
    LastThreeOf(Split(p, '/'), parts);
    NormalSegments(three);
    ReplacedThird(a, b, c);
  }

  lemma LongSplit(p: string, a: string, b: string, c: string)
    requires '/' !in a && '/' !in b && '/' !in c
    ensures Split(p + "/" + a + "/" + b + "/" + c, '/') == Split(p, '/') + [a, b, c]
  {
    var three := a + "/" + b + "/" + c;
    SplitThree(a, b, c);
    SplitMore(p, '/', three);
    Regroup(p + "/", a, "/", b, "/", c);
  }

  lemma Regroup(x: string, a: string, b: string, c: string, d: string, e: string)
    ensures x + a + b + c + d + e == x + (a + b + c + d + e)
  {
    Assoc(x, a, b);
    Assoc(x, a + b, c);
    Assoc(x, a + b + c, d);
    Assoc(x, a + b + c + d, e);
  }

  lemma NormalOf(id: string, segs: seq<string>)
    requires segs != [] && Split(id, '/') == segs
    ensures Normal(id) == Join(NormalParts(segs), "/")
  {
  }

  lemma LastThreeOf(parts: seq<string>, three: seq<string>)
    requires |three| == 3
    ensures NormalParts(parts + three) == NormalParts(three) && LastThree(three) == three
  {
    assert LastThree(parts + three) == three;
  }

  lemma ReplacedThird(a: string, b: string, c: string)
    ensures [a, b, c][2 := ReplaceRuns(c)] == [a, b, ReplaceRuns(c)]
  {
  }

  /** Two IDs of three or more segments are one resource exactly when namespace,
      kind and name agree, the name up to generated parts. */
  lemma SameResourceIff(p: string, a: string, b: string, c: string, q: string, a': string, b': string, c': string)
    requires '/' !in a && '/' !in b && '/' !in c && '/' !in a' && '/' !in b' && '/' !in c'
    ensures Normal(p + "/" + a + "/" + b + "/" + c) == Normal(q + "/" + a' + "/" + b' + "/" + c')
            <==> a == a' && b == b' && ReplaceRuns(c) == ReplaceRuns(c')
  {
    LastThreeCount(p, a, b, c);
    LastThreeCount(q, a', b', c');
    var s, t := Split(Normal(a + "/" + b + "/" + c), '/'), Split(Normal(a' + "/" + b' + "/" + c'), '/');
    JoinOfSplit(Normal(a + "/" + b + "/" + c), '/');
    JoinOfSplit(Normal(a' + "/" + b' + "/" + c'), '/');
    assert s == t <==> s[0] == t[0] && s[1] == t[1] && s[2] == t[2];
  }

  /** Shorter IDs keep all their segments, the last one normalised. */
  lemma ShortIdKeepsAll(id: string)
    requires |Split(id, '/')| <= 3
    ensures var segs, k := Split(id, '/'), |Split(id, '/')| - 1;
            Split(Normal(id), '/') == segs[k := ReplaceRuns(segs[k])]
  {
    NormalSegments(id);
  }
}
