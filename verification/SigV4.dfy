/** The canonical request of AWS Signature Version 4 (task 1, "Create a
    canonical request"), as the exporter assembles it, and what it determines. */
module SigV4 {
  import opened Text
  import opened Sorting
  import opened Percent

  // ---------------------------------------------------------------- path

  /** One segment: decoded and encoded again, or left alone if it does not decode. */
  function CanonSegment(s: string): string {
    match Unescape(s)
    case Some(d) => Percent.Escape(d)
    case None => s
  }

  function CanonSegments(segs: seq<string>): (r: seq<string>)
    ensures |r| == |segs| && forall i | 0 <= i < |segs| :: r[i] == CanonSegment(segs[i])
  {
    seq(|segs|, i requires 0 <= i < |segs| => CanonSegment(segs[i]))
  }

  function CanonicalPath(p: string): string {
    if p == "" then "/" else Join(CanonSegments(Split(p, '/')), "/")
  }

  /** canonicalPath, overwriting the slice of segments. */
  method BuildPath(p: string) returns (r: string)
    ensures r == CanonicalPath(p)
  {
    if p == "" {
      return "/";
    }
    var segs := Split(p, '/');
    segs := CanonicaliseSegments(segs);
    r := Join(segs, "/");
  }

  method CanonicaliseSegments(parts: seq<string>) returns (segs: seq<string>)
    ensures segs == CanonSegments(parts)
  {
    segs := parts;
    for i := 0 to |segs|
      invariant |segs| == |parts|
      invariant forall j | 0 <= j < i :: segs[j] == CanonSegment(parts[j])
      invariant forall j | i <= j < |segs| :: segs[j] == parts[j]
    {
      match Unescape(segs[i])
      case Some(dec) =>
        var e := AwsEscape(dec);
        segs := segs[i := e];
      case None =>
    }
  }

  lemma CanonSegmentPlain(s: string)
    requires '/' !in s
    ensures '/' !in CanonSegment(s)
  {
    match Unescape(s)
    case Some(d) => EscapeAlphabet(d);
    case None =>
  }

  lemma CanonSegmentIdempotent(s: string)
    requires Bytes(s)
    ensures CanonSegment(CanonSegment(s)) == CanonSegment(s)
  {
    UnescapeBytes(s);
    match Unescape(s)
    case Some(d) => UnescapeOfEscape(d);
    case None =>
  }

  lemma {:induction false} SplitBytes(s: string, c: char)
    requires Bytes(s)
    ensures forall p | p in Split(s, c) :: Bytes(p)
    decreases |s|
  {
    var n := IndexOf(s, c);
    if n < |s| {
      SplitBytes(s[n + 1..], c);
    }
  }

  /** Canonicalising keeps the segments apart: splitting the result gives the canonical segments. */
  lemma SegmentsOfPath(p: string)
    requires p != ""
    ensures Split(CanonicalPath(p), '/') == CanonSegments(Split(p, '/'))
    ensures CanonicalPath(p) != ""
  {
    var segs := Split(p, '/');
    forall s | s in CanonSegments(segs) ensures '/' !in s {
      var i :| 0 <= i < |segs| && CanonSegments(segs)[i] == s;
      assert segs[i] in segs;
      CanonSegmentPlain(segs[i]);
    }
    SplitOfJoin(CanonSegments(segs), '/');
    if |segs| == 1 {
      JoinOfSplit(p, '/');
    }
  }

  /** Segment by segment: what decodes comes out in the one form AWS accepts and
      still decodes to the same; what does not decode is left alone. */
  lemma SegmentsAre(p: string)
    requires p != "" && Bytes(p)
    ensures var was, now := Split(p, '/'), Split(CanonicalPath(p), '/');
            && |now| == |was|
            && forall i | 0 <= i < |was| ::
                 if Unescape(was[i]).None? then now[i] == was[i]
                 else Percent.NormalForm(now[i]) && Unescape(now[i]) == Unescape(was[i])
  {
    SegmentsOfPath(p);
    SplitBytes(p, '/');
    var was := Split(p, '/');
    forall i | 0 <= i < |was| && Unescape(was[i]).Some?
      ensures Percent.NormalForm(CanonSegment(was[i])) && Unescape(CanonSegment(was[i])) == Unescape(was[i])
    {
      assert was[i] in was;
      UnescapeBytes(was[i]);
      EscapeIff(Unescape(was[i]).value, CanonSegment(was[i]));
    }
  }

  /** Doing it twice changes nothing, for any path at all. */
  lemma PathIdempotent(p: string)
    requires Bytes(p)
    ensures CanonicalPath(CanonicalPath(p)) == CanonicalPath(p)
  {
    if p == "" {
      var two := CanonicalPath("");
      assert two == "/";
      SplitOfJoin(["", ""], '/');
      assert Join(["", ""], "/") == "/";
      assert CanonSegments(["", ""]) == ["", ""];
    } else {
      SegmentsOfPath(p);
      var segs := Split(p, '/');
      SplitBytes(p, '/');
      forall i | 0 <= i < |segs| ensures CanonSegment(CanonSegments(segs)[i]) == CanonSegments(segs)[i] {
        assert segs[i] in segs;
        CanonSegmentIdempotent(segs[i]);
      }
      assert CanonSegments(CanonSegments(segs)) == CanonSegments(segs);
    }
  }

  /** A path every segment of which decodes. */
  ghost predicate ValidlyEscaped(p: string) {
    forall s | s in Split(p, '/') :: Unescape(s).Some?
  }

  ghost function DecodedSegments(p: string): (r: seq<string>)
    requires ValidlyEscaped(p)
    ensures |r| == |Split(p, '/')|
    ensures forall i | 0 <= i < |r| :: Unescape(Split(p, '/')[i]) == Some(r[i])
  {
    var segs := Split(p, '/');
    assert forall i | 0 <= i < |segs| :: segs[i] in segs;
    seq(|segs|, i requires 0 <= i < |segs| => Unescape(segs[i]).value)
  }

  /** The empty path stands for "/". */
  function Rooted(p: string): string {
    if p == "" then "/" else p
  }

  lemma RootedCanonical(p: string)
    requires Bytes(p)
    ensures CanonicalPath(Rooted(p)) == CanonicalPath(p) && Bytes(Rooted(p))
    ensures ValidlyEscaped(p) ==> ValidlyEscaped(Rooted(p))
  {
    if p == "" {
      PathIdempotent("");
      SplitOfJoin(["", ""], '/');
      assert Join(["", ""], "/") == "/";
    }
  }

  /** Two validly escaped paths have one canonical form exactly when they name the same segments. */
  lemma PathsAgreeIff(p: string, q: string)
    requires Bytes(p) && Bytes(q) && ValidlyEscaped(p) && ValidlyEscaped(q)
    ensures ValidlyEscaped(Rooted(p)) && ValidlyEscaped(Rooted(q))
    ensures CanonicalPath(p) == CanonicalPath(q) <==> DecodedSegments(Rooted(p)) == DecodedSegments(Rooted(q))
  {
    RootedCanonical(p);
    RootedCanonical(q);
    RootedPathsAgreeIff(Rooted(p), Rooted(q));
  }

  lemma RootedPathsAgreeIff(p: string, q: string)
    requires p != "" && q != "" && Bytes(p) && Bytes(q) && ValidlyEscaped(p) && ValidlyEscaped(q)
    ensures CanonicalPath(p) == CanonicalPath(q) <==> DecodedSegments(p) == DecodedSegments(q)
  {
    SegmentsOfPath(p);
    SegmentsOfPath(q);
    var a, b := Split(p, '/'), Split(q, '/');
    SplitBytes(p, '/');
    SplitBytes(q, '/');
    if CanonicalPath(p) == CanonicalPath(q) {
      forall i | 0 <= i < |a| ensures DecodedSegments(p)[i] == DecodedSegments(q)[i] {
        assert a[i] in a && b[i] in b;
        UnescapeBytes(a[i]);
        UnescapeBytes(b[i]);
        UnescapeOfEscape(DecodedSegments(p)[i]);
        UnescapeOfEscape(DecodedSegments(q)[i]);
        assert CanonSegments(a)[i] == CanonSegments(b)[i];
      }
    }
    if DecodedSegments(p) == DecodedSegments(q) {
      forall i | 0 <= i < |a| ensures CanonSegments(a)[i] == CanonSegments(b)[i] {
        assert Unescape(a[i]) == Some(DecodedSegments(p)[i]) && Unescape(b[i]) == Some(DecodedSegments(q)[i]);
      }
      assert CanonSegments(a) == CanonSegments(b);
    }
  }

  // ---------------------------------------------------------------- query

  type Pair = (string, string)
  type Values = map<string, seq<string>>

  predicate PairLess(a: Pair, b: Pair) {
    if a.0 != b.0 then Less(a.0, b.0) else Less(a.1, b.1)
  }

  lemma PairOrder()
    ensures TotalOrder(PairLess)
  {
    StringOrder();
    forall a: Pair, b, c | !PairLess(a, b) && !PairLess(b, c) ensures !PairLess(a, c) {
    }
  }

  function PairsFor(k: string, vs: seq<string>): (r: seq<Pair>)
    ensures |r| == |vs| && forall i | 0 <= i < |vs| :: r[i] == (k, vs[i])
  {
    seq(|vs|, i requires 0 <= i < |vs| => (k, vs[i]))
  }

  function PairsOf(keys: seq<string>, q: Values): seq<Pair>
    requires forall k | k in keys :: k in q
  {
    if keys == [] then [] else
      var n := |keys| - 1;
      PairsOf(keys[..n], q) + PairsFor(keys[n], q[keys[n]])
  }

  /** Every name/value pair, as often as it occurs. */
  ghost predicate IsBag(bag: multiset<Pair>, q: Values) {
    forall p: Pair :: bag[p] == if p.0 in q then multiset(q[p.0])[p.1] else 0
  }

  lemma {:induction false} PairsForCount(k: string, vs: seq<string>, p: Pair)
    ensures multiset(PairsFor(k, vs))[p] == if p.0 == k then multiset(vs)[p.1] else 0
  {
    if vs != [] {
      var n := |vs| - 1;
      PairsForCount(k, vs[..n], p);
      assert vs == vs[..n] + [vs[n]];
      assert PairsFor(k, vs) == PairsFor(k, vs[..n]) + [(k, vs[n])];
    }
  }

  lemma {:induction false} PairsOfCount(keys: seq<string>, q: Values, p: Pair)
    requires forall k | k in keys :: k in q
    requires forall i, j | 0 <= i < j < |keys| :: keys[i] != keys[j]
    ensures multiset(PairsOf(keys, q))[p] == if p.0 in keys then multiset(q[p.0])[p.1] else 0
  {
    if keys != [] {
      var n := |keys| - 1;
      PairsOfCount(keys[..n], q, p);
      PairsForCount(keys[n], q[keys[n]], p);
      assert keys == keys[..n] + [keys[n]];
    }
  }

  ghost function Bag(q: Values): (bag: multiset<Pair>)
    ensures IsBag(bag, q)
  {
    StringOrder();
    var keys := Ordered(Less, q.Keys);
    ListsMembers(keys, q.Keys);
    assert IsBag(multiset(PairsOf(keys, q)), q) by {
      forall p: Pair ensures multiset(PairsOf(keys, q))[p] == if p.0 in q then multiset(q[p.0])[p.1] else 0 {
        PairsOfCount(keys, q, p);
      }
    }
    multiset(PairsOf(keys, q))
  }

  ghost predicate SortedBag(ps: seq<Pair>, q: Values) {
    Sorted(PairLess, ps) && multiset(ps) == Bag(q)
  }

  /** The pairs in the order the code prints them. */
  ghost function SortedPairs(q: Values): (ps: seq<Pair>)
    ensures SortedBag(ps, q)
  {
    PairOrder();
    StringOrder();
    var keys := Ordered(Less, q.Keys);
    ListsMembers(keys, q.Keys);
    var all := PairsOf(keys, q);
    InsertionSortSorted(PairLess, all);
    InsertionSort(PairLess, all)
  }

  lemma SortedPairsIs(ps: seq<Pair>, q: Values)
    requires SortedBag(ps, q)
    ensures ps == SortedPairs(q)
  {
    PairOrder();
    SortedUnique(PairLess, ps, SortedPairs(q));
  }

  function PrintPair(p: Pair): string {
    Percent.Escape(p.0) + "=" + Percent.Escape(p.1)
  }

  function PrintPairs(ps: seq<Pair>): (r: seq<string>)
    ensures |r| == |ps| && forall i | 0 <= i < |ps| :: r[i] == PrintPair(ps[i])
  {
    seq(|ps|, i requires 0 <= i < |ps| => PrintPair(ps[i]))
  }

  ghost function CanonicalQuery(q: Values): string {
    Join(PrintPairs(SortedPairs(q)), "&")
  }

  /** canonicalQuery: names sorted, each name's values sorted, all of it encoded. */
  method BuildQuery(q: Values) returns (r: string)
    ensures r == CanonicalQuery(q)
  {
    var keys := ListKeys(q.Keys);
    keys := SortStrings(keys);
    ListsMembers(keys, q.Keys);
    var parts := PrintKeys(keys, q);
    r := Join(parts, "&");
  }

  method PrintKeys(keys: seq<string>, q: Values) returns (parts: seq<string>)
    requires Sorted(Less, keys) && forall k :: k in keys <==> k in q
    requires forall m, n | 0 <= m < n < |keys| :: keys[m] != keys[n]
    ensures parts == PrintPairs(SortedPairs(q))
  {
    parts := [];
    ghost var ps: seq<Pair> := [];
    for i := 0 to |keys|
      invariant parts == PrintPairs(ps) && PrintedSoFar(keys, i, ps, q)
    {
      var vals := SortStrings(q[keys[i]]);
      var printed := PrintValues(keys[i], vals);
      PrintedOneMore(keys, i, ps, q, vals);
      parts := parts + printed;
      ps := ps + PairsFor(keys[i], vals);
    }
    AllPrinted(keys, ps, q);
  }

  /** The first i names have been printed, each with its values in order. */
  ghost predicate PrintedSoFar(keys: seq<string>, i: nat, ps: seq<Pair>, q: Values) {
    && i <= |keys| && Sorted(PairLess, ps)
    && (forall p | p in ps :: exists j :: 0 <= j < i && p.0 == keys[j])
    && (forall p: Pair :: multiset(ps)[p] == if p.0 in keys[..i] && p.0 in q then multiset(q[p.0])[p.1] else 0)
  }

  lemma PrintedOneMore(keys: seq<string>, i: nat, ps: seq<Pair>, q: Values, vals: seq<string>)
    requires i < |keys| && PrintedSoFar(keys, i, ps, q) && Sorted(Less, keys)
    requires forall m, n | 0 <= m < n < |keys| :: keys[m] != keys[n]
    requires keys[i] in q && Sorted(Less, vals) && multiset(vals) == multiset(q[keys[i]])
    ensures PrintedSoFar(keys, i + 1, ps + PairsFor(keys[i], vals), q)
    ensures PrintPairs(ps) + PrintPairs(PairsFor(keys[i], vals)) == PrintPairs(ps + PairsFor(keys[i], vals))
  {
    ExtendSorted(keys, i, ps, vals);
    forall p: Pair
      ensures multiset(ps + PairsFor(keys[i], vals))[p]
              == if p.0 in keys[..i + 1] && p.0 in q then multiset(q[p.0])[p.1] else 0
    {
      CountOneMore(keys, i, ps, q, vals, p);
    }
  }

  lemma CountOneMore(keys: seq<string>, i: nat, ps: seq<Pair>, q: Values, vals: seq<string>, p: Pair)
    requires i < |keys| && keys[i] !in keys[..i] && keys[i] in q && multiset(vals) == multiset(q[keys[i]])
    requires multiset(ps)[p] == if p.0 in keys[..i] && p.0 in q then multiset(q[p.0])[p.1] else 0
    ensures multiset(ps + PairsFor(keys[i], vals))[p]
            == if p.0 in keys[..i + 1] && p.0 in q then multiset(q[p.0])[p.1] else 0
  {
    PairsForCount(keys[i], vals, p);
    assert keys[..i + 1] == keys[..i] + [keys[i]];
  }

  lemma AllPrinted(keys: seq<string>, ps: seq<Pair>, q: Values)
    requires PrintedSoFar(keys, |keys|, ps, q) && forall k :: k in keys <==> k in q
    ensures ps == SortedPairs(q)
  {
    assert keys[..|keys|] == keys;
    assert IsBag(multiset(ps), q);
    SortedPairsIs(ps, q);
  }

  method PrintValues(k: string, vals: seq<string>) returns (parts: seq<string>)
    ensures parts == PrintPairs(PairsFor(k, vals))
  {
    parts := [];
    for i := 0 to |vals|
      invariant |parts| == i && forall j | 0 <= j < i :: parts[j] == PrintPair((k, vals[j]))
    {
      var a := AwsEscape(k);
      var b := AwsEscape(vals[i]);
      parts := parts + [a + "=" + b];
    }
  }

  lemma ExtendSorted(keys: seq<string>, i: nat, ps: seq<Pair>, vals: seq<string>)
    requires i < |keys| && Sorted(Less, keys) && Sorted(Less, vals) && Sorted(PairLess, ps)
    requires forall m, n | 0 <= m < n < |keys| :: keys[m] != keys[n]
    requires forall p | p in ps :: exists j :: 0 <= j < i && p.0 == keys[j]
    ensures Sorted(PairLess, ps + PairsFor(keys[i], vals))
    ensures forall p | p in ps + PairsFor(keys[i], vals) :: exists j :: 0 <= j < i + 1 && p.0 == keys[j]
  {
    var more := PairsFor(keys[i], vals);
    var all := ps + more;
    forall m, n | 0 <= m < n < |all| ensures !PairLess(all[n], all[m]) {
      if m < |ps| <= n {
        assert all[m] in ps;
      }
    }
    forall p | p in all ensures exists j :: 0 <= j < i + 1 && p.0 == keys[j] {
      assert p in ps || p in more;
    }
  }

  function ParsePair(s: string): Option<Pair> {
    var n := IndexOf(s, '=');
    if n == |s| || Unescape(s[..n]).None? || Unescape(s[n + 1..]).None? then None
    else Some((Unescape(s[..n]).value, Unescape(s[n + 1..]).value))
  }

  /** Splits on "&" and "=" and decodes. */
  function ParsePairs(parts: seq<string>): Option<seq<Pair>> {
    if parts == [] then Some([])
    else if ParsePair(parts[0]).None? || ParsePairs(parts[1..]).None? then None
    else Some([ParsePair(parts[0]).value] + ParsePairs(parts[1..]).value)
  }

  function ParseQuery(s: string): Option<seq<Pair>> {
    if s == "" then Some([]) else ParsePairs(Split(s, '&'))
  }

  ghost predicate BytesPair(p: Pair) {
    Bytes(p.0) && Bytes(p.1)
  }

  lemma PairRoundTrip(p: Pair)
    requires BytesPair(p)
    ensures ParsePair(PrintPair(p)) == Some(p)
  {
    EscapeAlphabet(p.0);
    UnescapeOfEscape(p.0);
    UnescapeOfEscape(p.1);
    ParseParts(Percent.Escape(p.0), Percent.Escape(p.1), p);
  }

  lemma PairAlphabet(p: Pair)
    ensures '&' !in PrintPair(p) && '\n' !in PrintPair(p) && PrintPair(p) != ""
  {
    EscapeAlphabet(p.0);
    EscapeAlphabet(p.1);
  }

  lemma ParseParts(a: string, b: string, p: Pair)
    requires '=' !in a && Unescape(a) == Some(p.0) && Unescape(b) == Some(p.1)
    ensures ParsePair(a + "=" + b) == Some(p)
  {
    IndexOfHead(a, '=', b);
  }

  lemma {:induction false} PairsRoundTrip(ps: seq<Pair>)
    requires forall p | p in ps :: BytesPair(p)
    ensures ParsePairs(PrintPairs(ps)) == Some(ps)
  {
    if ps != [] {
      assert ps[0] in ps;
      PairRoundTrip(ps[0]);
      PairsRoundTrip(ps[1..]);
      ParseFirst(PrintPairs(ps), ps);
    }
  }

  lemma ParseFirst(parts: seq<string>, ps: seq<Pair>)
    requires parts != [] && ps != [] && ParsePair(parts[0]) == Some(ps[0])
    requires parts[1..] == PrintPairs(ps[1..]) && ParsePairs(PrintPairs(ps[1..])) == Some(ps[1..])
    ensures ParsePairs(parts) == Some(ps)
  {
    assert [ps[0]] + ps[1..] == ps;
  }

  lemma PrintedQuery(ps: seq<Pair>)
    requires forall p | p in ps :: BytesPair(p)
    ensures ParseQuery(Join(PrintPairs(ps), "&")) == Some(ps)
    ensures '\n' !in Join(PrintPairs(ps), "&")
  {
    var parts := PrintPairs(ps);
    forall s | s in parts ensures '&' !in s && '\n' !in s && s != "" {
      var i :| 0 <= i < |ps| && parts[i] == s;
      PairAlphabet(ps[i]);
    }
    JoinFree(parts, "&", '\n');
    PairsRoundTrip(ps);
    if ps != [] {
      SplitOfJoin(parts, '&');
      assert parts[0] in parts;
    }
  }

  ghost predicate BytesQuery(q: Values) {
    forall p: Pair | p in Bag(q) :: BytesPair(p)
  }

  /** Parsing the canonical query gives back every pair, as often as it was there. */
  lemma QueryRoundTrip(q: Values)
    requires BytesQuery(q)
    ensures ParseQuery(CanonicalQuery(q)).Some?
    ensures multiset(ParseQuery(CanonicalQuery(q)).value) == Bag(q)
  {
    PrintedQuery(SortedPairs(q));
  }

  /** Two queries have one canonical form exactly when they hold the same pairs. */
  lemma QueriesAgreeIff(p: Values, q: Values)
    requires BytesQuery(p) && BytesQuery(q)
    ensures CanonicalQuery(p) == CanonicalQuery(q) <==> Bag(p) == Bag(q)
  {
    QueryRoundTrip(p);
    QueryRoundTrip(q);
    if Bag(p) == Bag(q) {
      SortedPairsIs(SortedPairs(p), q);
    }
  }

  // ---------------------------------------------------------------- the order AWS asks for

  /** Sorted by encoded name, then by encoded value. */
  ghost predicate AwsOrdered(ps: seq<Pair>) {
    forall i, j | 0 <= i < j < |ps| :: !EncodedLess(ps[j], ps[i])
  }

  predicate EncodedLess(a: Pair, b: Pair) {
    PairLess((Percent.Escape(a.0), Percent.Escape(a.1)), (Percent.Escape(b.0), Percent.Escape(b.1)))
  }

  /** Two pairs whose raw order and encoded order differ. */
  predicate PairClash(a: Pair, b: Pair) {
    Clash(a.0, b.0) || (a.0 == b.0 && Clash(a.1, b.1))
  }

  lemma {:induction false} ClashLess(a: string, b: string)
    requires Clash(a, b)
    ensures Less(a, b)
  {
    if a[0] == b[0] {
      ClashLess(a[1..], b[1..]);
    }
  }

  lemma EncodedPairOrder(a: Pair, b: Pair)
    requires BytesPair(a) && BytesPair(b) && PairLess(a, b)
    ensures EncodedLess(b, a) <==> PairClash(a, b)
  {
    StringOrder();
    if a.0 != b.0 {
      EscapeOrder(a.0, b.0);
    } else {
      EscapeOrder(a.1, b.1);
      if Clash(a.0, b.0) {
        ClashLess(a.0, b.0);
      }
    }
  }

  /** The canonical query is in the order AWS asks for exactly when no two of
      its pairs clash. */
  lemma AwsOrderedIff(q: Values)
    requires BytesQuery(q)
    ensures AwsOrdered(SortedPairs(q)) <==> forall a, b | a in Bag(q) && b in Bag(q) :: !PairClash(a, b)
  {
    var ps := SortedPairs(q);
    PairOrder();
    StringOrder();
    forall i, j | 0 <= i < j < |ps| ensures EncodedLess(ps[j], ps[i]) <==> PairClash(ps[i], ps[j]) {
      assert ps[i] in ps && ps[j] in ps;
      if ps[i] == ps[j] {
        NoSelfClash(ps[i]);
      } else {
        EncodedPairOrder(ps[i], ps[j]);
      }
    }
    if AwsOrdered(ps) {
      forall a, b | a in Bag(q) && b in Bag(q) ensures !PairClash(a, b) {
        assert a in ps && b in ps;
        OrderedNoClash(ps, a, b);
      }
    } else {
      var i, j :| 0 <= i < j < |ps| && EncodedLess(ps[j], ps[i]);
      assert ps[i] in multiset(ps) && ps[j] in multiset(ps);
    }
  }

  lemma OrderedNoClash(ps: seq<Pair>, a: Pair, b: Pair)
    requires AwsOrdered(ps) && Sorted(PairLess, ps) && a in ps && b in ps
    requires forall i, j | 0 <= i < j < |ps| :: EncodedLess(ps[j], ps[i]) <==> PairClash(ps[i], ps[j])
    ensures !PairClash(a, b)
  {
    var i :| 0 <= i < |ps| && ps[i] == a;
    var j :| 0 <= j < |ps| && ps[j] == b;
    ClashOrder(a, b);
    NoSelfClash(a);
    if j < i {
      assert !PairLess(ps[i], ps[j]);
    }
  }

  lemma ClashOrder(a: Pair, b: Pair)
    ensures PairClash(a, b) ==> PairLess(a, b)
  {
    if Clash(a.0, b.0) {
      ClashLess(a.0, b.0);
      LessAsymmetricHere(a.0);
    } else if a.0 == b.0 && Clash(a.1, b.1) {
      ClashLess(a.1, b.1);
    }
  }

  lemma LessAsymmetricHere(a: string)
    ensures !Less(a, a)
  {
    StringOrder();
  }

  lemma NoSelfClash(a: Pair)
    ensures !PairClash(a, a)
  {
    StringOrder();
    if Clash(a.0, a.0) {
      ClashLess(a.0, a.0);
    } else if Clash(a.1, a.1) {
      ClashLess(a.1, a.1);
    }
  }

  lemma {:induction false} UnreservedNeverClash(a: string, b: string)
    requires forall i | 0 <= i < |b| :: Unreserved(b[i])
    ensures !Clash(a, b)
  {
    if a != "" && b != "" && a[0] == b[0] {
      UnreservedNeverClash(a[1..], b[1..]);
    }
  }

  ghost predicate AllUnreserved(s: string) {
    forall i | 0 <= i < |s| :: Unreserved(s[i])
  }

  /** Names, and the values of a repeated name, made of unreserved characters are enough. */
  lemma UnreservedIsAwsOrdered(q: Values)
    requires BytesQuery(q)
    requires forall k | k in q :: AllUnreserved(k) && (|q[k]| > 1 ==> forall v | v in q[k] :: AllUnreserved(v))
    ensures AwsOrdered(SortedPairs(q))
  {
    forall a, b | a in Bag(q) && b in Bag(q) ensures !PairClash(a, b) {
      UnreservedNeverClash(a.0, b.0);
      if a.0 == b.0 {
        if |q[a.0]| > 1 {
          assert b.1 in q[b.0];
          UnreservedNeverClash(a.1, b.1);
        } else {
          assert a.1 in q[a.0] && b.1 in q[a.0];
          NoSelfClash(a);
        }
      }
    }
    AwsOrderedIff(q);
  }

  lemma ClashingNames(j: string, k: string)
    requires Bytes(j) && Bytes(k) && Clash(j, k)
    ensures !AwsOrdered(SortedPairs(map[j := [""], k := [""]]))
  {
    var q: Values := map[j := [""], k := [""]];
    assert Bag(q)[(j, "")] > 0 && Bag(q)[(k, "")] > 0;
    assert PairClash((j, ""), (k, ""));
    AwsOrderedIff(q);
  }

  /** With the names "a-" and "a/" the query is out of order: AWS wants "a%2F" first. */
  lemma OutOfAwsOrder()
    ensures !AwsOrdered(SortedPairs(map["a-" := [""], "a/" := [""]]))
  {
    assert "a-"[1..] == "-" && "a/"[1..] == "/";
    assert Clash("-", "/") && Clash("a-", "a/");
    ClashingNames("a-", "a/");
  }
}
