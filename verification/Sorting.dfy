/** sort.Slice and sort.Strings, known only by what they promise: some
    permutation of the input without an inversion. Which of several equal
    elements comes first is not promised, so no caller can rely on it. */
module Sorting {
  import opened Text

  /** The comparisons sort.Slice accepts: a strict weak order. */
  ghost predicate WeakOrder<T(!new)>(less: (T, T) -> bool) {
    && (forall a, b :: less(a, b) ==> !less(b, a))
    && (forall a, b, c :: !less(a, b) && !less(b, c) ==> !less(a, c))
  }

  /** A weak order that tells any two different elements apart. */
  ghost predicate TotalOrder<T(!new)>(less: (T, T) -> bool) {
    && WeakOrder(less)
    && (forall a, b :: a == b || less(a, b) || less(b, a))
  }

  ghost predicate Sorted<T(!new)>(less: (T, T) -> bool, s: seq<T>) {
    forall i, j | 0 <= i < j < |s| :: !less(s[j], s[i])
  }

  /** `s` names every element of `keys` exactly once. */
  ghost predicate Lists<T>(s: seq<T>, keys: set<T>) {
    multiset(s) == multiset(keys)
  }

  function Insert<T(!new)>(less: (T, T) -> bool, x: T, s: seq<T>): (r: seq<T>)
    ensures multiset(r) == multiset(s) + multiset{x}
  {
    if s == [] then [x]
    else if less(s[0], x) then
      assert s == [s[0]] + s[1..];
      [s[0]] + Insert(less, x, s[1..])
    else [x] + s
  }

  lemma {:induction false} InsertSorted<T(!new)>(less: (T, T) -> bool, x: T, s: seq<T>)
    requires WeakOrder(less) && Sorted(less, s)
    ensures Sorted(less, Insert(less, x, s))
  {
    var r := Insert(less, x, s);
    if s != [] && less(s[0], x) {
      InsertSorted(less, x, s[1..]);
      var tail := Insert(less, x, s[1..]);
      forall j | 1 <= j < |r| ensures !less(r[j], s[0]) {
        assert r[j] in multiset(tail);
        assert r[j] == x || r[j] in s[1..];
      }
    } else if s != [] {
      forall j | 1 <= j < |r| ensures !less(r[j], x) {
        assert r[j] == s[j - 1];
        assert !less(s[j - 1], s[0]);
      }
    }
  }

  function InsertionSort<T(!new)>(less: (T, T) -> bool, s: seq<T>): (r: seq<T>)
    ensures multiset(r) == multiset(s)
  {
    if s == [] then [] else
      assert s == [s[0]] + s[1..];
      Insert(less, s[0], InsertionSort(less, s[1..]))
  }

  lemma {:induction false} InsertionSortSorted<T(!new)>(less: (T, T) -> bool, s: seq<T>)
    requires WeakOrder(less)
    ensures Sorted(less, InsertionSort(less, s))
  {
    if s != [] {
      InsertionSortSorted(less, s[1..]);
      InsertSorted(less, s[0], InsertionSort(less, s[1..]));
    }
  }

  /** sort.Slice */
  method SortSlice<T(!new)>(less: (T, T) -> bool, s: seq<T>) returns (r: seq<T>)
    requires WeakOrder(less)
    ensures multiset(r) == multiset(s)
    ensures Sorted(less, r)
  {
    InsertionSortSorted(less, s);
    r := InsertionSort(less, s);
  }

  lemma HeadLeast<T(!new)>(less: (T, T) -> bool, a: seq<T>, b: seq<T>)
    requires WeakOrder(less) && Sorted(less, b) && a != [] && b != []
    requires multiset(a) == multiset(b)
    ensures !less(a[0], b[0])
  {
    assert a[0] in multiset(b);
    var i :| 0 <= i < |b| && b[i] == a[0];
  }

  /** If the order tells the elements apart there is only one sorted permutation, so
      neither the order in which a map was walked nor the sort's own choices can show. */
  lemma {:induction false} SortedUnique<T(!new)>(less: (T, T) -> bool, a: seq<T>, b: seq<T>)
    requires WeakOrder(less) && Sorted(less, a) && Sorted(less, b)
    requires forall x, y | x in a && y in a :: x == y || less(x, y) || less(y, x)
    requires multiset(a) == multiset(b)
    ensures a == b
  {
    assert |a| == |multiset(a)| == |multiset(b)| == |b|;
    if a != [] {
      HeadLeast(less, a, b);
      HeadLeast(less, b, a);
      assert b[0] in multiset(a);
      TailBag(a);
      TailBag(b);
      SortedUnique(less, a[1..], b[1..]);
    }
  }

  lemma TailBag<T>(a: seq<T>)
    requires a != []
    ensures [a[0]] + a[1..] == a && multiset(a[1..]) == multiset(a) - multiset{a[0]}
  {
    assert [a[0]] + a[1..] == a;
    assert multiset(a) == multiset{a[0]} + multiset(a[1..]);
  }

  lemma {:induction false} SomeListing<T(!new)>(keys: set<T>) returns (s: seq<T>)
    ensures Lists(s, keys)
  {
    if keys == {} {
      s := [];
    } else {
      var k :| k in keys;
      var rest := SomeListing(keys - {k});
      s := [k] + rest;
      assert keys == (keys - {k}) + {k};
    }
  }

  lemma OrderedExists<T(!new)>(less: (T, T) -> bool, keys: set<T>)
    requires WeakOrder(less)
    ensures exists s :: Lists(s, keys) && Sorted(less, s)
  {
    var s := SomeListing(keys);
    InsertionSortSorted(less, s);
    assert Lists(InsertionSort(less, s), keys);
  }

  /** The elements of a set in ascending order. */
  ghost function Ordered<T(!new)>(less: (T, T) -> bool, keys: set<T>): (s: seq<T>)
    requires WeakOrder(less)
    ensures Lists(s, keys) && Sorted(less, s)
  {
    OrderedExists(less, keys);
    var s :| Lists(s, keys) && Sorted(less, s);
    s
  }

  lemma OrderedIs<T(!new)>(less: (T, T) -> bool, keys: set<T>, s: seq<T>)
    requires TotalOrder(less) && Lists(s, keys) && Sorted(less, s)
    ensures Ordered(less, keys) == s
  {
    SortedUnique(less, Ordered(less, keys), s);
  }

  /** A set has one sorted listing exactly when the order tells any two of its elements apart. */
  lemma OneListingIff<T(!new)>(less: (T, T) -> bool, keys: set<T>)
    requires WeakOrder(less)
    ensures (forall a, b | Lists(a, keys) && Sorted(less, a) && Lists(b, keys) && Sorted(less, b) :: a == b)
            <==> forall x, y | x in keys && y in keys :: x == y || less(x, y) || less(y, x)
  {
    if x, y :| x in keys && y in keys && x != y && !less(x, y) && !less(y, x) {
      SwapTied(less, keys, Ordered(less, keys), x, y);
    } else {
      forall a, b | Lists(a, keys) && Sorted(less, a) && Lists(b, keys) && Sorted(less, b) ensures a == b {
        ListsMembers(a, keys);
        SortedUnique(less, a, b);
      }
    }
  }

  lemma SwapTied<T(!new)>(less: (T, T) -> bool, keys: set<T>, a: seq<T>, x: T, y: T)
    requires WeakOrder(less) && Lists(a, keys) && Sorted(less, a)
    requires x in keys && y in keys && x != y && !less(x, y) && !less(y, x)
    ensures exists b :: Lists(b, keys) && Sorted(less, b) && b != a
  {
    ListsMembers(a, keys);
    assert Tied(less, x, y) && Tied(less, y, x) && Tied(less, x, x);
    var i :| 0 <= i < |a| && a[i] == x;
    var j :| 0 <= j < |a| && a[j] == y;
    var b := Swapped(a, i, j);
    forall k | 0 <= k < |a| ensures Tied(less, a[k], b[k]) {
    }
    TiedStaysSorted(less, a, b);
  }

  function Swapped<T>(a: seq<T>, i: nat, j: nat): (b: seq<T>)
    requires i < |a| && j < |a| && a[i] != a[j]
    ensures |b| == |a| && b[i] == a[j] && b[j] == a[i] && forall k | 0 <= k < |a| && k != i && k != j :: b[k] == a[k]
    ensures multiset(b) == multiset(a) && b != a
  {
    var b := a[i := a[j]][j := a[i]];
    assert b[i] != a[i];
    b
  }

  lemma TiedStaysSorted<T(!new)>(less: (T, T) -> bool, a: seq<T>, b: seq<T>)
    requires WeakOrder(less) && Sorted(less, a) && |a| == |b| && forall k | 0 <= k < |a| :: Tied(less, a[k], b[k])
    ensures Sorted(less, b)
  {
    forall m, n | 0 <= m < n < |b| ensures !less(b[n], b[m]) {
      assert Tied(less, a[m], b[m]) && Tied(less, a[n], b[n]);
      assert !less(a[n], a[m]);
      assert !less(b[n], a[m]);
    }
  }

  predicate Tied<T>(less: (T, T) -> bool, x: T, y: T) {
    !less(x, y) && !less(y, x)
  }

  lemma ListsMembers<T>(s: seq<T>, keys: set<T>)
    requires Lists(s, keys)
    ensures forall x :: x in s <==> x in keys
    ensures forall i, j | 0 <= i < j < |s| :: s[i] != s[j]
  {
    forall x ensures x in s <==> x in keys {
      assert x in s <==> x in multiset(s);
      assert x in multiset(s) <==> x in multiset(keys);
    }
    forall i, j | 0 <= i < j < |s| ensures s[i] != s[j] {
      assert s == s[..i] + [s[i]] + s[i + 1..];
      assert s[j] == s[i + 1..][j - i - 1];
      assert multiset(s)[s[j]] <= 1;
      assert multiset(s)[s[j]] == multiset(s[..i])[s[j]] + multiset{s[i]}[s[j]] + multiset(s[i + 1..])[s[j]];
      assert multiset(s[i + 1..])[s[j]] >= 1;
    }
  }

  lemma ListsOneMore<T>(s: seq<T>, keys: set<T>, x: T)
    requires Lists(s, keys) && x !in keys
    ensures Lists(s + [x], keys + {x})
  {
  }

  /** Copies a map's keys into a slice, in no particular order. */
  method ListKeys<K(!new)>(keys: set<K>) returns (ks: seq<K>)
    ensures Lists(ks, keys)
  {
    ks := [];
    var todo := keys;
    while todo != {}
      invariant todo <= keys && Lists(ks, keys - todo)
      decreases todo
    {
      var k :| k in todo;
      ks := ks + [k];
      assert keys - (todo - {k}) == (keys - todo) + {k};
      todo := todo - {k};
    }
    assert keys - todo == keys;
  }

  lemma StringOrder()
    ensures TotalOrder(Less)
  {
    forall a, b | Less(a, b) ensures !Less(b, a) {
      LessAsymmetric(a, b);
    }
    forall a, b ensures a == b || Less(a, b) || Less(b, a) {
      LessTotal(a, b);
    }
    forall a, b, c | !Less(a, b) && !Less(b, c) ensures !Less(a, c) {
      LessTotal(a, b);
      LessTotal(b, c);
      if b != a && b != c {
        LessTransitive(c, b, a);
        LessAsymmetric(c, a);
      }
    }
  }

  /** sort.Strings */
  method SortStrings(s: seq<string>) returns (r: seq<string>)
    ensures multiset(r) == multiset(s)
    ensures Sorted(Less, r)
  {
    StringOrder();
    r := SortSlice(Less, s);
  }
}
