/** Loops that keep some elements of a slice and append a value for each. */
module Filters {
  import opened Text

  function FilterMap<T, U>(keep: T -> bool, f: T -> U, xs: seq<T>): seq<U> {
    if xs == [] then [] else
      var x := xs[|xs| - 1];
      FilterMap(keep, f, xs[..|xs| - 1]) + if keep(x) then [f(x)] else []
  }

  lemma FilterMapSnoc<T, U>(keep: T -> bool, f: T -> U, xs: seq<T>, x: T)
    ensures FilterMap(keep, f, xs + [x]) == FilterMap(keep, f, xs) + if keep(x) then [f(x)] else []
  {
    assert (xs + [x])[..|xs|] == xs;
  }

  /** `at` lists, in ascending order, where the elements of `r` come from. */
  ghost predicate Origins<T, U>(keep: T -> bool, f: T -> U, xs: seq<T>, r: seq<U>, at: seq<nat>) {
    && |at| == |r|
    && (forall i, j | 0 <= i < j < |at| :: at[i] < at[j])
    && (forall i | 0 <= i < |at| :: at[i] < |xs| && keep(xs[at[i]]) && r[i] == f(xs[at[i]]))
    && (forall k | 0 <= k < |xs| && keep(xs[k]) :: k in at)
  }

  /** What is kept is the subsequence of all elements that pass: positions
      ascend, and no element that passes is missing. */
  lemma {:induction false} FilterMapIsSubsequence<T, U>(keep: T -> bool, f: T -> U, xs: seq<T>) returns (at: seq<nat>)
    ensures Origins(keep, f, xs, FilterMap(keep, f, xs), at)
  {
    if xs == [] {
      at := [];
    } else {
      var front, x := xs[..|xs| - 1], xs[|xs| - 1];
      at := FilterMapIsSubsequence(keep, f, front);
      OriginsOneMore(keep, f, front, x, FilterMap(keep, f, front), at);
      FrontLast(xs);
      if keep(x) {
        at := at + [|xs| - 1];
      }
    }
  }

  lemma OriginsOneMore<T, U>(keep: T -> bool, f: T -> U, xs: seq<T>, x: T, r: seq<U>, at: seq<nat>)
    requires Origins(keep, f, xs, r, at)
    ensures Origins(keep, f, xs + [x], r + if keep(x) then [f(x)] else [], if keep(x) then at + [|xs|] else at)
  {
    var at' := if keep(x) then at + [|xs|] else at;
    forall k | 0 <= k < |xs + [x]| && keep((xs + [x])[k]) ensures k in at' {
      if k < |xs| {
        assert (xs + [x])[k] == xs[k];
        assert k in at;
      } else {
        assert at'[|at|] == k;
      }
    }
  }
}
