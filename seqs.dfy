/**
 * Sequence helpers standing for the JavaScript array built-ins the engine relies on:
 * `indexOf`, `filter`, and `reduce` used as a sum or a running maximum.
 */
module Seqs {

  /** No element occurs twice. */
  predicate Distinct<T(==)>(s: seq<T>) {
    forall i, j :: 0 <= i < j < |s| ==> s[i] != s[j]
  }

  /** `Array.prototype.indexOf`: the index of the first occurrence of `v`, or -1. */
  function IndexOf<T(==)>(s: seq<T>, v: T): (i: int)
    ensures -1 <= i < |s|
    ensures i == -1 <==> v !in s
    ensures 0 <= i ==> s[i] == v && v !in s[..i]
  {
    if |s| == 0 then -1
    else if s[0] == v then 0
    else
      var j := IndexOf(s[1..], v);
      assert s[1..][..j + 1] == s[1..j + 2] by { if j >= 0 { assert j + 2 <= |s|; } }
      if j == -1 then -1 else j + 1
  }

  /** In a sequence without repetitions, `indexOf` gives back the position of each element. */
  lemma IndexOfDistinct<T>(s: seq<T>, i: nat)
    requires Distinct(s) && i < |s|
    ensures IndexOf(s, s[i]) == i
  {
    var j := IndexOf(s, s[i]);
    assert s[j] == s[i];
  }

  /** In a sequence without repetitions every element occurs at most once. */
  lemma {:induction false} DistinctCount<T>(s: seq<T>, x: T)
    requires Distinct(s)
    ensures multiset(s)[x] <= 1
  {
    if |s| > 0 {
      var init := s[..|s| - 1];
      assert Distinct(init);
      DistinctCount(init, x);
      assert s == init + [s[|s| - 1]];
      assert s[|s| - 1] !in init;
    }
  }

  /** A sequence with the same elements as one without repetitions has none either. */
  lemma SameElementsDistinct<T>(s: seq<T>, t: seq<T>)
    requires Distinct(t) && multiset(s) == multiset(t)
    ensures Distinct(s)
  {
    forall i, j | 0 <= i < j < |s| ensures s[i] != s[j] {
      if s[i] == s[j] {
        assert s == s[..i] + [s[i]] + s[i + 1..j] + [s[j]] + s[j + 1..];
        assert multiset(s)[s[i]] >= 2;
        DistinctCount(t, s[i]);
      }
    }
  }

  /** `Array.prototype.filter`: the elements satisfying `keep`, in their original order. */
  function Filter<T(!new)>(s: seq<T>, keep: T -> bool): (r: seq<T>)
    ensures |r| <= |s|
    ensures forall x :: x in r <==> x in s && keep(x)
  {
    if |s| == 0 then []
    else Filter(s[..|s| - 1], keep) + (if keep(s[|s| - 1]) then [s[|s| - 1]] else [])
  }

  /** Filtering distributes over concatenation: the kept elements stay in input order. */
  lemma {:induction false} FilterAppend<T(!new)>(a: seq<T>, b: seq<T>, keep: T -> bool)
    ensures Filter(a + b, keep) == Filter(a, keep) + Filter(b, keep)
  {
    if |b| == 0 {
      assert a + b == a;
    } else {
      assert (a + b)[..|a + b| - 1] == a + b[..|b| - 1];
      FilterAppend(a, b[..|b| - 1], keep);
    }
  }

  /** Filtering twice is filtering by the conjunction. */
  lemma {:induction false} FilterFilter<T(!new)>(s: seq<T>, first: T -> bool, second: T -> bool, both: T -> bool)
    requires forall x :: both(x) == (first(x) && second(x))
    ensures Filter(Filter(s, first), second) == Filter(s, both)
  {
    if |s| > 0 {
      FilterFilter(s[..|s| - 1], first, second, both);
      var last := s[|s| - 1];
      FilterAppend(Filter(s[..|s| - 1], first), if first(last) then [last] else [], second);
      assert [last][..0] == [];
    }
  }

  /** Filtering by two predicates that agree everywhere gives the same result. */
  lemma {:induction false} FilterSame<T(!new)>(s: seq<T>, f: T -> bool, g: T -> bool)
    requires forall x :: f(x) == g(x)
    ensures Filter(s, f) == Filter(s, g)
  {
    if |s| > 0 {
      FilterSame(s[..|s| - 1], f, g);
    }
  }

  /** The multiset of a filtered sequence. */
  lemma {:induction false} FilterMultiset<T(!new)>(s: seq<T>, keep: T -> bool, x: T)
    ensures multiset(Filter(s, keep))[x] == if keep(x) then multiset(s)[x] else 0
  {
    if |s| > 0 {
      FilterMultiset(s[..|s| - 1], keep, x);
      assert s == s[..|s| - 1] + [s[|s| - 1]];
    }
  }

  /** A filtered sequence keeps no repetitions. */
  lemma {:induction false} FilterDistinct<T(!new)>(s: seq<T>, keep: T -> bool)
    requires Distinct(s)
    ensures Distinct(Filter(s, keep))
  {
    if |s| > 0 {
      var init := s[..|s| - 1];
      assert Distinct(init);
      FilterDistinct(init, keep);
      assert s[|s| - 1] !in init;
    }
  }

  /**
   * Filtering keeps relative order: in a sequence without repetitions, an element kept before
   * another one also stood before it in the input.
   */
  lemma {:induction false} FilterKeepsOrder<T(!new)>(s: seq<T>, keep: T -> bool, k: nat, l: nat)
    requires Distinct(s)
    requires k < l < |Filter(s, keep)|
    ensures IndexOf(s, Filter(s, keep)[k]) < IndexOf(s, Filter(s, keep)[l])
  {
    var n := |s| - 1;
    var init := s[..n];
    var r := Filter(s, keep);
    assert Distinct(init);
    var x, y := r[k], r[l];
    var ix := IndexOf(s, x);
    var iy := IndexOf(s, y);
    if l < |Filter(init, keep)| {
      FilterKeepsOrder(init, keep, k, l);
      assert x in init && y in init;
      assert IndexOf(s, x) == IndexOf(init, x) by { IndexOfPrefix(s, n, x); }
      assert IndexOf(s, y) == IndexOf(init, y) by { IndexOfPrefix(s, n, y); }
    } else {
      assert y == s[n];
      IndexOfDistinct(s, n);
      assert x in init;
      IndexOfPrefix(s, n, x);
    }
  }

  /** `r` is read off `s` at the strictly increasing positions `idx`. */
  ghost predicate IncreasingPositions<T>(s: seq<T>, r: seq<T>, idx: seq<nat>) {
    && |idx| == |r|
    && (forall t :: 0 <= t < |idx| ==> idx[t] < |s| && r[t] == s[idx[t]])
    && (forall t, u :: 0 <= t < u < |idx| ==> idx[t] < idx[u])
  }

  /**
   * Filtering keeps exactly the positions whose element passes, in increasing order; unlike
   * `FilterKeepsOrder` this holds for inputs with repetitions as well.
   */
  lemma {:induction false} FilterPositions<T(!new)>(s: seq<T>, keep: T -> bool) returns (idx: seq<nat>)
    ensures IncreasingPositions(s, Filter(s, keep), idx)
    ensures forall i :: 0 <= i < |s| ==> (i in idx <==> keep(s[i]))
  {
    if |s| == 0 {
      idx := [];
    } else {
      var init, last := s[..|s| - 1], s[|s| - 1];
      var front := FilterPositions(init, keep);
      idx := PositionsStep(init, last, keep, Filter(init, keep), front);
      assert init + [last] == s;
    }
  }

  /** The inductive step of `FilterPositions`: the new last position joins when its element passes. */
  lemma PositionsStep<T>(init: seq<T>, last: T, keep: T -> bool, r0: seq<T>, front: seq<nat>) returns (idx: seq<nat>)
    requires IncreasingPositions(init, r0, front)
    requires forall i :: 0 <= i < |init| ==> (i in front <==> keep(init[i]))
    ensures IncreasingPositions(init + [last], r0 + (if keep(last) then [last] else []), idx)
    ensures forall i :: 0 <= i < |init| + 1 ==> (i in idx <==> keep((init + [last])[i]))
  {
    PositionsExtend(init, last, r0, front);
    if keep(last) {
      PositionsPush(init, last, r0, front);
      idx := front + [|init|];
      assert r0 + (if keep(last) then [last] else []) == r0 + [last];
    } else {
      idx := front;
      assert r0 + (if keep(last) then [last] else []) == r0;
    }
    forall i | 0 <= i < |init| + 1 ensures i in idx <==> keep((init + [last])[i]) {
      if i < |init| {
        assert (init + [last])[i] == init[i];
        assert i in idx <==> i in front;
      } else {
        assert (init + [last])[i] == last;
      }
    }
  }

  /** Positions into `init` remain positions into `init + [last]`, all below `|init|`. */
  lemma PositionsExtend<T>(init: seq<T>, last: T, r0: seq<T>, front: seq<nat>)
    requires IncreasingPositions(init, r0, front)
    ensures IncreasingPositions(init + [last], r0, front)
    ensures |init| !in front
  {
    forall t | 0 <= t < |front| ensures front[t] < |init| && r0[t] == (init + [last])[front[t]] {
      assert r0[t] == init[front[t]];
    }
  }

  /** Appending the last position keeps the positions increasing and reads off `last`. */
  lemma PositionsPush<T>(init: seq<T>, last: T, r0: seq<T>, front: seq<nat>)
    requires IncreasingPositions(init, r0, front)
    ensures IncreasingPositions(init + [last], r0 + [last], front + [|init|])
  {
    PositionsExtend(init, last, r0, front);
    var s, r, idx := init + [last], r0 + [last], front + [|init|];
    forall t | 0 <= t < |idx| ensures idx[t] < |s| && r[t] == s[idx[t]] {
      if t < |front| {
        assert idx[t] == front[t] && r[t] == r0[t];
      }
    }
    forall t, u | 0 <= t < u < |idx| ensures idx[t] < idx[u] {
      assert idx[t] == front[t];
      if u < |front| {
        assert idx[u] == front[u];
      }
    }
  }

  /** A prefix one longer is the prefix followed by the next element. */
  lemma PrefixStep<T>(s: seq<T>, n: nat)
    requires n < |s|
    ensures s[..n + 1] == s[..n] + [s[n]]
  {
  }

  /** `indexOf` of an element of a prefix is found within that prefix. */
  lemma IndexOfPrefix<T>(s: seq<T>, n: nat, x: T)
    requires n <= |s| && x in s[..n]
    ensures IndexOf(s, x) == IndexOf(s[..n], x) < n
  {
    var i := IndexOf(s, x);
    var j := IndexOf(s[..n], x);
    assert s[..n][j] == s[j];
    assert s[..n][..j] == s[..j];
  }

  /** `reduce((acc, x) => acc + x, 0)`. */
  function Sum(xs: seq<int>): int {
    if |xs| == 0 then 0 else Sum(xs[..|xs| - 1]) + xs[|xs| - 1]
  }

  /** `reduce((acc, x) => Math.max(acc, x), -1)`: the largest element, or -1 when empty. */
  function MaxOf(xs: seq<int>): (m: int)
    ensures forall i :: 0 <= i < |xs| ==> xs[i] <= m
    ensures m == -1 || exists i :: 0 <= i < |xs| && xs[i] == m
  {
    if |xs| == 0 then -1
    else
      var m := MaxOf(xs[..|xs| - 1]);
      if m < xs[|xs| - 1] then xs[|xs| - 1] else m
  }

  /** A sum of non-negative terms is non-negative. */
  lemma {:induction false} SumNonNegative(xs: seq<int>)
    requires forall i :: 0 <= i < |xs| ==> xs[i] >= 0
    ensures Sum(xs) >= 0
  {
    if |xs| > 0 {
      SumNonNegative(xs[..|xs| - 1]);
    }
  }
}
