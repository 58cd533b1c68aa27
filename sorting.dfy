/**
 * `Array.prototype.sort` with a comparator, and `String.prototype.localeCompare`.
 *
 * The engine sorts with comparators such as `(a, b) => b.totalPoints - a.totalPoints`, relying on
 * the sort being stable. A comparator is described here by `leq(a, b)`, "a may stand before b",
 * a total preorder; the sort is an insertion sort over the positions of the input, which yields
 * the unique stable order: sorted by `leq`, and equivalent elements in input order.
 */
module Sorting {

  import opened Seqs

  /** `leq` is total and transitive: what a consistent comparator describes. */
  ghost predicate TotalPreorder<T(!new)>(leq: (T, T) -> bool) {
    && (forall a, b :: leq(a, b) || leq(b, a))
    && (forall a, b, c :: leq(a, b) && leq(b, c) ==> leq(a, c))
  }

  /** Every entry of `order` is a position below `n`. */
  predicate Below(order: seq<nat>, n: nat) {
    forall k :: 0 <= k < |order| ==> order[k] < n
  }

  /** The positions in `order` are sorted by `leq` of the elements they point at, ties by position. */
  predicate StablyOrdered<T>(s: seq<T>, leq: (T, T) -> bool, order: seq<nat>)
    requires Below(order, |s|)
  {
    forall k, l :: 0 <= k < l < |order| ==>
      leq(s[order[k]], s[order[l]]) && (leq(s[order[l]], s[order[k]]) ==> order[k] < order[l])
  }

  /** Where position `x` goes in `order`: after every entry that may stand before `s[x]`. */
  function InsertPos<T>(s: seq<T>, leq: (T, T) -> bool, order: seq<nat>, x: nat): (p: nat)
    requires x < |s| && Below(order, |s|)
    ensures p <= |order|
    ensures forall k :: 0 <= k < p ==> leq(s[order[k]], s[x])
    ensures p < |order| ==> !leq(s[order[p]], s[x])
  {
    if |order| == 0 || !leq(s[order[0]], s[x]) then 0
    else 1 + InsertPos(s, leq, order[1..], x)
  }

  /** The positions `0 .. n-1` of `s`, arranged by insertion sort. */
  function SortIndices<T>(s: seq<T>, leq: (T, T) -> bool, n: nat): (order: seq<nat>)
    requires n <= |s|
    ensures |order| == n && Below(order, n)
  {
    if n == 0 then []
    else
      var order := SortIndices(s, leq, n - 1);
      var p := InsertPos(s, leq, order, n - 1);
      order[..p] + [n - 1] + order[p..]
  }

  /** The elements that the positions in `order` point at. */
  function Gather<T>(s: seq<T>, order: seq<nat>): (r: seq<T>)
    requires Below(order, |s|)
    ensures |r| == |order|
  {
    seq(|order|, k requires 0 <= k < |order| => s[order[k]])
  }

  /** `[...s].sort(cmp)` where `leq` describes `cmp(a, b) <= 0`. */
  function StableSort<T>(s: seq<T>, leq: (T, T) -> bool): (r: seq<T>)
    ensures |r| == |s|
  {
    Gather(s, SortIndices(s, leq, |s|))
  }

  /** Inserting a new position keeps the positions free of repetitions and loses none. */
  lemma InsertFresh(order: seq<nat>, p: nat, x: nat)
    requires p <= |order| && Distinct(order) && x !in order
    ensures Distinct(order[..p] + [x] + order[p..])
    ensures forall d :: d in order ==> d in order[..p] + [x] + order[p..]
  {
    var r := order[..p] + [x] + order[p..];
    forall k, l | 0 <= k < l < |r| ensures r[k] != r[l] {
      if l < p {
      } else if l == p {
      } else if k < p {
        assert r[l] == order[l - 1];
      } else if k == p {
        assert r[l] == order[l - 1];
      } else {
        assert r[k] == order[k - 1] && r[l] == order[l - 1];
      }
    }
    assert order == order[..p] + order[p..];
  }

  /** Every position below `n` occurs exactly once in the sorted positions. */
  lemma {:induction false} SortIndicesPermutation<T>(s: seq<T>, leq: (T, T) -> bool, n: nat)
    requires n <= |s|
    ensures Distinct(SortIndices(s, leq, n))
    ensures forall d :: 0 <= d < n ==> d in SortIndices(s, leq, n)
  {
    if n > 0 {
      SortIndicesPermutation(s, leq, n - 1);
      var order := SortIndices(s, leq, n - 1);
      var p := InsertPos(s, leq, order, n - 1);
      assert order[..p] + [n - 1] + order[p..] == SortIndices(s, leq, n);
      InsertFresh(order, p, n - 1);
    }
  }

  /** The sorted positions are stably ordered. */
  lemma {:induction false} SortIndicesOrdered<T(!new)>(s: seq<T>, leq: (T, T) -> bool, n: nat)
    requires n <= |s| && TotalPreorder(leq)
    ensures StablyOrdered(s, leq, SortIndices(s, leq, n))
  {
    if n > 0 {
      SortIndicesOrdered(s, leq, n - 1);
      var order := SortIndices(s, leq, n - 1);
      var p := InsertPos(s, leq, order, n - 1);
      InsertOrdered(s, leq, order, n - 1, p);
    }
  }

  /**
   * Inserting a new, largest position `x` after exactly the entries that may stand before `s[x]`
   * keeps the positions stably ordered.
   */
  lemma InsertOrdered<T(!new)>(s: seq<T>, leq: (T, T) -> bool, order: seq<nat>, x: nat, p: nat)
    requires TotalPreorder(leq) && x < |s| && Below(order, x) && Below(order, |s|) && p <= |order|
    requires StablyOrdered(s, leq, order)
    requires forall k :: 0 <= k < p ==> leq(s[order[k]], s[x])
    requires p < |order| ==> !leq(s[order[p]], s[x])
    ensures Below(order[..p] + [x] + order[p..], |s|)
    ensures StablyOrdered(s, leq, order[..p] + [x] + order[p..])
  {
    var r := order[..p] + [x] + order[p..];
    assert forall k :: 0 <= k < p ==> r[k] == order[k];
    assert r[p] == x;
    assert forall k :: p < k < |r| ==> r[k] == order[k - 1];
    // Everything after the insertion point sorts strictly after s[x].
    forall q | p <= q < |order| ensures !leq(s[order[q]], s[x]) && leq(s[x], s[order[q]]) {
      if q > p {
        assert leq(s[order[p]], s[order[q]]);
      }
    }
    forall k, l | 0 <= k < l < |r|
      ensures leq(s[r[k]], s[r[l]]) && (leq(s[r[l]], s[r[k]]) ==> r[k] < r[l])
    {
      if l < p {
      } else if l == p {
      } else if k < p {
        assert leq(s[order[k]], s[x]);
      } else if k == p {
      } else {
        assert r[k] == order[k - 1] && r[l] == order[l - 1];
      }
    }
  }

  /** Inserting position `x` adds the element `s[x]` to what the positions point at. */
  lemma GatherInsert<T>(s: seq<T>, order: seq<nat>, p: nat, x: nat)
    requires p <= |order| && Below(order, |s|) && x < |s|
    ensures Below(order[..p] + [x] + order[p..], |s|)
    ensures multiset(Gather(s, order[..p] + [x] + order[p..])) == multiset(Gather(s, order)) + multiset{s[x]}
  {
    assert Gather(s, order[..p] + [x] + order[p..]) == Gather(s, order[..p]) + [s[x]] + Gather(s, order[p..]);
    assert Gather(s, order) == Gather(s, order[..p]) + Gather(s, order[p..]);
  }

  /** The sorted sequence has the input's elements, each as often as in the input. */
  lemma {:induction false} SortIndicesMultiset<T>(s: seq<T>, leq: (T, T) -> bool, n: nat)
    requires n <= |s|
    ensures multiset(Gather(s, SortIndices(s, leq, n))) == multiset(s[..n])
  {
    if n > 0 {
      SortIndicesMultiset(s, leq, n - 1);
      var order := SortIndices(s, leq, n - 1);
      var p := InsertPos(s, leq, order, n - 1);
      assert order[..p] + [n - 1] + order[p..] == SortIndices(s, leq, n);
      GatherInsert(s, order, p, n - 1);
      PrefixStep(s, n - 1);
    }
  }

  /**
   * The contract of a stable sort: a permutation of the input, ordered by `leq`, and equivalent
   * elements keep the order of their positions in the input.
   */
  lemma StableSortSpec<T(!new)>(s: seq<T>, leq: (T, T) -> bool)
    requires TotalPreorder(leq)
    ensures var order := SortIndices(s, leq, |s|);
      && StableSort(s, leq) == Gather(s, order)
      && Distinct(order) && (forall d :: 0 <= d < |s| ==> d in order)
      && StablyOrdered(s, leq, order)
      && multiset(StableSort(s, leq)) == multiset(s)
  {
    SortIndicesPermutation(s, leq, |s|);
    SortIndicesOrdered(s, leq, |s|);
    SortIndicesMultiset(s, leq, |s|);
    assert s[..|s|] == s;
  }

  /** The sorted sequence is ordered by `leq`. */
  lemma StableSortSorted<T(!new)>(s: seq<T>, leq: (T, T) -> bool)
    requires TotalPreorder(leq)
    ensures forall k, l :: 0 <= k < l < |s| ==> leq(StableSort(s, leq)[k], StableSort(s, leq)[l])
  {
    StableSortSpec(s, leq);
  }

  /**
   * Stability stated on the elements: in an input without repetitions, two equivalent elements
   * of the output stand in the order they had in the input.
   */
  lemma StableSortKeepsTies<T(!new)>(s: seq<T>, leq: (T, T) -> bool, k: nat, l: nat)
    requires TotalPreorder(leq) && Distinct(s)
    requires k < l < |s| && leq(StableSort(s, leq)[l], StableSort(s, leq)[k])
    ensures IndexOf(s, StableSort(s, leq)[k]) < IndexOf(s, StableSort(s, leq)[l])
  {
    StableSortSpec(s, leq);
    var order := SortIndices(s, leq, |s|);
    IndexOfDistinct(s, order[k]);
    IndexOfDistinct(s, order[l]);
  }

  /** The comparator `(a, b) => a - b` on numbers. */
  predicate Ascending(a: int, b: int) {
    a <= b
  }

  lemma AscendingTotalPreorder()
    ensures TotalPreorder(Ascending)
  {
  }

  /** Two ascending sequences with the same elements are equal. */
  lemma {:induction false} AscendingUnique(a: seq<int>, b: seq<int>)
    requires forall k, l :: 0 <= k < l < |a| ==> a[k] <= a[l]
    requires forall k, l :: 0 <= k < l < |b| ==> b[k] <= b[l]
    requires multiset(a) == multiset(b)
    ensures a == b
  {
    assert |a| == |multiset(a)| == |b|;
    if |a| > 0 {
      assert a[0] in multiset(b) && b[0] in multiset(a);
      assert a[0] == b[0];
      assert a == [a[0]] + a[1..] && b == [b[0]] + b[1..];
      assert multiset(a[1..]) == multiset(b[1..]) by {
        assert multiset(a) == multiset{a[0]} + multiset(a[1..]);
        assert multiset(b) == multiset{b[0]} + multiset(b[1..]);
        forall y ensures multiset(a[1..])[y] == multiset(b[1..])[y] {
          assert multiset(a)[y] == multiset{a[0]}[y] + multiset(a[1..])[y];
          assert multiset(b)[y] == multiset{b[0]}[y] + multiset(b[1..])[y];
        }
      }
      AscendingUnique(a[1..], b[1..]);
    }
  }

  /** `localeCompare(a, b) <= 0`, modelled as the lexicographic order of the characters. */
  predicate LexLeq(a: string, b: string) {
    |a| == 0 || (|b| > 0 && (a[0] < b[0] || (a[0] == b[0] && LexLeq(a[1..], b[1..]))))
  }

  lemma {:induction false} LexLeqTotal(a: string, b: string)
    ensures LexLeq(a, b) || LexLeq(b, a)
  {
    if |a| > 0 && |b| > 0 && a[0] == b[0] {
      LexLeqTotal(a[1..], b[1..]);
    }
  }

  lemma {:induction false} LexLeqTransitive(a: string, b: string, c: string)
    requires LexLeq(a, b) && LexLeq(b, c)
    ensures LexLeq(a, c)
  {
    if |a| > 0 && a[0] == b[0] && b[0] == c[0] {
      LexLeqTransitive(a[1..], b[1..], c[1..]);
    }
  }

  /** Only equal strings compare equal. */
  lemma {:induction false} LexLeqAntisymmetric(a: string, b: string)
    requires LexLeq(a, b) && LexLeq(b, a)
    ensures a == b
  {
    if |a| > 0 {
      LexLeqAntisymmetric(a[1..], b[1..]);
    }
  }

  /** Ordering records by a string key with `localeCompare` is a total preorder. */
  lemma LexKeyTotalPreorder<T(!new)>(key: T -> string, leq: (T, T) -> bool)
    requires forall a, b :: leq(a, b) == LexLeq(key(a), key(b))
    ensures TotalPreorder(leq)
  {
    forall a, b ensures leq(a, b) || leq(b, a) {
      LexLeqTotal(key(a), key(b));
    }
    forall a, b, c | leq(a, b) && leq(b, c) ensures leq(a, c) {
      LexLeqTransitive(key(a), key(b), key(c));
    }
  }

  /** Ordering records by an integer key (ascending or descending) is a total preorder. */
  lemma IntKeyTotalPreorder<T(!new)>(key: T -> int, leq: (T, T) -> bool)
    requires (forall a, b :: leq(a, b) == (key(a) <= key(b))) || (forall a, b :: leq(a, b) == (key(a) >= key(b)))
    ensures TotalPreorder(leq)
  {
  }
}
