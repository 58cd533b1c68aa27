/**
 * `RankingAlgorithm.generatePermutations` (utils/ranking-algorithm.ts): all orderings of a list,
 * built by inserting the first element at every position of every ordering of the rest.
 */
module Permutations {

  import opened Seqs

  function Fact(n: nat): nat {
    if n == 0 then 1 else n * Fact(n - 1)
  }

  /** `Array.from({ length: k }, (_, i) => i + 1)`: the ranking `[1, 2, ..., k]`. */
  function Iota(k: nat): (r: seq<int>)
    ensures |r| == k && forall i :: 0 <= i < k ==> r[i] == i + 1
  {
    seq(k, i => i + 1)
  }

  /** `p` gives the ranks 1 .. |p|, each exactly once. */
  predicate IsRanking(p: seq<int>) {
    multiset(p) == multiset(Iota(|p|))
  }

  /** `[...prefix, x, ...suffix]`: `x` inserted into `q` before position `i`. */
  function InsertAt<T>(q: seq<T>, i: nat, x: T): (r: seq<T>)
    requires i <= |q|
    ensures |r| == |q| + 1 && r[i] == x
  {
    q[..i] + [x] + q[i..]
  }

  /** The inner loop: `x` inserted at each position `0 .. |q|` of `q`, in that order. */
  function Spread<T>(q: seq<T>, x: T): (r: seq<seq<T>>)
    ensures |r| == |q| + 1
  {
    seq(|q| + 1, i requires 0 <= i <= |q| => InsertAt(q, i, x))
  }

  /** The outer loop: `Spread` over each smaller permutation, in order. */
  function InsertEverywhere<T>(ps: seq<seq<T>>, x: T): seq<seq<T>> {
    if |ps| == 0 then [] else InsertEverywhere(ps[..|ps| - 1], x) + Spread(ps[|ps| - 1], x)
  }

  /** The list `generatePermutations(s)` returns. */
  function Perms<T>(s: seq<T>): seq<seq<T>>
    decreases |s|
  {
    if |s| <= 1 then [s] else InsertEverywhere(Perms(s[1..]), s[0])
  }

  /** The recursive generator with its two nested loops, pushing onto a result list. */
  method GeneratePermutations<T>(arr: seq<T>) returns (permutations: seq<seq<T>>)
    ensures permutations == Perms(arr)
    decreases |arr|
  {
    if |arr| <= 1 {
      return [arr];
    }
    permutations := [];
    var smallerPerms := GeneratePermutations(arr[1..]);
    var firstElement := arr[0];
    var n := 0;
    while n < |smallerPerms|
      invariant 0 <= n <= |smallerPerms|
      invariant permutations == InsertEverywhere(smallerPerms[..n], firstElement)
    {
      permutations := InsertAtEveryPosition(permutations, smallerPerms[n], firstElement);
      assert smallerPerms[..n + 1][..n] == smallerPerms[..n];
      n := n + 1;
    }
    assert smallerPerms[..n] == smallerPerms;
  }

  /** The inner loop of the generator: pushes `permutation` with `firstElement` at each position. */
  method InsertAtEveryPosition<T>(permutations: seq<seq<T>>, permutation: seq<T>, firstElement: T)
    returns (result: seq<seq<T>>)
    ensures result == permutations + Spread(permutation, firstElement)
  {
    result := permutations;
    var i := 0;
    while i <= |permutation|
      invariant 0 <= i <= |permutation| + 1
      invariant result == permutations + Spread(permutation, firstElement)[..i]
    {
      var prefix := permutation[..i];
      var suffix := permutation[i..];
      PrefixStep(Spread(permutation, firstElement), i);
      result := result + [prefix + [firstElement] + suffix];
      i := i + 1;
    }
    assert Spread(permutation, firstElement)[..i] == Spread(permutation, firstElement);
  }

  // ----- Size -----

  lemma {:induction false} InsertEverywhereSize<T>(ps: seq<seq<T>>, x: T, n: nat)
    requires forall k :: 0 <= k < |ps| ==> |ps[k]| == n
    ensures |InsertEverywhere(ps, x)| == |ps| * (n + 1)
  {
    if |ps| > 0 {
      var init := ps[..|ps| - 1];
      InsertEverywhereSize(init, x, n);
      var m := |init|;
      assert (m + 1) * (n + 1) == m * (n + 1) + (n + 1);
    }
  }

  lemma {:induction false} InsertEverywhereLengths<T>(ps: seq<seq<T>>, x: T, n: nat)
    requires forall k :: 0 <= k < |ps| ==> |ps[k]| == n
    ensures forall k :: 0 <= k < |InsertEverywhere(ps, x)| ==> |InsertEverywhere(ps, x)[k]| == n + 1
  {
    if |ps| > 0 {
      InsertEverywhereLengths(ps[..|ps| - 1], x, n);
    }
  }

  /** `generatePermutations` returns `n!` lists, each as long as the input. */
  lemma {:induction false} PermsSize<T>(s: seq<T>)
    ensures |Perms(s)| == Fact(|s|)
    ensures forall k :: 0 <= k < |Perms(s)| ==> |Perms(s)[k]| == |s|
  {
    if |s| > 1 {
      PermsSize(s[1..]);
      InsertEverywhereSize(Perms(s[1..]), s[0], |s| - 1);
      InsertEverywhereLengths(Perms(s[1..]), s[0], |s| - 1);
    }
  }

  // ----- Every list is a permutation of the input -----

  lemma {:induction false} InsertEverywhereMultiset<T>(ps: seq<seq<T>>, x: T, m: multiset<T>)
    requires forall k :: 0 <= k < |ps| ==> multiset(ps[k]) == m
    ensures forall k :: 0 <= k < |InsertEverywhere(ps, x)| ==> multiset(InsertEverywhere(ps, x)[k]) == m + multiset{x}
  {
    if |ps| > 0 {
      var init := ps[..|ps| - 1];
      InsertEverywhereMultiset(init, x, m);
      var q := ps[|ps| - 1];
      forall i | 0 <= i <= |q| ensures multiset(InsertAt(q, i, x)) == m + multiset{x} {
        assert q == q[..i] + q[i..];
        assert multiset(q) == multiset(q[..i]) + multiset(q[i..]);
      }
    }
  }

  /** Each list `generatePermutations(s)` returns is a permutation of `s`. */
  lemma {:induction false} PermsArePermutations<T>(s: seq<T>)
    ensures forall k :: 0 <= k < |Perms(s)| ==> multiset(Perms(s)[k]) == multiset(s)
  {
    if |s| > 1 {
      PermsArePermutations(s[1..]);
      InsertEverywhereMultiset(Perms(s[1..]), s[0], multiset(s[1..]));
      assert s == [s[0]] + s[1..];
    }
  }

  // ----- Every permutation of the input is listed -----

  lemma {:induction false} InsertEverywhereContains<T>(ps: seq<seq<T>>, x: T, q: seq<T>, i: nat)
    requires q in ps && i <= |q|
    ensures InsertAt(q, i, x) in InsertEverywhere(ps, x)
  {
    var init := ps[..|ps| - 1];
    if q == ps[|ps| - 1] {
      assert Spread(q, x)[i] == InsertAt(q, i, x);
    } else {
      assert q in init;
      InsertEverywhereContains(init, x, q, i);
    }
  }

  /** Removing the element at `i` and inserting it back at `i` undoes the removal. */
  lemma RemoveAt<T>(p: seq<T>, i: nat)
    requires i < |p|
    ensures multiset(p[..i] + p[i + 1..]) == multiset(p) - multiset{p[i]}
    ensures InsertAt(p[..i] + p[i + 1..], i, p[i]) == p
  {
    assert p == p[..i] + [p[i]] + p[i + 1..];
  }

  /** Every permutation of `s` is among the lists `generatePermutations(s)` returns. */
  lemma {:induction false} PermsComplete<T>(s: seq<T>, p: seq<T>)
    requires multiset(p) == multiset(s)
    ensures p in Perms(s)
  {
    assert |p| == |multiset(p)| == |s|;
    if |s| == 1 {
      assert p[0] in multiset(s);
      assert p == [p[0]] && s == [s[0]] && p[0] == s[0];
    } else if |s| > 1 {
      var x := s[0];
      assert x in multiset(p);
      var i :| 0 <= i < |p| && p[i] == x;
      var q := p[..i] + p[i + 1..];
      RemoveAt(p, i);
      RemoveAt(s, 0);
      assert s[..0] + s[1..] == s[1..];
      PermsComplete(s[1..], q);
      InsertEverywhereContains(Perms(s[1..]), x, q, i);
    }
  }

  // ----- No list is returned twice -----

  /** An element that occurs once marks where it was inserted; removing it gives the list back. */
  lemma InsertAtInjective<T>(q1: seq<T>, i: nat, q2: seq<T>, j: nat, x: T)
    requires i <= |q1| && j <= |q2| && x !in q1 && x !in q2
    requires InsertAt(q1, i, x) == InsertAt(q2, j, x)
    ensures i == j && q1 == q2
  {
    var r := InsertAt(q1, i, x);
    assert q1 == r[..i] + r[i + 1..];
  }

  lemma InsertEverywhereMember<T>(ps: seq<seq<T>>, x: T, r: seq<T>)
    requires r in InsertEverywhere(ps, x)
    ensures exists q: seq<T>, i: nat :: q in ps && i <= |q| && r == InsertAt(q, i, x)
    decreases |ps|
  {
    var init := ps[..|ps| - 1];
    if r in InsertEverywhere(init, x) {
      InsertEverywhereMember(init, x, r);
      var q: seq<T>, i: nat :| q in init && i <= |q| && r == InsertAt(q, i, x);
      assert q in ps;
    } else {
      var q := ps[|ps| - 1];
      var i :| 0 <= i < |Spread(q, x)| && Spread(q, x)[i] == r;
    }
  }

  lemma {:induction false} InsertEverywhereDistinct<T>(ps: seq<seq<T>>, x: T)
    requires Distinct(ps) && forall q :: q in ps ==> x !in q
    ensures Distinct(InsertEverywhere(ps, x))
  {
    if |ps| > 0 {
      var init := ps[..|ps| - 1];
      var last := ps[|ps| - 1];
      assert Distinct(init);
      InsertEverywhereDistinct(init, x);
      var a := InsertEverywhere(init, x);
      var b := Spread(last, x);
      forall k, l | 0 <= k < l < |b| ensures b[k] != b[l] {
        if b[k] == b[l] { InsertAtInjective(last, k, last, l, x); }
      }
      forall k, l | 0 <= k < |a| && 0 <= l < |b| ensures a[k] != b[l] {
        InsertEverywhereMember(init, x, a[k]);
        var q: seq<T>, i: nat :| q in init && i <= |q| && a[k] == InsertAt(q, i, x);
        if a[k] == b[l] {
          InsertAtInjective(q, i, last, l, x);
        }
      }
      var r := a + b;
      forall k, l | 0 <= k < l < |r| ensures r[k] != r[l] {
        if l < |a| {
        } else if k >= |a| {
          assert r[k] == b[k - |a|] && r[l] == b[l - |a|];
        } else {
          assert r[l] == b[l - |a|];
        }
      }
    }
  }

  /** For an input without repetitions the lists are pairwise distinct. */
  lemma {:induction false} PermsDistinct<T>(s: seq<T>)
    requires Distinct(s)
    ensures Distinct(Perms(s))
  {
    if |s| > 1 {
      assert Distinct(s[1..]);
      PermsDistinct(s[1..]);
      PermsArePermutations(s[1..]);
      forall q | q in Perms(s[1..]) ensures s[0] !in q {
        assert s[0] !in s[1..];
        assert multiset(q)[s[0]] == multiset(s[1..])[s[0]] == 0;
      }
      InsertEverywhereDistinct(Perms(s[1..]), s[0]);
    }
  }

  /** An input of length at most one comes back as the only list. */
  lemma PermsOfShort<T>(s: seq<T>)
    requires |s| <= 1
    ensures Perms(s) == [s]
  {
  }

  // ----- The permutations of [1 .. k] -----

  lemma IotaDistinct(k: nat)
    ensures Distinct(Iota(k))
  {
  }

  /**
   * The lists generated from `[1 .. k]` are exactly the rankings of length `k`, each once:
   * what `processRankings` searches.
   */
  lemma RankingsOfSize(k: nat)
    ensures |Perms(Iota(k))| == Fact(k)
    ensures Distinct(Perms(Iota(k)))
    ensures forall p :: p in Perms(Iota(k)) <==> |p| == k && IsRanking(p)
  {
    PermsSize(Iota(k));
    IotaDistinct(k);
    PermsDistinct(Iota(k));
    PermsArePermutations(Iota(k));
    forall p | |p| == k && IsRanking(p) ensures p in Perms(Iota(k)) {
      PermsComplete(Iota(k), p);
    }
  }
}
