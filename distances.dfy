/**
 * The distance part of `RankingAlgorithm` (utils/ranking-algorithm.ts): the comparison matrix of
 * a ranking, its flattened upper triangle (the "pairwise code"), and the Cook and Hamming
 * distances.
 */
module Distances {

  import opened Wrappers
  import opened Seqs
  import opened Sorting
  import opened Permutations

  /** The error the distance functions throw when their arguments differ in length. */
  datatype DistanceError = LengthMismatch(message: string)

  // ----- Cook and Hamming distances -----

  /** `a.reduce((sum, value, index) => sum + Math.abs(value - b[index]), 0)`. */
  function AbsDiffSum(a: seq<int>, b: seq<int>): int
    requires |a| == |b|
  {
    if |a| == 0 then 0
    else AbsDiffSum(a[..|a| - 1], b[..|b| - 1]) + Abs(a[|a| - 1] - b[|b| - 1])
  }

  function Abs(x: int): int {
    if x < 0 then -x else x
  }

  lemma {:induction false} AbsDiffSumZero(a: seq<int>, b: seq<int>)
    requires |a| == |b|
    ensures AbsDiffSum(a, b) >= 0
    ensures AbsDiffSum(a, b) == 0 <==> a == b
  {
    if |a| > 0 {
      var n := |a| - 1;
      AbsDiffSumZero(a[..n], b[..n]);
      assert a == a[..n] + [a[n]] && b == b[..n] + [b[n]];
      if a == b {
        assert a[..n] == b[..n];
      }
    }
  }

  lemma {:induction false} AbsDiffSumSymmetric(a: seq<int>, b: seq<int>)
    requires |a| == |b|
    ensures AbsDiffSum(a, b) == AbsDiffSum(b, a)
  {
    if |a| > 0 {
      AbsDiffSumSymmetric(a[..|a| - 1], b[..|b| - 1]);
    }
  }

  lemma {:induction false} AbsDiffSumTriangle(a: seq<int>, b: seq<int>, c: seq<int>)
    requires |a| == |b| == |c|
    ensures AbsDiffSum(a, c) <= AbsDiffSum(a, b) + AbsDiffSum(b, c)
  {
    if |a| > 0 {
      AbsDiffSumTriangle(a[..|a| - 1], b[..|b| - 1], c[..|c| - 1]);
    }
  }

  /**
   * `calculateCookDistance`: throws when the lengths differ, otherwise the sum of the absolute
   * differences, which is never negative and is zero exactly on identical rankings.
   */
  function CalculateCookDistance(a: seq<int>, b: seq<int>): (r: Result<int, DistanceError>)
    ensures r.Failure? <==> |a| != |b|
    ensures r.Success? ==> r.value >= 0 && (r.value == 0 <==> a == b)
    ensures r.Success? ==> r.value == AbsDiffSum(a, b)
  {
    if |a| != |b| then
      Failure(LengthMismatch("Arrays have different length in calculateCookDistance()"))
    else
      AbsDiffSumZero(a, b);
      Success(AbsDiffSum(a, b))
  }

  /** `calculateHammingDistance`: the same formula and length check, applied to pairwise codes. */
  function CalculateHammingDistance(a: seq<int>, b: seq<int>): (r: Result<int, DistanceError>)
    ensures r.Failure? <==> |a| != |b|
    ensures r.Success? ==> r.value >= 0 && (r.value == 0 <==> a == b)
    ensures r.Success? ==> r.value == AbsDiffSum(a, b)
  {
    if |a| != |b| then
      Failure(LengthMismatch("Arrays have different length in calculateHammingDistance()"))
    else
      AbsDiffSumZero(a, b);
      Success(AbsDiffSum(a, b))
  }

  /** Both distances are symmetric, and they fail or succeed together on swapped arguments. */
  lemma DistanceSymmetric(a: seq<int>, b: seq<int>)
    ensures CalculateCookDistance(a, b).Success? == CalculateCookDistance(b, a).Success?
    ensures CalculateCookDistance(a, b).Success? ==>
      CalculateCookDistance(a, b).value == CalculateCookDistance(b, a).value
      && CalculateHammingDistance(a, b).value == CalculateHammingDistance(b, a).value
  {
    if |a| == |b| {
      AbsDiffSumSymmetric(a, b);
    }
  }

  // ----- compare and the comparison matrix -----

  /** `compare(left, right, source)`: 1 when `left` occurs first in `source`, -1 when later. */
  function Compare(left: int, right: int, source: seq<int>): int {
    var lIndex := IndexOf(source, left);
    var rIndex := IndexOf(source, right);
    if lIndex < rIndex then 1 else if lIndex > rIndex then -1 else 0
  }

  lemma CompareAntisymmetric(left: int, right: int, source: seq<int>)
    ensures Compare(left, right, source) == -Compare(right, left, source)
    ensures Compare(left, left, source) == 0
  {
  }

  /** On a ranking without repeated values, compare gives the order of the positions. */
  lemma CompareByPosition(source: seq<int>, i: nat, j: nat)
    requires Distinct(source) && i < |source| && j < |source|
    ensures Compare(source[i], source[j], source) == if i < j then 1 else if i > j then -1 else 0
  {
    IndexOfDistinct(source, i);
    IndexOfDistinct(source, j);
  }

  /** `[...rankedArr].sort((a, b) => a - b)`. */
  function SortedCopy(rankedArr: seq<int>): (s: seq<int>)
    ensures |s| == |rankedArr|
  {
    StableSort(rankedArr, Ascending)
  }

  lemma SortedCopySpec(rankedArr: seq<int>)
    ensures multiset(SortedCopy(rankedArr)) == multiset(rankedArr)
    ensures forall k, l :: 0 <= k < l < |rankedArr| ==> SortedCopy(rankedArr)[k] <= SortedCopy(rankedArr)[l]
  {
    AscendingTotalPreorder();
    StableSortSpec(rankedArr, Ascending);
    StableSortSorted(rankedArr, Ascending);
  }

  /** Position `a` of `s` holds the first occurrence of its value. */
  predicate FirstOccurrence(s: seq<int>, a: nat)
    requires a < |s|
  {
    IndexOf(s, s[a]) == a
  }

  /**
   * The comparison matrix of any row, in closed form. Row and column `a` stand for the value
   * `s[a]` of the sorted copy `s`; a cell is written only when both positions hold the first
   * occurrence of their value (later duplicates are never addressed by `indexOf`), and then it
   * compares where the two values first occur in the row.
   */
  function CompareMatrix(rankedArr: seq<int>): (m: seq<seq<int>>)
    ensures |m| == |rankedArr|
    ensures forall a :: 0 <= a < |m| ==> |m[a]| == |rankedArr|
  {
    var s := SortedCopy(rankedArr);
    var n := |rankedArr|;
    seq(n, a requires 0 <= a < n => seq(n, b requires 0 <= b < n =>
      if FirstOccurrence(s, a) && FirstOccurrence(s, b) then Compare(s[a], s[b], rankedArr) else 0))
  }

  /** The cells the loops of `generateCompareMatrix` have written after rows `< i`, then columns `< j` of row `i`. */
  ghost predicate Written(rankedArr: seq<int>, s: seq<int>, i: nat, j: nat, a: nat, b: nat)
    requires |s| == |rankedArr| && i <= |rankedArr| && j <= |rankedArr| && a < |s| && b < |s|
  {
    && FirstOccurrence(s, a) && FirstOccurrence(s, b)
    && (s[a] in rankedArr[..i] || (i < |rankedArr| && s[a] == rankedArr[i] && s[b] in rankedArr[..j]))
  }

  /** The matrix after rows `< i` and then columns `< j` of row `i`: the closed form on written cells, zero elsewhere. */
  ghost function Expected(rankedArr: seq<int>, s: seq<int>, i: nat, j: nat): seq<seq<int>>
    requires |s| == |rankedArr| && i <= |rankedArr| && j <= |rankedArr|
  {
    seq(|s|, a requires 0 <= a < |s| => seq(|s|, b requires 0 <= b < |s| =>
      if Written(rankedArr, s, i, j, a, b) then Compare(s[a], s[b], rankedArr) else 0))
  }

  /** `generateCompareMatrix`: fills an n-by-n matrix of zeros in two nested index loops. */
  method GenerateCompareMatrix(rankedArr: seq<int>) returns (result: seq<seq<int>>)
    ensures result == CompareMatrix(rankedArr)
  {
    var sortedRanges := SortedCopy(rankedArr);
    var size := |rankedArr|;
    SortedCopySpec(rankedArr);
    result := seq(size, _ => seq(size, _ => 0));
    NothingWritten(rankedArr, sortedRanges, result);
    for i := 0 to size
      invariant result == Expected(rankedArr, sortedRanges, i, 0)
    {
      result := FillCompareRow(rankedArr, sortedRanges, i, result);
    }
    WrittenAll(rankedArr, sortedRanges);
  }

  /** The inner loop of `generateCompareMatrix`: row `i` of the input against every column. */
  method FillCompareRow(rankedArr: seq<int>, sortedRanges: seq<int>, i: nat, matrix: seq<seq<int>>)
    returns (result: seq<seq<int>>)
    requires |sortedRanges| == |rankedArr| && i < |rankedArr|
    requires multiset(rankedArr) == multiset(sortedRanges)
    requires matrix == Expected(rankedArr, sortedRanges, i, 0)
    ensures result == Expected(rankedArr, sortedRanges, i + 1, 0)
  {
    result := matrix;
    var size := |rankedArr|;
    var rowIndex := IndexOf(sortedRanges, rankedArr[i]);
    for j := 0 to size
      invariant result == Expected(rankedArr, sortedRanges, i, j)
    {
      var columnIndex := IndexOf(sortedRanges, rankedArr[j]);
      FillStep(rankedArr, sortedRanges, i, j);
      result := result[rowIndex := result[rowIndex][columnIndex := Compare(rankedArr[i], rankedArr[j], rankedArr)]];
    }
    WrittenNextRow(rankedArr, sortedRanges, i);
  }

  /** Before the loops nothing is written, and the zero matrix is the expected one. */
  lemma NothingWritten(r: seq<int>, s: seq<int>, zero: seq<seq<int>>)
    requires |s| == |r|
    requires zero == seq(|r|, _ => seq(|r|, _ => 0))
    ensures zero == Expected(r, s, 0, 0)
  {
    var e := Expected(r, s, 0, 0);
    assert r[..0] == [];
    forall a | 0 <= a < |s| ensures zero[a] == e[a] {
      assert forall b :: 0 <= b < |s| ==> zero[a][b] == e[a][b];
    }
  }

  /** One write of the inner loop takes the matrix from column `j` to column `j + 1`. */
  lemma FillStep(r: seq<int>, s: seq<int>, i: nat, j: nat)
    requires |s| == |r| && i < |r| && j < |r|
    requires multiset(r) == multiset(s)
    ensures var a0, b0 := IndexOf(s, r[i]), IndexOf(s, r[j]);
      && 0 <= a0 < |s| && 0 <= b0 < |s|
      && var e := Expected(r, s, i, j);
      e[a0 := e[a0][b0 := Compare(r[i], r[j], r)]] == Expected(r, s, i, j + 1)
  {
    assert r[i] in multiset(r) && r[j] in multiset(r);
    var a0, b0 := IndexOf(s, r[i]), IndexOf(s, r[j]);
    var e, f := Expected(r, s, i, j), Expected(r, s, i, j + 1);
    var next := e[a0 := e[a0][b0 := Compare(r[i], r[j], r)]];
    forall a | 0 <= a < |s| ensures next[a] == f[a] {
      FillStepRow(r, s, i, j, a);
    }
  }

  /** The same step, one row of the matrix at a time. */
  lemma FillStepRow(r: seq<int>, s: seq<int>, i: nat, j: nat, a: nat)
    requires |s| == |r| && i < |r| && j < |r| && a < |s|
    requires multiset(r) == multiset(s)
    ensures var a0, b0 := IndexOf(s, r[i]), IndexOf(s, r[j]);
      && 0 <= a0 < |s| && 0 <= b0 < |s|
      && (a == a0 ==> Expected(r, s, i, j)[a][b0 := Compare(r[i], r[j], r)] == Expected(r, s, i, j + 1)[a])
      && (a != a0 ==> Expected(r, s, i, j)[a] == Expected(r, s, i, j + 1)[a])
  {
    assert r[i] in multiset(r) && r[j] in multiset(r);
    var a0, b0 := IndexOf(s, r[i]), IndexOf(s, r[j]);
    var row, next := Expected(r, s, i, j)[a], Expected(r, s, i, j + 1)[a];
    if a == a0 {
      forall b | 0 <= b < |s| ensures row[b0 := Compare(r[i], r[j], r)][b] == next[b] {
        WrittenStep(r, s, i, j, a, b);
      }
    } else {
      forall b | 0 <= b < |s| ensures row[b] == next[b] {
        WrittenStep(r, s, i, j, a, b);
      }
    }
  }

  /** Writing cell (indexOf(s, r[i]), indexOf(s, r[j])) is exactly the step from column `j` to `j + 1`. */
  lemma WrittenStep(r: seq<int>, s: seq<int>, i: nat, j: nat, a: nat, b: nat)
    requires |s| == |r| && i < |r| && j < |r| && a < |s| && b < |s|
    requires multiset(r) == multiset(s)
    ensures var a0, b0 := IndexOf(s, r[i]), IndexOf(s, r[j]);
      && 0 <= a0 < |s| && 0 <= b0 < |s| && s[a0] == r[i] && s[b0] == r[j]
      && (a == a0 && b == b0 ==> Written(r, s, i, j + 1, a, b))
      && (a != a0 || b != b0 ==> (Written(r, s, i, j + 1, a, b) <==> Written(r, s, i, j, a, b)))
  {
    assert r[i] in multiset(r) && r[j] in multiset(r);
    assert r[..j + 1] == r[..j] + [r[j]];
  }

  /** Finishing row `i` (all columns written) is the same as starting row `i + 1`. */
  lemma WrittenNextRow(r: seq<int>, s: seq<int>, i: nat)
    requires |s| == |r| && i < |r|
    requires multiset(r) == multiset(s)
    ensures Expected(r, s, i, |r|) == Expected(r, s, i + 1, 0)
  {
    var e, f := Expected(r, s, i, |r|), Expected(r, s, i + 1, 0);
    assert r[..|r|] == r;
    assert r[..i + 1] == r[..i] + [r[i]];
    assert r[..0] == [];
    forall a | 0 <= a < |s| ensures e[a] == f[a] {
      forall b | 0 <= b < |s| ensures e[a][b] == f[a][b] {
        var v := s[b];
        assert v in multiset(s);
        assert v in r;
        assert s[a] in r[..i + 1] <==> s[a] in r[..i] || s[a] == r[i];
        assert Written(r, s, i, |r|, a, b) <==> Written(r, s, i + 1, 0, a, b);
      }
    }
  }

  /** After the last row, the written cells are those of the closed form. */
  lemma WrittenAll(r: seq<int>, s: seq<int>)
    requires |s| == |r| && s == SortedCopy(r)
    requires multiset(r) == multiset(s)
    ensures Expected(r, s, |r|, 0) == CompareMatrix(r)
  {
    var e, m := Expected(r, s, |r|, 0), CompareMatrix(r);
    assert r[..|r|] == r;
    forall a | 0 <= a < |s| ensures e[a] == m[a] {
      var v := s[a];
      assert v in multiset(s);
      assert v in r;
      forall b | 0 <= b < |s| ensures e[a][b] == m[a][b] {
      }
    }
  }

  /** One cell of the closed form. */
  lemma CompareMatrixCell(rankedArr: seq<int>, a: nat, b: nat)
    requires a < |rankedArr| && b < |rankedArr|
    ensures var s := SortedCopy(rankedArr);
      CompareMatrix(rankedArr)[a][b] == if FirstOccurrence(s, a) && FirstOccurrence(s, b) then Compare(s[a], s[b], rankedArr) else 0
  {
  }

  /** Every comparison matrix has a zero diagonal and is antisymmetric. */
  lemma CompareMatrixAntisymmetric(rankedArr: seq<int>, a: nat, b: nat)
    requires a < |rankedArr| && b < |rankedArr|
    ensures CompareMatrix(rankedArr)[a][a] == 0
    ensures CompareMatrix(rankedArr)[a][b] == -CompareMatrix(rankedArr)[b][a]
  {
    var s := SortedCopy(rankedArr);
    CompareMatrixCell(rankedArr, a, a);
    CompareMatrixCell(rankedArr, a, b);
    CompareMatrixCell(rankedArr, b, a);
    CompareAntisymmetric(s[a], s[b], rankedArr);
    CompareAntisymmetric(s[a], s[a], rankedArr);
  }

  /** For a ranking of 1..k the sorted copy is `[1 .. k]`. */
  lemma SortedCopyOfRanking(r: seq<int>)
    requires IsRanking(r)
    ensures SortedCopy(r) == Iota(|r|)
  {
    SortedCopySpec(r);
    AscendingUnique(SortedCopy(r), Iota(|r|));
  }

  /**
   * For a ranking `r` of 1..k: the cell for items `r[i]` and `r[j]` is +1 when `r[i]` is listed
   * first, -1 when it is listed later, 0 on the diagonal.
   */
  lemma RankingCompareMatrix(r: seq<int>, i: nat, j: nat)
    requires IsRanking(r) && i < |r| && j < |r|
    ensures 1 <= r[i] <= |r| && 1 <= r[j] <= |r|
    ensures CompareMatrix(r)[r[i] - 1][r[j] - 1] == if i < j then 1 else if i > j then -1 else 0
  {
    var n := |r|;
    RankingValue(r, i);
    RankingValue(r, j);
    var a, b := r[i] - 1, r[j] - 1;
    SortedCopyOfRanking(r);
    var s := Iota(n);
    assert s[a] == r[i] && s[b] == r[j];
    IotaDistinct(n);
    IndexOfDistinct(s, a);
    IndexOfDistinct(s, b);
    CompareMatrixCell(r, a, b);
    SameElementsDistinct(r, s);
    CompareByPosition(r, i, j);
  }

  /** Every entry of a ranking of 1..k lies in 1..k. */
  lemma RankingValue(r: seq<int>, i: nat)
    requires IsRanking(r) && i < |r|
    ensures 1 <= r[i] <= |r|
  {
    assert r[i] in multiset(Iota(|r|));
  }

  /** Every position of a ranking of 1..k names an item of 1..k exactly once. */
  lemma RankingCovers(r: seq<int>, v: int) returns (i: nat)
    requires IsRanking(r) && 1 <= v <= |r|
    ensures i < |r| && r[i] == v
  {
    assert Iota(|r|)[v - 1] == v;
    assert v in multiset(r);
    i :| 0 <= i < |r| && r[i] == v;
  }

  // ----- matrixToPlain -----

  /** The part of row `i` right of the diagonal: `row[i + 1 ..]`, empty if the row is too short. */
  function RowTail(row: seq<int>, i: nat): seq<int> {
    if i + 1 <= |row| then row[i + 1..] else []
  }

  /** The entries `matrixToPlain` pushes for rows `0 .. i - 1`. */
  function UpperRows(matrix: seq<seq<int>>, i: nat): seq<int>
    requires i <= |matrix|
  {
    if i == 0 then [] else UpperRows(matrix, i - 1) + RowTail(matrix[i - 1], i - 1)
  }

  /** The strictly upper triangle, row by row. */
  function UpperTriangle(matrix: seq<seq<int>>): seq<int> {
    UpperRows(matrix, |matrix|)
  }

  /** `matrixToPlain`: pushes `matrix[i][j]` for every `j > i`, row after row. */
  method MatrixToPlain(matrix: seq<seq<int>>) returns (plain: seq<int>)
    ensures plain == UpperTriangle(matrix)
  {
    plain := [];
    for i := 0 to |matrix|
      invariant plain == UpperRows(matrix, i)
    {
      var j := i + 1;
      while j < |matrix[i]|
        invariant i + 1 <= j && (i + 1 <= |matrix[i]| ==> j <= |matrix[i]|)
        invariant plain == UpperRows(matrix, i) + (if i + 1 <= |matrix[i]| then matrix[i][i + 1..j] else [])
      {
        plain := plain + [matrix[i][j]];
        j := j + 1;
      }
      assert i + 1 <= |matrix[i]| ==> matrix[i][i + 1..j] == RowTail(matrix[i], i);
    }
  }

  /** A square matrix of rows of length `n`. */
  predicate Square(matrix: seq<seq<int>>) {
    forall a :: 0 <= a < |matrix| ==> |matrix[a]| == |matrix|
  }

  lemma {:induction false} UpperRowsSize(matrix: seq<seq<int>>, i: nat)
    requires Square(matrix) && i <= |matrix|
    ensures 2 * |UpperRows(matrix, i)| == i * (2 * |matrix| - i - 1)
  {
    if i > 0 {
      UpperRowsSize(matrix, i - 1);
      var n, k := |matrix|, i - 1;
      assert |RowTail(matrix[k], k)| == n - 1 - k;
      assert (k + 1) * (2 * n - k - 2) == k * (2 * n - k - 1) + 2 * (n - 1 - k);
    }
  }

  /** For an n-by-n input the result has n(n-1)/2 entries. */
  lemma UpperTriangleSize(matrix: seq<seq<int>>)
    requires Square(matrix)
    ensures |UpperTriangle(matrix)| == |matrix| * (|matrix| - 1) / 2
  {
    UpperRowsSize(matrix, |matrix|);
  }

  /** Row `a` contributes its cells right of the diagonal just after the rows before it. */
  lemma UpperRowsAt(matrix: seq<seq<int>>, a: nat, b: nat)
    requires a < |matrix| && a < b < |matrix[a]|
    ensures var t := |UpperRows(matrix, a)| + (b - a - 1);
      t < |UpperRows(matrix, a + 1)| && UpperRows(matrix, a + 1)[t] == matrix[a][b]
  {
    var pre := UpperRows(matrix, a);
    var tail := RowTail(matrix[a], a);
    assert UpperRows(matrix, a + 1) == pre + tail;
    assert tail[b - a - 1] == matrix[a][b];
  }

  /** Later rows only append: the entries of the first `i` rows open those of the first `j`. */
  lemma {:induction false} UpperRowsPrefix(matrix: seq<seq<int>>, i: nat, j: nat)
    requires i <= j <= |matrix|
    ensures |UpperRows(matrix, i)| <= |UpperRows(matrix, j)|
    ensures UpperRows(matrix, j)[..|UpperRows(matrix, i)|] == UpperRows(matrix, i)
  {
    if i < j {
      UpperRowsPrefix(matrix, i, j - 1);
    }
  }

  /** A property of every cell above the diagonal holds of every entry of the upper triangle. */
  lemma {:induction false} UpperRowsEntries(matrix: seq<seq<int>>, i: nat, P: int -> bool)
    requires i <= |matrix|
    requires forall a, b :: 0 <= a < |matrix| && a < b < |matrix[a]| ==> P(matrix[a][b])
    ensures forall t :: 0 <= t < |UpperRows(matrix, i)| ==> P(UpperRows(matrix, i)[t])
  {
    if i > 0 {
      UpperRowsEntries(matrix, i - 1, P);
      var tail := RowTail(matrix[i - 1], i - 1);
      forall t | 0 <= t < |tail| ensures P(tail[t]) {
        assert tail[t] == matrix[i - 1][i + t];
      }
    }
  }

  // ----- Pairwise codes of rankings -----

  /** `matrixToPlain(generateCompareMatrix(r))`: the pairwise code of a row. */
  function PairwiseCode(r: seq<int>): seq<int> {
    UpperTriangle(CompareMatrix(r))
  }

  /** The pairwise code of any row of length k has k(k-1)/2 entries. */
  lemma PairwiseCodeSize(r: seq<int>)
    ensures |PairwiseCode(r)| == |r| * (|r| - 1) / 2
  {
    UpperTriangleSize(CompareMatrix(r));
  }

  /** Every entry of the pairwise code of a ranking is +1 or -1. */
  lemma RankingCodeEntries(r: seq<int>)
    requires IsRanking(r)
    ensures forall t :: 0 <= t < |PairwiseCode(r)| ==> PairwiseCode(r)[t] == 1 || PairwiseCode(r)[t] == -1
  {
    var m := CompareMatrix(r);
    forall a, b | 0 <= a < |m| && a < b < |m[a]| ensures m[a][b] == 1 || m[a][b] == -1 {
      RankingCellSign(r, a, b);
    }
    UpperRowsEntries(m, |m|, x => x == 1 || x == -1);
  }

  /** Off the diagonal, the comparison matrix of a ranking holds +1 or -1. */
  lemma RankingCellSign(r: seq<int>, a: nat, b: nat)
    requires IsRanking(r) && a < b < |r|
    ensures CompareMatrix(r)[a][b] == 1 || CompareMatrix(r)[a][b] == -1
  {
    var i := RankingCovers(r, a + 1);
    var j := RankingCovers(r, b + 1);
    assert i != j;
    RankingCompareMatrix(r, i, j);
    assert r[i] - 1 == a && r[j] - 1 == b;
  }
}
