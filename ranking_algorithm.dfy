/**
 * `RankingAlgorithm.processRankings` (utils/ranking-algorithm.ts): an exhaustive search over
 * every ranking of 1..k for the four medians of a set of expert rankings. Cook-Sayford and GV
 * minimise the sum and the maximum of the Cook distances, Kemeny-Snell and VG the sum and the
 * maximum of the Hamming distances between pairwise codes.
 */
module RankingAlgorithm {

  import opened Wrappers
  import opened Seqs
  import opened Permutations
  import opened Distances

  /** The sentinel every running minimum starts from. */
  const BIG_INTEGER: int := 100000

  datatype MedianResult = MedianResult(rankings: seq<seq<int>>, distance: int)

  datatype RankingMedians = RankingMedians(
    cookSayford: MedianResult,
    gv: MedianResult,
    kemenySnell: MedianResult,
    vg: MedianResult)

  /** Why `processRankings` throws: no first row to take `k` from, or a row of another length. */
  datatype RankingError =
    | NoRankings(message: string)
    | DistanceFailed(cause: DistanceError)

  /** The sum and the maximum (from -1) of one permutation's distances to all experts. */
  datatype Scores = Scores(sum: int, max: int)

  // ----- the running minimum with ties -----

  /** The value a running minimum started at `BIG_INTEGER` holds after seeing `vs`. */
  function MinScore(vs: seq<int>): int {
    if |vs| == 0 then BIG_INTEGER
    else
      var m := MinScore(vs[..|vs| - 1]);
      if vs[|vs| - 1] < m then vs[|vs| - 1] else m
  }

  /** The candidates, in order, whose score equals `m`. */
  function Ties(ps: seq<seq<int>>, vs: seq<int>, m: int): seq<seq<int>>
    requires |ps| == |vs|
  {
    if |ps| == 0 then []
    else Ties(ps[..|ps| - 1], vs[..|vs| - 1], m) + (if vs[|vs| - 1] == m then [ps[|ps| - 1]] else [])
  }

  /** The minimum is at most every score and the sentinel, and is the sentinel or some score. */
  lemma {:induction false} MinScoreBound(vs: seq<int>)
    ensures MinScore(vs) <= BIG_INTEGER
    ensures forall t :: 0 <= t < |vs| ==> MinScore(vs) <= vs[t]
    ensures MinScore(vs) == BIG_INTEGER || exists t :: 0 <= t < |vs| && vs[t] == MinScore(vs)
  {
    if |vs| > 0 {
      var front := vs[..|vs| - 1];
      MinScoreBound(front);
      assert forall t :: 0 <= t < |front| ==> vs[t] == front[t];
      if MinScore(front) != BIG_INTEGER && MinScore(vs) == MinScore(front) {
        var t :| 0 <= t < |front| && front[t] == MinScore(front);
        assert vs[t] == MinScore(vs);
      }
    }
  }

  /** A candidate is among the ties exactly when one of its occurrences scored `m`. */
  lemma {:induction false} TiesMember(ps: seq<seq<int>>, vs: seq<int>, m: int, p: seq<int>)
    requires |ps| == |vs|
    ensures p in Ties(ps, vs, m) <==> exists t :: 0 <= t < |ps| && ps[t] == p && vs[t] == m
  {
    if |ps| > 0 {
      var n := |ps| - 1;
      TiesMember(ps[..n], vs[..n], m, p);
      if exists t :: 0 <= t < |ps| && ps[t] == p && vs[t] == m {
        var t :| 0 <= t < |ps| && ps[t] == p && vs[t] == m;
        if t < n {
          assert ps[..n][t] == p && vs[..n][t] == m;
        }
      }
    }
  }

  /** The ties of distinct candidates are distinct. */
  lemma {:induction false} TiesDistinct(ps: seq<seq<int>>, vs: seq<int>, m: int)
    requires |ps| == |vs| && Distinct(ps)
    ensures Distinct(Ties(ps, vs, m))
  {
    if |ps| > 0 {
      var n := |ps| - 1;
      assert Distinct(ps[..n]);
      TiesDistinct(ps[..n], vs[..n], m);
      TiesMember(ps[..n], vs[..n], m, ps[n]);
    }
  }

  /** The ties keep the order in which the candidates were generated. */
  lemma {:induction false} TiesOrdered(ps: seq<seq<int>>, vs: seq<int>, m: int)
    requires |ps| == |vs| && Distinct(ps)
    ensures forall i, j :: 0 <= i < j < |Ties(ps, vs, m)| ==>
      IndexOf(ps, Ties(ps, vs, m)[i]) < IndexOf(ps, Ties(ps, vs, m)[j])
  {
    if |ps| > 0 {
      var n := |ps| - 1;
      var front, frontTies := ps[..n], Ties(ps[..n], vs[..n], m);
      assert Distinct(front);
      TiesOrdered(front, vs[..n], m);
      var ties := Ties(ps, vs, m);
      forall i | 0 <= i < |frontTies|
        ensures IndexOf(ps, frontTies[i]) == IndexOf(front, frontTies[i]) < n
      {
        TiesMember(front, vs[..n], m, frontTies[i]);
        IndexOfPrefix(ps, n, frontTies[i]);
      }
      IndexOfDistinct(ps, n);
      forall i, j | 0 <= i < j < |ties| ensures IndexOf(ps, ties[i]) < IndexOf(ps, ties[j]) {
        assert ties[i] == frontTies[i];
        if j < |frontTies| {
          assert ties[j] == frontTies[j];
        } else {
          assert ties[j] == ps[n];
        }
      }
    }
  }

  /** No score equals `m` below every score: no ties. */
  lemma {:induction false} TiesNone(ps: seq<seq<int>>, vs: seq<int>, m: int)
    requires |ps| == |vs|
    requires forall t :: 0 <= t < |vs| ==> m < vs[t]
    ensures Ties(ps, vs, m) == []
  {
    if |ps| > 0 {
      TiesNone(ps[..|ps| - 1], vs[..|vs| - 1], m);
    }
  }

  /**
   * One update of a running median (the `if`/`else if` after each score): a strictly smaller
   * score restarts the list with the candidate, an equal one appends it, a larger one changes
   * nothing. It keeps the pair (minimum, ties) in closed form.
   */
  method UpdateMedian(minimum: int, medians: seq<seq<int>>, score: int, permutation: seq<int>,
                      ghost ps: seq<seq<int>>, ghost vs: seq<int>)
    returns (newMinimum: int, newMedians: seq<seq<int>>)
    requires |ps| == |vs|
    requires minimum == MinScore(vs) && medians == Ties(ps, vs, minimum)
    ensures newMinimum == MinScore(vs + [score])
    ensures newMedians == Ties(ps + [permutation], vs + [score], newMinimum)
  {
    var ps', vs' := ps + [permutation], vs + [score];
    assert ps'[..|ps|] == ps && vs'[..|vs|] == vs;
    if score < minimum {
      newMinimum := score;
      newMedians := [permutation];
      MinScoreBound(vs);
      TiesNone(ps, vs, score);
    } else if score == minimum {
      newMinimum := minimum;
      newMedians := medians + [permutation];
    } else {
      newMinimum := minimum;
      newMedians := medians;
    }
  }

  // ----- the objective functions -----

  /** Every sequence of `xs` has length `k`. */
  predicate AllLength(xs: seq<seq<int>>, k: int) {
    forall t :: 0 <= t < |xs| ==> |xs[t]| == k
  }

  /** Every candidate has the length of every expert ranking. */
  predicate Fits(ps: seq<seq<int>>, rows: seq<seq<int>>) {
    forall u :: 0 <= u < |ps| ==> AllLength(rows, |ps[u]|)
  }

  /** Every expert ranking has the length of the first. */
  predicate Rectangular(rows: seq<seq<int>>) {
    forall t :: 0 <= t < |rows| ==> |rows[t]| == |rows[0]|
  }

  /** The distances (sum of absolute differences) from `x` to each of `ys`. */
  function DistancesTo(x: seq<int>, ys: seq<seq<int>>): (d: seq<int>)
    requires AllLength(ys, |x|)
    ensures |d| == |ys|
  {
    seq(|ys|, t requires 0 <= t < |ys| => AbsDiffSum(x, ys[t]))
  }

  /** The pairwise codes of the expert rankings (`expertPlainMatrices`). */
  function Codes(rows: seq<seq<int>>): (codes: seq<seq<int>>)
    ensures |codes| == |rows|
  {
    seq(|rows|, t requires 0 <= t < |rows| => PairwiseCode(rows[t]))
  }

  /** Rankings of equal length have codes of equal length. */
  lemma CodesFit(p: seq<int>, rows: seq<seq<int>>)
    requires AllLength(rows, |p|)
    ensures AllLength(Codes(rows), |PairwiseCode(p)|)
  {
    PairwiseCodeSize(p);
    forall t | 0 <= t < |rows| ensures |Codes(rows)[t]| == |PairwiseCode(p)| {
      PairwiseCodeSize(rows[t]);
    }
  }

  /** The Cook distances of candidate `p` to every expert ranking. */
  function CookDistances(p: seq<int>, rows: seq<seq<int>>): (d: seq<int>)
    requires AllLength(rows, |p|)
    ensures |d| == |rows|
  {
    DistancesTo(p, rows)
  }

  /** The Hamming distances: between the pairwise code of `p` and those of the expert rankings. */
  function HammingDistances(p: seq<int>, rows: seq<seq<int>>): (d: seq<int>)
    requires AllLength(rows, |p|)
    ensures |d| == |rows|
  {
    CodesFit(p, rows);
    DistancesTo(PairwiseCode(p), Codes(rows))
  }

  /** The four objectives, one score per candidate. */
  function CookSums(ps: seq<seq<int>>, rows: seq<seq<int>>): (v: seq<int>)
    requires Fits(ps, rows)
    ensures |v| == |ps|
  {
    seq(|ps|, u requires 0 <= u < |ps| => Sum(CookDistances(ps[u], rows)))
  }

  function CookMaxes(ps: seq<seq<int>>, rows: seq<seq<int>>): (v: seq<int>)
    requires Fits(ps, rows)
    ensures |v| == |ps|
  {
    seq(|ps|, u requires 0 <= u < |ps| => MaxOf(CookDistances(ps[u], rows)))
  }

  function HammingSums(ps: seq<seq<int>>, rows: seq<seq<int>>): (v: seq<int>)
    requires Fits(ps, rows)
    ensures |v| == |ps|
  {
    seq(|ps|, u requires 0 <= u < |ps| => Sum(HammingDistances(ps[u], rows)))
  }

  function HammingMaxes(ps: seq<seq<int>>, rows: seq<seq<int>>): (v: seq<int>)
    requires Fits(ps, rows)
    ensures |v| == |ps|
  {
    seq(|ps|, u requires 0 <= u < |ps| => MaxOf(HammingDistances(ps[u], rows)))
  }

  /** The median for one objective: the minimum over all candidates and the candidates reaching it. */
  function Median(ps: seq<seq<int>>, vs: seq<int>): MedianResult
    requires |ps| == |vs|
  {
    MedianResult(Ties(ps, vs, MinScore(vs)), MinScore(vs))
  }

  /** What `processRankings` returns for rectangular input, in closed form. */
  function Medians(rows: seq<seq<int>>): RankingMedians
    requires |rows| > 0 && Rectangular(rows)
  {
    var k := |rows[0]|;
    var ps := Perms(Iota(k));
    CandidateLengths(k);
    RankingMedians(
      Median(ps, CookSums(ps, rows)),
      Median(ps, CookMaxes(ps, rows)),
      Median(ps, HammingSums(ps, rows)),
      Median(ps, HammingMaxes(ps, rows)))
  }

  /** The four medians, named. */
  datatype Criterion = CookSayford | Gv | KemenySnell | Vg

  /** The objective a criterion minimises, for one candidate. */
  function Score(c: Criterion, p: seq<int>, rows: seq<seq<int>>): int
    requires AllLength(rows, |p|)
  {
    match c
    case CookSayford => Sum(CookDistances(p, rows))
    case Gv => MaxOf(CookDistances(p, rows))
    case KemenySnell => Sum(HammingDistances(p, rows))
    case Vg => MaxOf(HammingDistances(p, rows))
  }

  function Pick(medians: RankingMedians, c: Criterion): MedianResult {
    match c
    case CookSayford => medians.cookSayford
    case Gv => medians.gv
    case KemenySnell => medians.kemenySnell
    case Vg => medians.vg
  }

  /** The scores of all candidates under one criterion. */
  function Objective(c: Criterion, ps: seq<seq<int>>, rows: seq<seq<int>>): (vs: seq<int>)
    requires Fits(ps, rows)
    ensures |vs| == |ps|
  {
    match c
    case CookSayford => CookSums(ps, rows)
    case Gv => CookMaxes(ps, rows)
    case KemenySnell => HammingSums(ps, rows)
    case Vg => HammingMaxes(ps, rows)
  }

  /** The minimum over any candidate list, stated without the running computation. */
  lemma MedianMinimum(ps: seq<seq<int>>, vs: seq<int>)
    requires |ps| == |vs|
    ensures var m := Median(ps, vs);
      && m.distance <= BIG_INTEGER
      && (forall u :: 0 <= u < |vs| ==> m.distance <= vs[u])
      && (m.distance == BIG_INTEGER || exists u :: 0 <= u < |vs| && vs[u] == m.distance)
  {
    MinScoreBound(vs);
  }

  /** The ties over any candidate list, stated without the running computation. */
  lemma MedianTies(ps: seq<seq<int>>, vs: seq<int>)
    requires |ps| == |vs| && Distinct(ps)
    ensures var m := Median(ps, vs);
      && (forall q :: q in m.rankings <==> exists u :: 0 <= u < |ps| && ps[u] == q && vs[u] == m.distance)
      && Distinct(m.rankings)
      && (forall i, j :: 0 <= i < j < |m.rankings| ==> IndexOf(ps, m.rankings[i]) < IndexOf(ps, m.rankings[j]))
  {
    var m := MinScore(vs);
    var ties := Ties(ps, vs, m);
    assert Median(ps, vs) == MedianResult(ties, m);
    TiesDistinct(ps, vs, m);
    TiesOrdered(ps, vs, m);
    assert forall i, j :: 0 <= i < j < |ties| ==> IndexOf(ps, ties[i]) < IndexOf(ps, ties[j]);
    forall q ensures q in Ties(ps, vs, m) <==> exists u :: 0 <= u < |ps| && ps[u] == q && vs[u] == m {
      TiesMember(ps, vs, m, q);
    }
  }

  /** Each criterion's median is the median of its objective over all rankings of 1..k. */
  lemma PickMedian(rows: seq<seq<int>>, c: Criterion)
    requires |rows| > 0 && Rectangular(rows)
    ensures Fits(Perms(Iota(|rows[0]|)), rows)
    ensures var ps := Perms(Iota(|rows[0]|));
      && Pick(Medians(rows), c) == Median(ps, Objective(c, ps, rows))
      && forall u :: 0 <= u < |ps| ==> Objective(c, ps, rows)[u] == Score(c, ps[u], rows)
  {
    CandidateLengths(|rows[0]|);
  }

  /** The candidates, stated by position: distinct, and exactly the rankings of 1..k. */
  ghost predicate Candidates(ps: seq<seq<int>>, k: nat) {
    && Distinct(ps)
    && (forall u :: 0 <= u < |ps| ==> |ps[u]| == k && IsRanking(ps[u]))
    && (forall q :: |q| == k && IsRanking(q) ==> exists u :: 0 <= u < |ps| && ps[u] == q)
  }

  lemma RankingCandidates(k: nat)
    ensures Candidates(Perms(Iota(k)), k)
  {
    var ps := Perms(Iota(k));
    RankingsOfSize(k);
    forall u | 0 <= u < |ps| ensures |ps[u]| == k && IsRanking(ps[u]) {
      assert ps[u] in ps;
    }
    forall q | |q| == k && IsRanking(q) ensures exists u :: 0 <= u < |ps| && ps[u] == q {
      assert q in ps;
    }
  }

  /** A candidate's entry of the objective is its score. */
  lemma ObjectiveAt(c: Criterion, ps: seq<seq<int>>, rows: seq<seq<int>>, u: nat)
    requires Fits(ps, rows) && u < |ps|
    ensures AllLength(rows, |ps[u]|) && Objective(c, ps, rows)[u] == Score(c, ps[u], rows)
  {
  }

  /** Where a ranking of 1..k sits among the candidates. */
  lemma CandidateIndex(ps: seq<seq<int>>, k: nat, q: seq<int>) returns (u: nat)
    requires Candidates(ps, k) && |q| == k && IsRanking(q)
    ensures u < |ps| && ps[u] == q
  {
    u :| 0 <= u < |ps| && ps[u] == q;
  }

  /** Optimality over any list of candidates that are exactly the rankings of 1..k. */
  lemma OptimalOver(ps: seq<seq<int>>, rows: seq<seq<int>>, c: Criterion, k: nat)
    requires Candidates(ps, k) && AllLength(rows, k) && Fits(ps, rows)
    ensures var m := Median(ps, Objective(c, ps, rows));
      && m.distance <= BIG_INTEGER
      && (forall q :: |q| == k && IsRanking(q) ==> m.distance <= Score(c, q, rows))
      && (m.distance == BIG_INTEGER || exists q :: |q| == k && IsRanking(q) && Score(c, q, rows) == m.distance)
  {
    MedianMinimum(ps, Objective(c, ps, rows));
    var m := Median(ps, Objective(c, ps, rows));
    forall q | |q| == k && IsRanking(q) ensures m.distance <= Score(c, q, rows) {
      MedianBelow(ps, rows, c, k, q);
    }
    if m.distance != BIG_INTEGER {
      var q := MedianAttained(ps, rows, c, k);
    }
  }

  /** No ranking of 1..k scores below the median's distance. */
  lemma MedianBelow(ps: seq<seq<int>>, rows: seq<seq<int>>, c: Criterion, k: nat, q: seq<int>)
    requires Candidates(ps, k) && AllLength(rows, k) && Fits(ps, rows)
    requires |q| == k && IsRanking(q)
    ensures Median(ps, Objective(c, ps, rows)).distance <= Score(c, q, rows)
  {
    var vs := Objective(c, ps, rows);
    MedianMinimum(ps, vs);
    var u := CandidateIndex(ps, k, q);
    ObjectiveAt(c, ps, rows, u);
  }

  /** Below the sentinel, the median's distance is the score of some ranking of 1..k. */
  lemma MedianAttained(ps: seq<seq<int>>, rows: seq<seq<int>>, c: Criterion, k: nat) returns (q: seq<int>)
    requires Candidates(ps, k) && AllLength(rows, k) && Fits(ps, rows)
    ensures Median(ps, Objective(c, ps, rows)).distance != BIG_INTEGER ==>
      |q| == k && IsRanking(q) && Score(c, q, rows) == Median(ps, Objective(c, ps, rows)).distance
  {
    var vs := Objective(c, ps, rows);
    q := [];
    if Median(ps, vs).distance != BIG_INTEGER {
      MedianMinimum(ps, vs);
      var u :| 0 <= u < |vs| && vs[u] == Median(ps, vs).distance;
      ObjectiveAt(c, ps, rows, u);
      q := ps[u];
    }
  }

  /** Tie completeness over any list of candidates that are exactly the rankings of 1..k. */
  lemma TiesCompleteOver(ps: seq<seq<int>>, rows: seq<seq<int>>, c: Criterion, k: nat)
    requires Candidates(ps, k) && AllLength(rows, k) && Fits(ps, rows)
    ensures var m := Median(ps, Objective(c, ps, rows));
      && (forall q :: q in m.rankings <==> |q| == k && IsRanking(q) && Score(c, q, rows) == m.distance)
      && Distinct(m.rankings)
      && (forall i, j :: 0 <= i < j < |m.rankings| ==> IndexOf(ps, m.rankings[i]) < IndexOf(ps, m.rankings[j]))
  {
    var vs := Objective(c, ps, rows);
    MedianTies(ps, vs);
    var m := Median(ps, vs);
    forall q ensures q in m.rankings <==> |q| == k && IsRanking(q) && Score(c, q, rows) == m.distance {
      if q in m.rankings {
        var u :| 0 <= u < |ps| && ps[u] == q && vs[u] == m.distance;
        ObjectiveAt(c, ps, rows, u);
      }
      if |q| == k && IsRanking(q) && Score(c, q, rows) == m.distance {
        var u := CandidateIndex(ps, k, q);
        ObjectiveAt(c, ps, rows, u);
      }
    }
  }

  /**
   * Optimality: the distance of each criterion's median is the least score of any ranking of
   * 1..k, or the sentinel when every score is above it.
   */
  lemma MedianOptimal(rows: seq<seq<int>>, c: Criterion)
    requires |rows| > 0 && Rectangular(rows)
    ensures var k, m := |rows[0]|, Pick(Medians(rows), c);
      && m.distance <= BIG_INTEGER
      && (forall q :: |q| == k && IsRanking(q) ==> m.distance <= Score(c, q, rows))
      && (m.distance == BIG_INTEGER || exists q :: |q| == k && IsRanking(q) && Score(c, q, rows) == m.distance)
  {
    var k := |rows[0]|;
    PickMedian(rows, c);
    RankingCandidates(k);
    OptimalOver(Perms(Iota(k)), rows, c, k);
  }

  /**
   * Tie completeness: each criterion's rankings are exactly the rankings of 1..k whose score is
   * the reported distance, each once, in generation order.
   */
  lemma MedianTiesComplete(rows: seq<seq<int>>, c: Criterion)
    requires |rows| > 0 && Rectangular(rows)
    ensures var k, m := |rows[0]|, Pick(Medians(rows), c);
      && (forall q :: q in m.rankings <==> |q| == k && IsRanking(q) && Score(c, q, rows) == m.distance)
      && Distinct(m.rankings)
      && (forall i, j :: 0 <= i < j < |m.rankings| ==>
            IndexOf(Perms(Iota(k)), m.rankings[i]) < IndexOf(Perms(Iota(k)), m.rankings[j]))
  {
    var k := |rows[0]|;
    PickMedian(rows, c);
    RankingCandidates(k);
    TiesCompleteOver(Perms(Iota(k)), rows, c, k);
  }

  // ----- the search -----

  /**
   * The inner Cook loop: the sum and the maximum of the distances of `permutation` to every
   * expert ranking; throws at the first expert ranking of another length.
   */
  method CookScores(permutation: seq<int>, expertRankings: seq<seq<int>>)
    returns (r: Result<Scores, DistanceError>)
    ensures r.Failure? <==> !AllLength(expertRankings, |permutation|)
    ensures r.Success? ==>
      var d := DistancesTo(permutation, expertRankings);
      r.value == Scores(Sum(d), MaxOf(d))
  {
    var sumCookDistances, maxCookDistance := 0, -1;
    for t := 0 to |expertRankings|
      invariant AllLength(expertRankings[..t], |permutation|)
      invariant sumCookDistances == Sum(DistancesTo(permutation, expertRankings[..t]))
      invariant maxCookDistance == MaxOf(DistancesTo(permutation, expertRankings[..t]))
    {
      var cookDist := CalculateCookDistance(permutation, expertRankings[t]);
      if cookDist.Failure? {
        return Failure(cookDist.error);
      }
      DistancesStep(permutation, expertRankings, t);
      sumCookDistances := sumCookDistances + cookDist.value;
      maxCookDistance := if maxCookDistance < cookDist.value then cookDist.value else maxCookDistance;
    }
    assert expertRankings[..|expertRankings|] == expertRankings;
    r := Success(Scores(sumCookDistances, maxCookDistance));
  }

  /**
   * The inner Hamming loop over the experts' pairwise codes. It runs only after the Cook loop
   * has checked every length, so all codes have the same length and
   * `calculateHammingDistance` never throws here.
   */
  method HammingScores(permutationPlainMatrix: seq<int>, expertPlainMatrices: seq<seq<int>>)
    returns (scores: Scores)
    requires AllLength(expertPlainMatrices, |permutationPlainMatrix|)
    ensures var d := DistancesTo(permutationPlainMatrix, expertPlainMatrices);
      scores == Scores(Sum(d), MaxOf(d))
  {
    var sumHammingDistances, maxHammingDistance := 0, -1;
    for t := 0 to |expertPlainMatrices|
      invariant sumHammingDistances == Sum(DistancesTo(permutationPlainMatrix, expertPlainMatrices[..t]))
      invariant maxHammingDistance == MaxOf(DistancesTo(permutationPlainMatrix, expertPlainMatrices[..t]))
    {
      var hammingDist := CalculateHammingDistance(permutationPlainMatrix, expertPlainMatrices[t]);
      DistancesStep(permutationPlainMatrix, expertPlainMatrices, t);
      sumHammingDistances := sumHammingDistances + hammingDist.value;
      maxHammingDistance := if maxHammingDistance < hammingDist.value then hammingDist.value else maxHammingDistance;
    }
    assert expertPlainMatrices[..|expertPlainMatrices|] == expertPlainMatrices;
    scores := Scores(sumHammingDistances, maxHammingDistance);
  }

  /** `matrixToPlain(generateCompareMatrix(ranking))`: the pairwise code of a ranking. */
  method PlainMatrix(ranking: seq<int>) returns (plain: seq<int>)
    ensures plain == PairwiseCode(ranking)
  {
    var matrix := GenerateCompareMatrix(ranking);
    plain := MatrixToPlain(matrix);
  }

  /** `expertRankings.map(...)`: the pairwise code of every expert ranking. */
  method ExpertPlainMatrices(expertRankings: seq<seq<int>>) returns (expertPlainMatrices: seq<seq<int>>)
    ensures expertPlainMatrices == Codes(expertRankings)
  {
    expertPlainMatrices := [];
    for t := 0 to |expertRankings|
      invariant expertPlainMatrices == Codes(expertRankings[..t])
    {
      var plain := PlainMatrix(expertRankings[t]);
      assert Codes(expertRankings[..t + 1]) == Codes(expertRankings[..t]) + [plain];
      expertPlainMatrices := expertPlainMatrices + [plain];
    }
    assert expertRankings[..|expertRankings|] == expertRankings;
  }

  /**
   * `processRankings`: throws when there is no expert ranking or when an expert ranking's length
   * differs from the first one's; otherwise returns the four medians of the closed form.
   */
  method ProcessRankings(expertRankings: seq<seq<int>>) returns (r: Result<RankingMedians, RankingError>)
    ensures r.Failure? <==> |expertRankings| == 0 || !Rectangular(expertRankings)
    ensures r.Success? ==> r.value == Medians(expertRankings)
  {
    if |expertRankings| == 0 {
      return Failure(NoRankings("Cannot read properties of undefined (reading 'length')"));
    }
    var cookSayfordMinSum, gvMinMax, kemenySnellMinSum, vgMinMax := BIG_INTEGER, BIG_INTEGER, BIG_INTEGER, BIG_INTEGER;
    var cookSayfordMedians, gvMedians, kemenySnellMedians, vgMedians := [], [], [], [];

    var k := |expertRankings[0]|;
    var baseRanking := Iota(k);
    var allPermutations := GeneratePermutations(baseRanking);
    ghost var ps := allPermutations;
    CandidateLengths(k);

    var expertPlainMatrices := ExpertPlainMatrices(expertRankings);

    for n := 0 to |allPermutations|
      invariant n > 0 ==> Rectangular(expertRankings)
      invariant Fits(ps[..n], expertRankings)
      invariant cookSayfordMinSum == MinScore(CookSums(ps[..n], expertRankings))
      invariant cookSayfordMedians == Ties(ps[..n], CookSums(ps[..n], expertRankings), cookSayfordMinSum)
      invariant gvMinMax == MinScore(CookMaxes(ps[..n], expertRankings))
      invariant gvMedians == Ties(ps[..n], CookMaxes(ps[..n], expertRankings), gvMinMax)
      invariant kemenySnellMinSum == MinScore(HammingSums(ps[..n], expertRankings))
      invariant kemenySnellMedians == Ties(ps[..n], HammingSums(ps[..n], expertRankings), kemenySnellMinSum)
      invariant vgMinMax == MinScore(HammingMaxes(ps[..n], expertRankings))
      invariant vgMedians == Ties(ps[..n], HammingMaxes(ps[..n], expertRankings), vgMinMax)
    {
      var permutation := allPermutations[n];
      var cook := CookScores(permutation, expertRankings);
      if cook.Failure? {
        assert !Rectangular(expertRankings);
        return Failure(DistanceFailed(cook.error));
      }
      assert Rectangular(expertRankings);
      assert AllLength(expertRankings, |permutation|);
      ghost var prefix := ps[..n];
      PrefixStep(ps, n);
      assert Fits(ps[..n + 1], expertRankings);
      ObjectivesStep(prefix, permutation, expertRankings);

      cookSayfordMinSum, cookSayfordMedians := UpdateMedian(cookSayfordMinSum, cookSayfordMedians,
        cook.value.sum, permutation, prefix, CookSums(prefix, expertRankings));
      gvMinMax, gvMedians := UpdateMedian(gvMinMax, gvMedians,
        cook.value.max, permutation, prefix, CookMaxes(prefix, expertRankings));

      var permutationPlainMatrix := PlainMatrix(permutation);
      CodesFit(permutation, expertRankings);
      var hamming := HammingScores(permutationPlainMatrix, expertPlainMatrices);

      kemenySnellMinSum, kemenySnellMedians := UpdateMedian(kemenySnellMinSum, kemenySnellMedians,
        hamming.sum, permutation, prefix, HammingSums(prefix, expertRankings));
      vgMinMax, vgMedians := UpdateMedian(vgMinMax, vgMedians,
        hamming.max, permutation, prefix, HammingMaxes(prefix, expertRankings));
    }
    assert ps[..|ps|] == ps;
    r := Success(RankingMedians(
      MedianResult(cookSayfordMedians, cookSayfordMinSum),
      MedianResult(gvMedians, gvMinMax),
      MedianResult(kemenySnellMedians, kemenySnellMinSum),
      MedianResult(vgMedians, vgMinMax)));
  }

  /** Taking one more sequence appends its distance. */
  lemma DistancesStep(x: seq<int>, ys: seq<seq<int>>, t: nat)
    requires t < |ys| && AllLength(ys[..t], |x|) && |ys[t]| == |x|
    ensures AllLength(ys[..t + 1], |x|)
    ensures DistancesTo(x, ys[..t + 1]) == DistancesTo(x, ys[..t]) + [AbsDiffSum(x, ys[t])]
  {
    assert ys[..t + 1] == ys[..t] + [ys[t]];
  }

  /** There is at least one candidate, and every candidate has length `k`. */
  lemma CandidateLengths(k: nat)
    ensures |Perms(Iota(k))| >= 1 && AllLength(Perms(Iota(k)), k)
  {
    var ps := Perms(Iota(k));
    RankingsOfSize(k);
    FactPositive(k);
    forall u | 0 <= u < |ps| ensures |ps[u]| == k { assert ps[u] in ps; }
  }

  lemma {:induction false} FactPositive(k: nat)
    ensures Fact(k) >= 1
  {
    if k > 0 {
      FactPositive(k - 1);
    }
  }

  /** Appending a candidate appends its four scores. */
  lemma ObjectivesStep(ps: seq<seq<int>>, p: seq<int>, rows: seq<seq<int>>)
    requires Fits(ps, rows) && AllLength(rows, |p|)
    ensures Fits(ps + [p], rows)
    ensures CookSums(ps + [p], rows) == CookSums(ps, rows) + [Sum(CookDistances(p, rows))]
    ensures CookMaxes(ps + [p], rows) == CookMaxes(ps, rows) + [MaxOf(CookDistances(p, rows))]
    ensures HammingSums(ps + [p], rows) == HammingSums(ps, rows) + [Sum(HammingDistances(p, rows))]
    ensures HammingMaxes(ps + [p], rows) == HammingMaxes(ps, rows) + [MaxOf(HammingDistances(p, rows))]
  {
    ObjectiveStep(CookSayford, ps, p, rows);
    ObjectiveStep(Gv, ps, p, rows);
    ObjectiveStep(KemenySnell, ps, p, rows);
    ObjectiveStep(Vg, ps, p, rows);
  }

  /** Appending a candidate appends its score under one criterion. */
  lemma ObjectiveStep(c: Criterion, ps: seq<seq<int>>, p: seq<int>, rows: seq<seq<int>>)
    requires Fits(ps, rows) && AllLength(rows, |p|)
    ensures Fits(ps + [p], rows)
    ensures Objective(c, ps + [p], rows) == Objective(c, ps, rows) + [Score(c, p, rows)]
  {
    var ps' := ps + [p];
    assert forall u :: 0 <= u < |ps| ==> ps'[u] == ps[u];
    assert ps'[|ps|] == p;
    var longer, shorter := Objective(c, ps', rows), Objective(c, ps, rows) + [Score(c, p, rows)];
    forall u | 0 <= u < |ps'| ensures longer[u] == shorter[u] {
      ObjectiveAt(c, ps', rows, u);
      if u < |ps| {
        ObjectiveAt(c, ps, rows, u);
      }
    }
  }
}
