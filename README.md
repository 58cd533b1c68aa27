# Expert song ranking: the rank-aggregation engine

The application collects votes from experts: each expert ranks up to three songs as their first,
second and third choice. A heuristic then narrows the catalogue. The remaining songs form a
ranking matrix with one row per expert. An exhaustive search over all orderings of the columns
finds four kinds of consensus ranking ("medians"):

- Cook–Sayford: the smallest sum of Cook distances to the experts' rows.
- GV: the smallest maximum Cook distance.
- Kemeny–Snell: the smallest sum of Hamming distances between pairwise-comparison codes.
- VG: the smallest maximum Hamming distance.

This Dafny project models that engine and proves what it computes. It has five modules:

- `Heuristics` (utils/heuristics.ts): `countRanks` tallies the votes into one counter record per
  song. `applyHeuristic` filters those records by one of eight named rules and stably sorts them.
- `Distances` and `Permutations` (utils/ranking-algorithm.ts):
  - `Distances`: the comparison matrix of a ranking, its flattened upper triangle, and the Cook
    and Hamming distances.
  - `Permutations`: the recursive permutation generator.
- `RankingAlgorithm` (utils/ranking-algorithm.ts): `processRankings`, the search loop with its
  four running minima and tie lists.
- `AdvancedRanking` (utils/advanced-ranking.ts): the pipeline.
  - It maps the selected records back to songs, keeps the votes for those songs, and builds the
    ranking matrix with columns ordered by song id.
  - It caps the matrix at 7 columns and draws a random reference ranking.
  - It computes the Cook distances to that ranking, runs the search, and maps the median rankings
    back to songs.

Helper modules:

- `Seqs`: `indexOf`, `filter`, and the sums and maxima `reduce` computes.
- `Sorting`: `Array.prototype.sort` as a stable sort under a total preorder, and `localeCompare`.
- `Types`: the records.
- `Wrappers`: `Option` and `Result`.

How the source's constructs are modelled:

- Loops that build arrays or maps step by step become methods with loop invariants. Each method
  is proved equal to a specification function, and the properties are proved about that function.
- A `throw` of the source is a `Failure` of a `Result`.
- A JavaScript `undefined` is `None`.

Behaviour of the code worth noting:

- A matrix row is kept as soon as one of its cells is positive. Rows with unranked (0) cells are
  not removed, so the search runs on rows that need not be rankings.
- The result's `rankingMatrix` is the matrix before the 7-column cap, not the capped one.
- The cap orders columns by the mean of the column over all rows, with a missing or 0 cell
  counted as 0. Ties keep column order.

## Model

| member | source | states |
|---|---|---|
| Seqs.IndexOf | utils/ranking-algorithm.ts:23-25 | -1 exactly when the value is absent; otherwise an index holding the value with no earlier occurrence |
| Seqs.MaxOf | utils/ranking-algorithm.ts:140-146 | the running `Math.max` from -1 bounds every element and is either -1 or one of the elements |
| Sorting.StableSortSpec | utils/heuristics.ts:60 | sorting by a consistent comparator returns a permutation of the input, ordered by the comparator, with equivalent elements in input order |
| Sorting.StableSortSorted | utils/heuristics.ts:60 | every earlier element of the sorted output may stand before every later one |
| Sorting.StableSortKeepsTies | utils/heuristics.ts:99 | two output elements the comparator finds equivalent keep their relative input order |
| Sorting.LexKeyTotalPreorder | utils/advanced-ranking.ts:18 | ordering records by a string key with `localeCompare` is total and transitive |
| Sorting.LexLeqAntisymmetric | utils/advanced-ranking.ts:18 | two ids that compare equal both ways are the same id |
| Permutations.GeneratePermutations | utils/ranking-algorithm.ts:95-111 | the recursive generator with its two loops returns the list `Perms(arr)`, in the order it pushes them |
| Permutations.InsertAtEveryPosition | utils/ranking-algorithm.ts:103-107 | the inner loop appends the smaller permutation with the first element inserted at each position 0 .. length, in that order |
| Permutations.PermsSize | utils/ranking-algorithm.ts:95-111 | the generator returns n! lists, each as long as the input |
| Permutations.PermsArePermutations | utils/ranking-algorithm.ts:95-111 | each generated list holds the input's elements with the same multiplicities |
| Permutations.PermsComplete | utils/ranking-algorithm.ts:95-111 | every rearrangement of the input is among the generated lists |
| Permutations.PermsDistinct | utils/ranking-algorithm.ts:95-111 | for an input without repetitions no list is generated twice |
| Permutations.RankingsOfSize | utils/ranking-algorithm.ts:130-131 | the lists generated from [1..k] are exactly the k! rankings of length k, each once |
| Distances.CalculateCookDistance | utils/ranking-algorithm.ts:75-80 | fails exactly on a length mismatch; otherwise the sum of absolute differences, which is never negative and is 0 exactly for identical arguments |
| Distances.CalculateHammingDistance | utils/ranking-algorithm.ts:85-90 | the same length check and formula, with the same guarantees |
| Distances.DistanceSymmetric | utils/ranking-algorithm.ts:75-90 | both distances fail or succeed together for (a, b) and (b, a), with equal values |
| Distances.AbsDiffSumTriangle | utils/ranking-algorithm.ts:79 | the distance satisfies the triangle inequality |
| Distances.CompareByPosition | utils/ranking-algorithm.ts:30-36 | in a list without repetitions, `compare` is 1, -1 or 0 as the first element stands before, after or at the second |
| Distances.SortedCopySpec | utils/ranking-algorithm.ts:55 | the numeric sort of the ranking is ascending and a permutation of it |
| Distances.GenerateCompareMatrix | utils/ranking-algorithm.ts:54-70 | the nested loops, with their overwrites for repeated values, produce the closed-form matrix `CompareMatrix` |
| Distances.FillCompareRow | utils/ranking-algorithm.ts:63-66 | one pass of the inner loop writes exactly the cells of row i into the matrix |
| Distances.CompareMatrixAntisymmetric | utils/ranking-algorithm.ts:54-70 | the comparison matrix has a zero diagonal and `m[a][b] == -m[b][a]` |
| Distances.RankingCompareMatrix | utils/ranking-algorithm.ts:54-70 | for a ranking, the cell at the ranks of positions i and j is 1, -1 or 0 as i is before, after or equal to j |
| Distances.MatrixToPlain | utils/ranking-algorithm.ts:41-49 | the nested loops return the row-by-row concatenation of the entries above the diagonal |
| Distances.UpperTriangleSize | utils/ranking-algorithm.ts:41-49 | a square n×n matrix flattens to n(n-1)/2 entries |
| Distances.UpperRowsAt | utils/ranking-algorithm.ts:43-46 | entry (a, b) above the diagonal lands at offset (b - a - 1) after the entries of rows before a |
| Distances.UpperRowsPrefix | utils/ranking-algorithm.ts:41-49 | the flattening of the first i rows is a prefix of that of the first j rows for i ≤ j, so later rows never move earlier entries |
| Distances.PairwiseCodeSize | utils/ranking-algorithm.ts:134 | a ranking of length n has a pairwise code of n(n-1)/2 entries |
| Distances.RankingCodeEntries | utils/ranking-algorithm.ts:167 | every entry of a ranking's pairwise code is 1 or -1 |
| RankingAlgorithm.UpdateMedian | utils/ranking-algorithm.ts:149-155 | one update of a running minimum and its tie list keeps both equal to the minimum over the scores so far and the permutations attaining it, in order |
| RankingAlgorithm.MinScoreBound | utils/ranking-algorithm.ts:118-121 | the running minimum starting at BIG_INTEGER is at most BIG_INTEGER and every score, and is one of the scores unless it is BIG_INTEGER |
| RankingAlgorithm.TiesMember | utils/ranking-algorithm.ts:149-155 | a list is among the ties exactly when some position holds it with the minimal score |
| RankingAlgorithm.TiesOrdered | utils/ranking-algorithm.ts:149-155 | ties keep the order in which the permutations were generated |
| RankingAlgorithm.TiesNone | utils/ranking-algorithm.ts:118-121 | when every score exceeds the sentinel the tie list is empty |
| RankingAlgorithm.CookScores | utils/ranking-algorithm.ts:139-146 | fails exactly when some expert row differs in length from the permutation; otherwise the sum and the running maximum (from -1) of the Cook distances |
| RankingAlgorithm.HammingScores | utils/ranking-algorithm.ts:169-176 | the sum and running maximum of the Hamming distances between pairwise codes |
| RankingAlgorithm.PlainMatrix | utils/ranking-algorithm.ts:167 | the flattened comparison matrix of a permutation is its pairwise code |
| RankingAlgorithm.ExpertPlainMatrices | utils/ranking-algorithm.ts:134 | each expert row is replaced by its pairwise code, in order |
| RankingAlgorithm.ProcessRankings | utils/ranking-algorithm.ts:116-203 | fails exactly on no rows or rows of unequal length; otherwise returns the four medians of the search over all permutations |
| RankingAlgorithm.MedianOptimal | utils/ranking-algorithm.ts:116-203 | each reported distance is at most BIG_INTEGER and at most the criterion's score of every ranking of the width, and is attained by one of them unless it is BIG_INTEGER |
| RankingAlgorithm.MedianTiesComplete | utils/ranking-algorithm.ts:116-203 | each reported list holds exactly the rankings attaining the reported distance, each once, in generation order |
| RankingAlgorithm.RankingCandidates | utils/ranking-algorithm.ts:130-131 | the search space is all rankings of the row width, without repetition |
| Heuristics.CountRanks | utils/heuristics.ts:4-48 | the two loops over a map produce `Tallies`: one record per distinct song id, in first-occurrence order, each tallied over all votes |
| Heuristics.TalliesShape | utils/heuristics.ts:4-48 | the records carry the distinct song ids, one each, and every listed song has a record |
| Heuristics.TalliesNamed | utils/heuristics.ts:8-21 | a record's title and artist come from the last listed song with its id, as `Map.set` overwrites |
| Heuristics.LastWithIdSpec | utils/heuristics.ts:8-21 | the song a record is initialised from has that id and no later song does |
| Heuristics.TallyVoteCount | utils/heuristics.ts:24-45 | a record's vote count is the number of votes for its song |
| Heuristics.TalliesCounters | utils/heuristics.ts:24-45 | with ranks 1..3, vote count = sum of rank counts and total points = 3·first + 2·second + third |
| Heuristics.TalliesAddVote | utils/heuristics.ts:24-45 | one more vote changes only the record of its song, by 4 − rank points, one vote and one rank count |
| Heuristics.UnknownVoteIgnored | utils/heuristics.ts:25-26 | a vote for a song that is not listed changes nothing |
| Heuristics.ApplyHeuristic | utils/heuristics.ts:51-109 | the result is the rule's selection from freshly tallied records |
| Heuristics.OrderTotal | utils/heuristics.ts:57-108 | every rule's comparator is a total preorder, so its sort is well defined |
| Heuristics.SelectNormalForm | utils/heuristics.ts:55-108 | every rule is a stable sort of the records passing the rule's filters |
| Heuristics.SelectMembers | utils/heuristics.ts:55-108 | a record is selected exactly when it is tallied and passes the rule (voted and the rank-count condition; unvoted for h7) |
| Heuristics.SelectCounts | utils/heuristics.ts:55-108 | the selection is a sub-multiset: passing records keep their multiplicity, the others vanish |
| Heuristics.SelectOrdered | utils/heuristics.ts:57-108 | the selection is ordered by the rule's key: points, a rank count or their sum descending, vote count ascending, or title |
| Heuristics.SelectStable | utils/heuristics.ts:57-108 | records with equal keys keep their tally order |
| Heuristics.H7Disjoint | utils/heuristics.ts:101-104 | no record selected by h7 is selected by any other rule |
| Heuristics.UnrecognisedIsStandard | utils/heuristics.ts:106-107 | an unknown rule name selects as "standard" does |
| AdvancedRanking.FilterVotesForSongs | utils/advanced-ranking.ts:8-11 | a vote is kept exactly when its song id is among the songs, with its multiplicity |
| AdvancedRanking.FilterVotesOrdered | utils/advanced-ranking.ts:10 | kept votes stay in input order |
| AdvancedRanking.FilterVotesPositions | utils/advanced-ranking.ts:8-11 | for any votes, repeated or not, the kept votes are read off the input at strictly increasing positions, and a position is kept exactly when its vote's song is among the songs |
| Seqs.FilterPositions | utils/advanced-ranking.ts:10 | `filter` keeps exactly the positions whose element passes, in increasing order |
| AdvancedRanking.SortByIdSpec | utils/advanced-ranking.ts:18 | the column order is a permutation of the songs ordered by id |
| AdvancedRanking.SongIdToIndex | utils/advanced-ranking.ts:19 | the index map has every listed id and maps it to the last column with that id |
| AdvancedRanking.LastRankSpec | utils/advanced-ranking.ts:21-29 | an expert's rank for a song is absent exactly without such a vote, and otherwise is the rank of the last one |
| AdvancedRanking.GroupVotes | utils/advanced-ranking.ts:21-29 | the map holds exactly the experts who voted, each mapping a song to the rank of their last vote for it |
| AdvancedRanking.FillRow | utils/advanced-ranking.ts:40-47 | the row holds the expert's rank in each song's last column and 0 elsewhere |
| AdvancedRanking.ExpertRowCell | utils/advanced-ranking.ts:40-47 | a nonzero cell is the rank of the expert's last vote for that column's song, and such a vote fills its column |
| AdvancedRanking.NoVotesNoRow | utils/advanced-ranking.ts:37-38 | an expert without votes gets no positive cell |
| AdvancedRanking.BuildRankingMatrix | utils/advanced-ranking.ts:16-56 | the loop over experts produces `RankingMatrix` |
| AdvancedRanking.RankingMatrixShape | utils/advanced-ranking.ts:31-55 | every row is as wide as the songs and has a positive cell; the rows are, in list order, those of the participants at strictly increasing positions of the list, one row per position, and a position gives a row exactly when its role is "expert" and its row of ranks has a positive cell |
| AdvancedRanking.GenerateRandomRanking | utils/advanced-ranking.ts:61-71 | Fisher–Yates over [1..length] returns a ranking of that length |
| AdvancedRanking.ComputeDistances | utils/advanced-ranking.ts:76-78 | fails exactly when a row differs in length from the reference; otherwise the Cook distance to each row, in order |
| AdvancedRanking.ComputeDistancesAgree | utils/advanced-ranking.ts:76-78 | on matching lengths these are the distances the search uses for the Cook criteria |
| AdvancedRanking.TopIndicesSpec | utils/advanced-ranking.ts:128-145 | over 7 columns, exactly 7 are kept, ascending, and each kept column has a smaller score than every dropped one, or an equal score and a smaller index |
| AdvancedRanking.CappedColumns | utils/advanced-ranking.ts:147-152 | the capped matrix and song list are the kept columns of every row and of the id-sorted songs |
| AdvancedRanking.FirstWithId | utils/advanced-ranking.ts:96 | `find` returns the first song with the id |
| AdvancedRanking.SelectSongs | utils/advanced-ranking.ts:93-97 | the selected records mapped back to songs |
| AdvancedRanking.RankCapped | utils/advanced-ranking.ts:122-191 | on a matrix with rows and columns, the reference ranking is a ranking as wide as the capped matrix and the result is `Outcome` of it |
| AdvancedRanking.ProcessAdvancedRanking | utils/advanced-ranking.ts:86-192 | returns the selected songs; an empty result when the matrix has no rows or columns; otherwise the capped search's outcome with a random reference ranking |
| AdvancedRanking.MapRankingInverse | utils/advanced-ranking.ts:167-175 | mapping a ranking to songs puts song i at the position of its rank and names a song at every position |
| AdvancedRanking.MedianRankings | utils/advanced-ranking.ts:162 | every median is a ranking as wide as the matrix |
| AdvancedRanking.MedianSongsInverse | utils/advanced-ranking.ts:162-182 | every reported median, mapped to songs, names each capped song once, at the position of its rank |

## Left out

- Randomness: `Math.random()` in `generateRandomRanking` is an arbitrary choice of the swap
  index in range. Which ranking is drawn is not modelled.
- AdvancedRanking.GenerateRandomRanking: promises only that the result is a ranking of the given
  length. This is because the distribution of the shuffle is not modelled.
- AdvancedRanking.ProcessAdvancedRanking: the reference ranking is constrained only to be a
  ranking of the capped width, for the same reason.
- `console.warn` in the cap of `processAdvancedRanking` is not modelled. It is a diagnostic with
  no effect on the result.
- Floating point: the cap's mean is `sum / rows`. The model orders columns by the integer sum,
  which gives the same order because every column shares the positive divisor. Rounding in the
  division is not modelled.
- Number semantics: all values are unbounded integers. Overflow past 2^53 and `NaN` are not
  modelled.
- `localeCompare` is modelled as lexicographic order on characters. Locale collation rules are
  not modelled.
- Heuristics.CountRanks: a vote whose rank is outside 1..3 gets `4 - rank` points and a vote
  count, as in the source. The extra `rankCounts` key (a `NaN` counter) that JavaScript creates
  for it is not modelled, because no rule reads it.
- Heuristics.TalliesCounters: the counter identities are stated only for ranks 1..3. Outside that
  range the source's points no longer match its rank counts.
- `expertRankings[0].length` on an empty list throws a `TypeError` in `processRankings`. The model
  returns the `NoRankings` error instead.
- The `as Song` cast in `processAdvancedRanking` cannot fail here: every selected record's id
  belongs to a listed song, which `SelectedKnown` proves.
- The BIG_INTEGER (100000) sentinel is kept as written, not corrected. A score above it is never
  recorded as a median. A score equal to it joins the ties.
- The user interface, the database client, authentication and every other file outside
  utils/ranking-algorithm.ts, utils/advanced-ranking.ts and utils/heuristics.ts are not part of
  this model. The record types of types/index.ts are modelled only as far as these files use
  them.
- The claim that `matrixToPlain` enumerates the upper triangle row by row is stated as two
  lemmas, `UpperRowsAt` and `UpperRowsPrefix`, rather than as one closed index formula over the
  whole matrix.
