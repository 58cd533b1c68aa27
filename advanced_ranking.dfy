/**
 * The advanced ranking pipeline of utils/advanced-ranking.ts: select songs with a heuristic, keep
 * the votes on them, arrange those votes as one rank row per expert, cap the matrix at seven
 * columns, and search it for the four medians, which are mapped back to songs.
 */
module AdvancedRanking {

  import opened Wrappers
  import opened Seqs
  import opened Sorting
  import opened Types
  import opened Permutations
  import opened Distances
  import opened RankingAlgorithm
  import opened Heuristics

  // ----- filterVotesForSongs -----

  /** The ids of `songs`, as the `Set` the filter looks them up in. */
  function IdSet(songs: seq<Song>): (ids: set<string>)
    ensures forall id :: id in ids <==> HasId(songs, id)
  {
    var ids := set i | 0 <= i < |songs| :: songs[i].id;
    assert forall id :: HasId(songs, id) ==> id in ids;
    ids
  }

  /** `filterVotesForSongs`: the votes on one of `songs`, each as often as it occurs. */
  function FilterVotesForSongs(songs: seq<Song>, votes: seq<Vote>): (kept: seq<Vote>)
    ensures forall v :: v in kept <==> v in votes && HasId(songs, v.songId)
    ensures forall v :: multiset(kept)[v] == if HasId(songs, v.songId) then multiset(votes)[v] else 0
  {
    var ids := IdSet(songs);
    var keep := (v: Vote) => v.songId in ids;
    forall v ensures multiset(Filter(votes, keep))[v] == if keep(v) then multiset(votes)[v] else 0 {
      FilterMultiset(votes, keep, v);
    }
    Filter(votes, keep)
  }

  /** The kept votes stay in their original order. */
  lemma FilterVotesOrdered(songs: seq<Song>, votes: seq<Vote>, k: nat, l: nat)
    requires Distinct(votes)
    requires k < l < |FilterVotesForSongs(songs, votes)|
    ensures IndexOf(votes, FilterVotesForSongs(songs, votes)[k]) < IndexOf(votes, FilterVotesForSongs(songs, votes)[l])
  {
    var ids := IdSet(songs);
    FilterKeepsOrder(votes, (v: Vote) => v.songId in ids, k, l);
  }

  /**
   * The kept votes are read off the input at increasing positions, and a position is kept
   * exactly when its vote is on a listed song; this holds for repeated votes too.
   */
  lemma FilterVotesPositions(songs: seq<Song>, votes: seq<Vote>)
    ensures exists idx: seq<nat> ::
      && IncreasingPositions(votes, FilterVotesForSongs(songs, votes), idx)
      && forall i :: 0 <= i < |votes| ==> (i in idx <==> HasId(songs, votes[i].songId))
  {
    var ids := IdSet(songs);
    var idx := FilterPositions(votes, (v: Vote) => v.songId in ids);
    assert IncreasingPositions(votes, FilterVotesForSongs(songs, votes), idx);
  }

  // ----- buildRankingMatrix -----

  /** The comparator `(a, b) => a.id.localeCompare(b.id)`. */
  predicate ById(a: Song, b: Song) {
    LexLeq(a.id, b.id)
  }

  /** `[...songs].sort(ById)`: the column order of the matrix. */
  function SortById(songs: seq<Song>): (sorted: seq<Song>)
    ensures |sorted| == |songs|
  {
    StableSort(songs, ById)
  }

  /** The columns are the songs themselves, in id order. */
  lemma SortByIdSpec(songs: seq<Song>)
    ensures multiset(SortById(songs)) == multiset(songs)
    ensures forall k, l :: 0 <= k < l < |songs| ==> LexLeq(SortById(songs)[k].id, SortById(songs)[l].id)
  {
    LexKeyTotalPreorder((s: Song) => s.id, ById);
    StableSortSpec(songs, ById);
    StableSortSorted(songs, ById);
  }

  /** Column `c` holds the last song with its id; `new Map(pairs)` keeps the last index of a key. */
  predicate LastOfId(sorted: seq<Song>, c: nat)
    requires c < |sorted|
  {
    forall j :: c < j < |sorted| ==> sorted[j].id != sorted[c].id
  }

  /** `songIdToIndex`: maps each id of `sorted` to the last position holding it. */
  method SongIdToIndex(sorted: seq<Song>) returns (index: map<string, nat>)
    ensures forall id :: id in index <==> HasId(sorted, id)
    ensures forall id :: id in index ==> index[id] < |sorted| && sorted[index[id]].id == id && LastOfId(sorted, index[id])
  {
    index := map[];
    for c := 0 to |sorted|
      invariant forall id :: id in index <==> HasId(sorted[..c], id)
      invariant forall id :: id in index ==>
        index[id] < c && sorted[index[id]].id == id && forall j :: index[id] < j < c ==> sorted[j].id != id
    {
      index := index[sorted[c].id := c];
      forall id | HasId(sorted[..c + 1], id) ensures id in index {
        var i :| 0 <= i < c + 1 && sorted[..c + 1][i].id == id;
        if i < c {
          assert sorted[..c][i] == sorted[..c + 1][i];
        }
      }
      forall id | id in index ensures HasId(sorted[..c + 1], id) {
        var i := index[id];
        assert sorted[..c + 1][i] == sorted[i];
      }
    }
    assert sorted[..|sorted|] == sorted;
  }

  /** The rank of the last vote of `expertId` on `songId`, if any: later `set`s overwrite. */
  function LastRank(votes: seq<Vote>, expertId: string, songId: string): Option<int> {
    if |votes| == 0 then None
    else
      var last := votes[|votes| - 1];
      if last.expertId == expertId && last.songId == songId then Some(last.rank)
      else LastRank(votes[..|votes| - 1], expertId, songId)
  }

  /** `LastRank` is absent exactly without such a vote, and otherwise the rank of the last one. */
  lemma {:induction false} LastRankSpec(votes: seq<Vote>, expertId: string, songId: string)
    ensures var r := LastRank(votes, expertId, songId);
      && (r.None? <==> forall i :: 0 <= i < |votes| ==> !(votes[i].expertId == expertId && votes[i].songId == songId))
      && (r.Some? ==> exists i ::
           && 0 <= i < |votes| && votes[i].expertId == expertId && votes[i].songId == songId
           && votes[i].rank == r.value
           && forall j :: i < j < |votes| ==> !(votes[j].expertId == expertId && votes[j].songId == songId))
  {
    if |votes| > 0 {
      var n := |votes| - 1;
      var front := votes[..n];
      LastRankSpec(front, expertId, songId);
      assert forall i :: 0 <= i < n ==> front[i] == votes[i];
      var last := votes[n];
      if !(last.expertId == expertId && last.songId == songId) {
        var r := LastRank(front, expertId, songId);
        if r.Some? {
          var i :| && 0 <= i < n && front[i].expertId == expertId && front[i].songId == songId
                   && front[i].rank == r.value
                   && forall j :: i < j < n ==> !(front[j].expertId == expertId && front[j].songId == songId);
          assert forall j :: i < j < |votes| ==> !(votes[j].expertId == expertId && votes[j].songId == songId);
        }
      }
    }
  }

  /** One more vote: it decides the rank when it is by `expertId` on `songId`. */
  lemma LastRankStep(votes: seq<Vote>, j: nat, expertId: string, songId: string)
    requires j < |votes|
    ensures LastRank(votes[..j + 1], expertId, songId)
      == if votes[j].expertId == expertId && votes[j].songId == songId then Some(votes[j].rank)
         else LastRank(votes[..j], expertId, songId)
  {
    assert votes[..j + 1][..j] == votes[..j];
  }

  /** `m.get(key)`. */
  function Lookup(m: map<string, int>, key: string): Option<int> {
    if key in m then Some(m[key]) else None
  }

  /** Some vote of `votes` is by `expertId`. */
  predicate VotedBy(votes: seq<Vote>, expertId: string) {
    exists i :: 0 <= i < |votes| && votes[i].expertId == expertId
  }

  /** An expert without votes has no rank for any song. */
  lemma NotVotedNone(votes: seq<Vote>, expertId: string, songId: string)
    requires !VotedBy(votes, expertId)
    ensures LastRank(votes, expertId, songId) == None
  {
    LastRankSpec(votes, expertId, songId);
  }

  /** One iteration of the grouping loop: the vote is recorded under its expert and song. */
  lemma GroupStep(votes: seq<Vote>, j: nat, before: map<string, map<string, int>>,
                  after: map<string, map<string, int>>)
    requires j < |votes|
    requires forall e :: e in before <==> VotedBy(votes[..j], e)
    requires forall e, s :: e in before ==> Lookup(before[e], s) == LastRank(votes[..j], e, s)
    requires var v := votes[j];
      after == before[v.expertId := (if v.expertId in before then before[v.expertId] else map[])[v.songId := v.rank]]
    ensures forall e :: e in after <==> VotedBy(votes[..j + 1], e)
    ensures forall e, s :: e in after ==> Lookup(after[e], s) == LastRank(votes[..j + 1], e, s)
  {
    var vote := votes[j];
    PrefixStep(votes, j);
    forall e, s | e in after
      ensures Lookup(after[e], s) == LastRank(votes[..j + 1], e, s)
    {
      LastRankStep(votes, j, e, s);
      if e == vote.expertId && e !in before {
        NotVotedNone(votes[..j], e, s);
      }
    }
    forall e ensures e in after <==> VotedBy(votes[..j + 1], e) {
      if VotedBy(votes[..j + 1], e) && e != vote.expertId {
        var i :| 0 <= i < j + 1 && votes[..j + 1][i].expertId == e;
        assert votes[..j][i] == votes[..j + 1][i];
      }
      if VotedBy(votes[..j], e) {
        var i :| 0 <= i < j && votes[..j][i].expertId == e;
        assert votes[..j + 1][i] == votes[..j][i];
      }
    }
  }

  /** `votesByExpert`: per expert who voted, the rank of their last vote on each song. */
  method GroupVotes(votes: seq<Vote>) returns (byExpert: map<string, map<string, int>>)
    ensures forall e :: e in byExpert <==> VotedBy(votes, e)
    ensures forall e, s :: e in byExpert ==> Lookup(byExpert[e], s) == LastRank(votes, e, s)
  {
    byExpert := map[];
    for j := 0 to |votes|
      invariant forall e :: e in byExpert <==> VotedBy(votes[..j], e)
      invariant forall e, s :: e in byExpert ==> Lookup(byExpert[e], s) == LastRank(votes[..j], e, s)
    {
      var vote := votes[j];
      var before := byExpert;
      if vote.expertId !in byExpert {
        byExpert := byExpert[vote.expertId := map[]];
      }
      byExpert := byExpert[vote.expertId := byExpert[vote.expertId][vote.songId := vote.rank]];
      GroupStep(votes, j, before, byExpert);
    }
    assert votes[..|votes|] == votes;
  }

  /** A cell: the expert's last rank for the song of column `c` when `c` is its id's column, else 0. */
  function Cell(sorted: seq<Song>, votes: seq<Vote>, expertId: string, c: nat): int
    requires c < |sorted|
  {
    if LastOfId(sorted, c) then
      match LastRank(votes, expertId, sorted[c].id)
      case Some(rank) => rank
      case None => 0
    else 0
  }

  /** The row built for one expert, before the check that some rank is positive. */
  function ExpertRow(sorted: seq<Song>, votes: seq<Vote>, expertId: string): (row: seq<int>)
    ensures |row| == |sorted|
  {
    seq(|sorted|, c requires 0 <= c < |sorted| => Cell(sorted, votes, expertId, c))
  }

  /** `row.some((rank) => rank > 0)`. */
  predicate AnyPositive(row: seq<int>) {
    exists c :: 0 <= c < |row| && row[c] > 0
  }

  /** An expert contributes a row when their role is "expert" and some rank in it is positive. */
  predicate Contributes(sorted: seq<Song>, votes: seq<Vote>, expert: Expert) {
    expert.role == ExpertRole && AnyPositive(ExpertRow(sorted, votes, expert.id))
  }

  function Keep(sorted: seq<Song>, votes: seq<Vote>): Expert -> bool {
    (e: Expert) => Contributes(sorted, votes, e)
  }

  /** The experts that contribute, in order. */
  function Contributors(sorted: seq<Song>, votes: seq<Vote>, experts: seq<Expert>): (cs: seq<Expert>)
    ensures |cs| <= |experts|
    ensures forall e :: e in cs <==> e in experts && Contributes(sorted, votes, e)
  {
    Filter(experts, Keep(sorted, votes))
  }

  /** What `buildRankingMatrix` returns: the rows of the contributing experts, in order. */
  function RankingMatrix(filteredSongs: seq<Song>, filteredVotes: seq<Vote>, experts: seq<Expert>): (m: seq<seq<int>>)
    ensures |m| <= |experts|
    ensures AllLength(m, |filteredSongs|)
  {
    var sorted := SortById(filteredSongs);
    var cs := Contributors(sorted, filteredVotes, experts);
    seq(|cs|, t requires 0 <= t < |cs| => ExpertRow(sorted, filteredVotes, cs[t].id))
  }

  /**
   * The matrix is as wide as the song list and every row has a positive rank. Its rows are the
   * rows of the listed experts at increasing positions `idx` of the list, one row per position,
   * and a position is among them exactly when its participant has role "expert" and a positive
   * rank in their row.
   */
  lemma RankingMatrixShape(filteredSongs: seq<Song>, filteredVotes: seq<Vote>, experts: seq<Expert>)
    ensures var m := RankingMatrix(filteredSongs, filteredVotes, experts);
      && |m| <= |experts|
      && AllLength(m, |filteredSongs|)
      && (forall t :: 0 <= t < |m| ==> AnyPositive(m[t]))
    ensures var sorted, m := SortById(filteredSongs), RankingMatrix(filteredSongs, filteredVotes, experts);
      exists idx: seq<nat> ::
        && |idx| == |m|
        && (forall t, u :: 0 <= t < u < |idx| ==> idx[t] < idx[u])
        && (forall t :: 0 <= t < |idx| ==>
              idx[t] < |experts| && m[t] == ExpertRow(sorted, filteredVotes, experts[idx[t]].id))
        && (forall i :: 0 <= i < |experts| ==>
              (i in idx <==> experts[i].role == ExpertRole && AnyPositive(ExpertRow(sorted, filteredVotes, experts[i].id))))
  {
    var sorted := SortById(filteredSongs);
    var cs := Contributors(sorted, filteredVotes, experts);
    var m := RankingMatrix(filteredSongs, filteredVotes, experts);
    forall t | 0 <= t < |m| ensures AnyPositive(m[t]) {
      assert cs[t] in cs;
    }
    var idx := ContributorPositions(filteredSongs, filteredVotes, experts);
  }

  /** The positions of `experts` whose rows form the matrix, for `RankingMatrixShape`. */
  lemma ContributorPositions(filteredSongs: seq<Song>, filteredVotes: seq<Vote>, experts: seq<Expert>)
    returns (idx: seq<nat>)
    ensures var sorted, m := SortById(filteredSongs), RankingMatrix(filteredSongs, filteredVotes, experts);
      && |idx| == |m|
      && (forall t, u :: 0 <= t < u < |idx| ==> idx[t] < idx[u])
      && (forall t :: 0 <= t < |idx| ==>
            idx[t] < |experts| && m[t] == ExpertRow(sorted, filteredVotes, experts[idx[t]].id))
      && (forall i :: 0 <= i < |experts| ==>
            (i in idx <==> experts[i].role == ExpertRole && AnyPositive(ExpertRow(sorted, filteredVotes, experts[i].id))))
  {
    var sorted := SortById(filteredSongs);
    var keep := Keep(sorted, filteredVotes);
    var cs := Contributors(sorted, filteredVotes, experts);
    var m := RankingMatrix(filteredSongs, filteredVotes, experts);
    idx := FilterPositions(experts, keep);
    assert cs == Filter(experts, keep);
    forall t | 0 <= t < |idx| ensures idx[t] < |experts| && m[t] == ExpertRow(sorted, filteredVotes, experts[idx[t]].id) {
      assert cs[t] == experts[idx[t]];
      assert m[t] == ExpertRow(sorted, filteredVotes, cs[t].id);
    }
    forall i | 0 <= i < |experts|
      ensures i in idx <==> experts[i].role == ExpertRole && AnyPositive(ExpertRow(sorted, filteredVotes, experts[i].id))
    {
      assert keep(experts[i]) == Contributes(sorted, filteredVotes, experts[i]);
    }
  }

  /**
   * A cell of an expert's row is the rank of that expert's last vote on the song of the column,
   * or 0 when there is none or when the column repeats an id a later column also holds.
   */
  lemma ExpertRowCell(sorted: seq<Song>, votes: seq<Vote>, expertId: string, c: nat)
    requires c < |sorted|
    ensures var cell := ExpertRow(sorted, votes, expertId)[c];
      && (cell != 0 ==>
           && LastOfId(sorted, c)
           && exists i ::
                && 0 <= i < |votes| && votes[i].expertId == expertId
                && votes[i].songId == sorted[c].id && votes[i].rank == cell
                && forall j :: i < j < |votes| ==> !(votes[j].expertId == expertId && votes[j].songId == sorted[c].id))
      && ((LastOfId(sorted, c) && exists i :: 0 <= i < |votes| && votes[i].expertId == expertId && votes[i].songId == sorted[c].id) ==>
           exists i :: 0 <= i < |votes| && votes[i].expertId == expertId && votes[i].songId == sorted[c].id && votes[i].rank == cell)
  {
    LastRankSpec(votes, expertId, sorted[c].id);
  }

  /** Rows, as `buildRankingMatrix` pushes them, for the experts in `cs`. */
  function RowsOf(sorted: seq<Song>, votes: seq<Vote>, cs: seq<Expert>): (rows: seq<seq<int>>)
    ensures |rows| == |cs|
  {
    seq(|cs|, t requires 0 <= t < |cs| => ExpertRow(sorted, votes, cs[t].id))
  }

  /** `buildRankingMatrix`: one pass over the experts, filling each row from the expert's votes. */
  method BuildRankingMatrix(filteredSongs: seq<Song>, filteredVotes: seq<Vote>, experts: seq<Expert>)
    returns (matrix: seq<seq<int>>)
    ensures matrix == RankingMatrix(filteredSongs, filteredVotes, experts)
  {
    var sortedSongs := SortById(filteredSongs);
    var songIdToIndex := SongIdToIndex(sortedSongs);
    var votesByExpert := GroupVotes(filteredVotes);
    matrix := [];
    for t := 0 to |experts|
      invariant matrix == RowsOf(sortedSongs, filteredVotes, Contributors(sortedSongs, filteredVotes, experts[..t]))
    {
      var expert := experts[t];
      RowsStep(sortedSongs, filteredVotes, experts, t);
      if expert.role != ExpertRole {
        continue;
      }
      if expert.id !in votesByExpert || |votesByExpert[expert.id]| == 0 {
        NoVotesNoRow(sortedSongs, filteredVotes, expert.id, votesByExpert);
        continue;
      }
      var expertVotes := votesByExpert[expert.id];
      var row := FillRow(sortedSongs, songIdToIndex, expertVotes);
      FilledRow(sortedSongs, filteredVotes, expert.id, expertVotes, row);
      if AnyPositive(row) {
        matrix := matrix + [row];
      }
    }
    assert experts[..|experts|] == experts;
  }

  /** One more expert appends their row exactly when they contribute. */
  lemma RowsStep(sorted: seq<Song>, votes: seq<Vote>, experts: seq<Expert>, t: nat)
    requires t < |experts|
    ensures RowsOf(sorted, votes, Contributors(sorted, votes, experts[..t + 1])) ==
      RowsOf(sorted, votes, Contributors(sorted, votes, experts[..t]))
      + (if Contributes(sorted, votes, experts[t]) then [ExpertRow(sorted, votes, experts[t].id)] else [])
  {
    var front := experts[..t + 1];
    assert front[..t] == experts[..t] && front[t] == experts[t];
    assert Contributors(sorted, votes, front) == Contributors(sorted, votes, experts[..t])
      + (if Contributes(sorted, votes, experts[t]) then [experts[t]] else []);
  }

  /** The row filled from the expert's votes is the expert's row. */
  lemma FilledRow(sorted: seq<Song>, votes: seq<Vote>, expertId: string, expertVotes: map<string, int>, row: seq<int>)
    requires forall s :: Lookup(expertVotes, s) == LastRank(votes, expertId, s)
    requires |row| == |sorted|
    requires forall c :: 0 <= c < |sorted| ==>
      row[c] == if LastOfId(sorted, c) then (match Lookup(expertVotes, sorted[c].id) case Some(rank) => rank case None => 0) else 0
    ensures row == ExpertRow(sorted, votes, expertId)
  {
  }

  /** An expert without votes gets an all-zero row, which is never pushed. */
  lemma NoVotesNoRow(sorted: seq<Song>, votes: seq<Vote>, expertId: string, byExpert: map<string, map<string, int>>)
    requires forall e :: e in byExpert <==> VotedBy(votes, e)
    requires forall e, s :: e in byExpert ==> Lookup(byExpert[e], s) == LastRank(votes, e, s)
    requires expertId !in byExpert || |byExpert[expertId]| == 0
    ensures !AnyPositive(ExpertRow(sorted, votes, expertId))
  {
    forall c | 0 <= c < |sorted| ensures ExpertRow(sorted, votes, expertId)[c] == 0 {
      var id := sorted[c].id;
      LastRankSpec(votes, expertId, id);
      if expertId in byExpert {
        assert Lookup(byExpert[expertId], id) == None;
      }
    }
  }

  /**
   * The row for one expert: zeros, then `row[songIdToIndex.get(songId)] = rank` for each of the
   * expert's songs that has a column. The songs are taken in an arbitrary order; distinct ids
   * have distinct columns, so the order does not matter.
   */
  method FillRow(sorted: seq<Song>, index: map<string, nat>, expertVotes: map<string, int>) returns (row: seq<int>)
    requires forall id :: id in index <==> HasId(sorted, id)
    requires forall id :: id in index ==> index[id] < |sorted| && sorted[index[id]].id == id && LastOfId(sorted, index[id])
    ensures |row| == |sorted|
    ensures forall c :: 0 <= c < |sorted| ==>
      row[c] == if LastOfId(sorted, c) then (match Lookup(expertVotes, sorted[c].id) case Some(rank) => rank case None => 0) else 0
  {
    var cells := new int[|sorted|](_ => 0);
    var pending := expertVotes.Keys;
    while pending != {}
      invariant pending <= expertVotes.Keys
      invariant forall c :: 0 <= c < cells.Length ==>
        cells[c] == if LastOfId(sorted, c) && sorted[c].id in expertVotes && sorted[c].id !in pending
                    then expertVotes[sorted[c].id] else 0
      decreases pending
    {
      var songId :| songId in pending;
      pending := pending - {songId};
      if songId in index {
        var c := index[songId];
        cells[c] := expertVotes[songId];
        forall d | 0 <= d < cells.Length && LastOfId(sorted, d) && sorted[d].id == songId ensures d == c {
        }
      } else {
        forall d | 0 <= d < cells.Length ensures sorted[d].id != songId {
          assert HasId(sorted, sorted[d].id);
        }
      }
    }
    row := cells[..];
  }

  // ----- generateRandomRanking -----

  /** Exchanging two entries keeps the multiset of entries. */
  lemma SwapMultiset(a: seq<int>, i: nat, j: nat)
    requires i < |a| && j < |a|
    ensures multiset(a[i := a[j]][j := a[i]]) == multiset(a)
  {
  }

  /**
   * `generateRandomRanking`: `[1 .. length]` shuffled by Fisher-Yates. The random index `j` of
   * each step is any value in `[0, i]`; whichever is picked, the result is a ranking.
   */
  method GenerateRandomRanking(length: nat) returns (ranking: seq<int>)
    ensures |ranking| == length && IsRanking(ranking)
  {
    var cells := new int[length](k => k + 1);
    assert cells[..] == Iota(length);
    var i := length - 1;
    while i > 0
      invariant -1 <= i < length
      invariant multiset(cells[..]) == multiset(Iota(length))
    {
      var j :| 0 <= j <= i;
      ghost var before := cells[..];
      cells[i], cells[j] := cells[j], cells[i];
      SwapMultiset(before, i, j);
      assert cells[..] == before[i := before[j]][j := before[i]];
      i := i - 1;
    }
    ranking := cells[..];
  }

  // ----- computeDistances -----

  /**
   * `computeDistances`: the Cook distance from the reference to each expert row, in row order;
   * it throws, as `calculateCookDistance` does, as soon as a row has another length.
   */
  function ComputeDistances(referenceRanking: seq<int>, expertRankings: seq<seq<int>>): (r: Result<seq<int>, DistanceError>)
    ensures r.Failure? <==> !AllLength(expertRankings, |referenceRanking|)
    ensures r.Success? ==>
      && |r.value| == |expertRankings|
      && forall t :: 0 <= t < |expertRankings| ==> CalculateCookDistance(referenceRanking, expertRankings[t]) == Success(r.value[t])
  {
    if |expertRankings| == 0 then Success([])
    else
      var front := expertRankings[..|expertRankings| - 1];
      var last := expertRankings[|expertRankings| - 1];
      assert forall t :: 0 <= t < |front| ==> front[t] == expertRankings[t];
      match ComputeDistances(referenceRanking, front)
      case Failure(e) => Failure(e)
      case Success(ds) =>
        match CalculateCookDistance(referenceRanking, last)
        case Failure(e) => Failure(e)
        case Success(d) => Success(ds + [d])
  }

  /** On rows of the reference's length the distances are the Cook distances of the median search. */
  lemma {:induction false} ComputeDistancesAgree(referenceRanking: seq<int>, expertRankings: seq<seq<int>>)
    requires AllLength(expertRankings, |referenceRanking|)
    ensures ComputeDistances(referenceRanking, expertRankings) == Success(CookDistances(referenceRanking, expertRankings))
  {
    var n := |expertRankings|;
    if n > 0 {
      var front := expertRankings[..n - 1];
      assert AllLength(front, |referenceRanking|);
      ComputeDistancesAgree(referenceRanking, front);
      DistancesStep(referenceRanking, expertRankings, n - 1);
      assert expertRankings[..n] == expertRankings;
    }
  }

  // ----- the seven-column cap -----

  const MAX_SONGS_FOR_PERMUTATIONS: nat := 7

  /** `row[colIndex] || 0`: a missing cell counts as 0. */
  function CellOrZero(row: seq<int>, c: nat): int {
    if c < |row| then row[c] else 0
  }

  /** The sum of column `c` over all rows; the mean's denominator is the same for every column. */
  function ColumnSum(rows: seq<seq<int>>, c: nat): int {
    Sum(seq(|rows|, t requires 0 <= t < |rows| => CellOrZero(rows[t], c)))
  }

  /** The score of every column of the first row's width. */
  function ColumnSums(rows: seq<seq<int>>): (sums: seq<int>)
    requires |rows| > 0
    ensures |sums| == |rows[0]|
  {
    seq(|rows[0]|, c requires 0 <= c < |rows[0]| => ColumnSum(rows, c))
  }

  function Min(a: int, b: int): int {
    if a <= b then a else b
  }

  /** The columns stably sorted by score, `slice(0, 7)`. */
  function BestByScore(rows: seq<seq<int>>): (best: seq<int>)
    requires |rows| > 0
    ensures |best| == Min(MAX_SONGS_FOR_PERMUTATIONS, |rows[0]|)
    ensures forall k :: 0 <= k < |best| ==> 0 <= best[k] < |rows[0]|
  {
    var sums := ColumnSums(rows);
    var byScore := SortIndices(sums, Ascending, |sums|);
    seq(Min(MAX_SONGS_FOR_PERMUTATIONS, |byScore|), k requires 0 <= k < Min(MAX_SONGS_FOR_PERMUTATIONS, |byScore|) => byScore[k] as int)
  }

  /**
   * `topIndices`: the columns stably sorted by score, the first seven of them, sorted again by
   * index.
   */
  function TopIndices(rows: seq<seq<int>>): (top: seq<int>)
    requires |rows| > 0
    ensures |top| == Min(MAX_SONGS_FOR_PERMUTATIONS, |rows[0]|)
    ensures forall k :: 0 <= k < |top| ==> 0 <= top[k] < |rows[0]|
  {
    var best := BestByScore(rows);
    AscendingTotalPreorder();
    StableSortSpec(best, Ascending);
    assert forall k :: 0 <= k < |best| ==> 0 <= best[k] < |rows[0]|;
    forall k | 0 <= k < |best| ensures 0 <= StableSort(best, Ascending)[k] < |rows[0]| {
      assert StableSort(best, Ascending)[k] in multiset(best);
    }
    StableSort(best, Ascending)
  }

  /**
   * The kept columns are seven distinct columns in ascending order, and each has a smaller
   * score than every dropped column, or the same score and a lower index.
   */
  lemma TopIndicesSpec(rows: seq<seq<int>>)
    requires |rows| > 0 && |rows[0]| > MAX_SONGS_FOR_PERMUTATIONS
    ensures var top, sums := TopIndices(rows), ColumnSums(rows);
      && |top| == MAX_SONGS_FOR_PERMUTATIONS
      && (forall k, l :: 0 <= k < l < |top| ==> top[k] < top[l])
      && forall c, d :: c in top && 0 <= d < |rows[0]| && d !in top ==>
           sums[c] < sums[d] || (sums[c] == sums[d] && c < d)
  {
    TopAscending(rows);
    var sums := ColumnSums(rows);
    var byScore := SortIndices(sums, Ascending, |sums|);
    var best := BestByScore(rows);
    assert forall k :: 0 <= k < |best| ==> best[k] == byScore[k];
    AscendingTotalPreorder();
    StableSortSpec(best, Ascending);
    SortIndicesPermutation(sums, Ascending, |sums|);
    SortIndicesOrdered(sums, Ascending, |sums|);
    SmallestFirst(sums, byScore, best, TopIndices(rows));
  }

  /** The kept columns are distinct and ascending. */
  lemma TopAscending(rows: seq<seq<int>>)
    requires |rows| > 0 && |rows[0]| > MAX_SONGS_FOR_PERMUTATIONS
    ensures forall k, l :: 0 <= k < l < |TopIndices(rows)| ==> TopIndices(rows)[k] < TopIndices(rows)[l]
  {
    var sums := ColumnSums(rows);
    var byScore := SortIndices(sums, Ascending, |sums|);
    var best := BestByScore(rows);
    var top := TopIndices(rows);
    assert forall k :: 0 <= k < |best| ==> best[k] == byScore[k];
    AscendingTotalPreorder();
    StableSortSpec(best, Ascending);
    StableSortSorted(best, Ascending);
    SortIndicesPermutation(sums, Ascending, |sums|);
    assert Distinct(best) by {
      forall k, l | 0 <= k < l < |best| ensures best[k] != best[l] {
        assert byScore[k] != byScore[l];
      }
    }
    SameElementsDistinct(top, best);
  }

  /**
   * A prefix of a stable ascending order of `sums`, however rearranged, holds positions whose
   * sums are below those of all other positions, ties going to the lower position.
   */
  lemma SmallestFirst(sums: seq<int>, order: seq<nat>, best: seq<int>, top: seq<int>)
    requires Below(order, |sums|) && StablyOrdered(sums, Ascending, order)
    requires forall d :: 0 <= d < |sums| ==> d in order
    requires |best| <= |order| && forall k :: 0 <= k < |best| ==> best[k] == order[k]
    requires multiset(top) == multiset(best) && forall k :: 0 <= k < |top| ==> 0 <= top[k] < |sums|
    ensures forall c, d :: c in top && 0 <= d < |sums| && d !in top ==> sums[c] < sums[d] || (sums[c] == sums[d] && c < d)
  {
    forall j | 0 <= j < |best| ensures order[j] in top {
      assert best[j] in multiset(top);
    }
    forall c, d | c in top && 0 <= d < |sums| && d !in top
      ensures sums[c] < sums[d] || (sums[c] == sums[d] && c < d)
    {
      assert c in multiset(best);
      var k :| 0 <= k < |best| && best[k] == c;
      assert d in order;
      var l :| 0 <= l < |order| && order[l] == d;
      assert Ascending(sums[order[k]], sums[order[l]]);
    }
  }

  /** The matrix and the songs the search runs on. */
  datatype Processed = Processed(matrix: seq<seq<int>>, songs: seq<Song>)

  /** The listed columns of one row, in the listed order. */
  function ProjectRow(row: seq<int>, columns: seq<int>): (r: seq<int>)
    requires forall k :: 0 <= k < |columns| ==> 0 <= columns[k] < |row|
    ensures |r| == |columns| && forall k :: 0 <= k < |columns| ==> r[k] == row[columns[k]]
  {
    seq(|columns|, k requires 0 <= k < |columns| => row[columns[k]])
  }

  /** Only the listed columns of each row. */
  function Project(rows: seq<seq<int>>, columns: seq<int>): (m: seq<seq<int>>)
    requires forall t :: 0 <= t < |rows| ==> forall k :: 0 <= k < |columns| ==> 0 <= columns[k] < |rows[t]|
    ensures |m| == |rows| && AllLength(m, |columns|)
  {
    seq(|rows|, t requires 0 <= t < |rows| => ProjectRow(rows[t], columns))
  }

  /** `processedMatrix` and `processedSongs`: the input when it has at most seven columns, else the top seven. */
  function Capped(matrix: seq<seq<int>>, songs: seq<Song>): (p: Processed)
    requires |matrix| > 0 && AllLength(matrix, |songs|)
    ensures |p.matrix| == |matrix| && |p.songs| == Min(MAX_SONGS_FOR_PERMUTATIONS, |songs|)
    ensures AllLength(p.matrix, |p.songs|)
  {
    if |matrix[0]| > MAX_SONGS_FOR_PERMUTATIONS then
      var top := TopIndices(matrix);
      var sorted := SortById(songs);
      Processed(Project(matrix, top), seq(|top|, k requires 0 <= k < |top| => sorted[top[k]]))
    else Processed(matrix, songs)
  }

  /**
   * Under the cap each row keeps exactly the cells of the kept columns, in index order, and
   * the song list names the songs of those columns.
   */
  lemma CappedColumns(matrix: seq<seq<int>>, songs: seq<Song>)
    requires |matrix| > 0 && AllLength(matrix, |songs|) && |songs| > MAX_SONGS_FOR_PERMUTATIONS
    ensures var p, top := Capped(matrix, songs), TopIndices(matrix);
      && (forall t, k :: 0 <= t < |matrix| && 0 <= k < |top| ==> p.matrix[t][k] == matrix[t][top[k]])
      && (forall k :: 0 <= k < |top| ==> p.songs[k] == SortById(songs)[top[k]])
  {
  }

  // ----- mapRankingsToSongs -----

  /** Position `p` names the song at the index where the ranking holds `p + 1`, if there is one. */
  function MapRanking(ranking: seq<int>, sortedSongs: seq<Song>): (named: seq<Option<Song>>)
    ensures |named| == |ranking|
  {
    seq(|ranking|, p requires 0 <= p < |ranking| =>
      var i := IndexOf(ranking, p + 1);
      if 0 <= i < |sortedSongs| then Some(sortedSongs[i]) else None)
  }

  /** `mapRankingsToSongs`. */
  function MapRankings(rankings: seq<seq<int>>, sortedSongs: seq<Song>): (named: seq<seq<Option<Song>>>)
    ensures |named| == |rankings|
  {
    seq(|rankings|, t requires 0 <= t < |rankings| => MapRanking(rankings[t], sortedSongs))
  }

  /**
   * For a ranking as long as the song list, position `p` holds the song of the index ranked
   * `p + 1`: the inverse permutation, naming every song exactly once.
   */
  lemma MapRankingInverse(ranking: seq<int>, sortedSongs: seq<Song>)
    requires IsRanking(ranking) && |ranking| == |sortedSongs|
    ensures forall i :: 0 <= i < |ranking| ==>
      1 <= ranking[i] <= |ranking| && MapRanking(ranking, sortedSongs)[ranking[i] - 1] == Some(sortedSongs[i])
    ensures forall p :: 0 <= p < |ranking| ==> MapRanking(ranking, sortedSongs)[p].Some?
  {
    var n := |ranking|;
    RankingFacts(ranking);
    forall i | 0 <= i < n
      ensures 1 <= ranking[i] <= n && MapRanking(ranking, sortedSongs)[ranking[i] - 1] == Some(sortedSongs[i])
    {
      IndexOfDistinct(ranking, i);
      MapRankingAt(ranking, sortedSongs, ranking[i] - 1);
    }
    forall p | 0 <= p < n ensures MapRanking(ranking, sortedSongs)[p].Some? {
      assert p + 1 in ranking;
      MapRankingAt(ranking, sortedSongs, p);
    }
  }

  /** One position of `MapRanking`. */
  lemma MapRankingAt(ranking: seq<int>, sortedSongs: seq<Song>, p: nat)
    requires p < |ranking|
    ensures MapRanking(ranking, sortedSongs)[p] ==
      if 0 <= IndexOf(ranking, p + 1) < |sortedSongs| then Some(sortedSongs[IndexOf(ranking, p + 1)]) else None
  {
  }

  /** A ranking holds each of `1 .. n` once and nothing else. */
  lemma RankingFacts(ranking: seq<int>)
    requires IsRanking(ranking)
    ensures Distinct(ranking)
    ensures forall i :: 0 <= i < |ranking| ==> 1 <= ranking[i] <= |ranking|
    ensures forall p :: 1 <= p <= |ranking| ==> p in ranking
  {
    var n := |ranking|;
    IotaDistinct(n);
    SameElementsDistinct(ranking, Iota(n));
    forall i | 0 <= i < n ensures 1 <= ranking[i] <= n {
      assert ranking[i] in multiset(Iota(n));
    }
    forall p | 1 <= p <= n ensures p in ranking {
      assert Iota(n)[p - 1] == p;
      assert p in multiset(ranking);
    }
  }

  // ----- processAdvancedRanking -----

  datatype SongRankings = SongRankings(
    cookSayford: seq<seq<Option<Song>>>,
    gv: seq<seq<Option<Song>>>,
    kemenySnell: seq<seq<Option<Song>>>,
    vg: seq<seq<Option<Song>>>)

  datatype AdvancedRankingResult = AdvancedRankingResult(
    filteredSongs: seq<Song>,
    rankingMatrix: seq<seq<int>>,
    referenceRanking: seq<int>,
    distances: seq<int>,
    medians: Option<RankingMedians>,
    songRankings: SongRankings)

  /** `songs.find((song) => song.id === id)`: the first song with the id. */
  function FirstWithId(songs: seq<Song>, id: string): (s: Song)
    requires HasId(songs, id)
    ensures s.id == id
    ensures exists i :: 0 <= i < |songs| && songs[i] == s && forall j :: 0 <= j < i ==> songs[j].id != id
  {
    if songs[0].id == id then songs[0]
    else
      var i :| 0 <= i < |songs| && songs[i].id == id;
      assert songs[1..][i - 1] == songs[i];
      var s := FirstWithId(songs[1..], id);
      var k :| 0 <= k < |songs[1..]| && songs[1..][k] == s && forall j :: 0 <= j < k ==> songs[1..][j].id != id;
      assert songs[k + 1] == s;
      s
  }

  /** Every record a heuristic selects belongs to a listed song. */
  lemma SelectedKnown(votes: seq<Vote>, songs: seq<Song>, heuristic: Heuristic)
    ensures forall r :: r in Select(Tallies(votes, songs), heuristic) ==> HasId(songs, r.songId)
  {
    var results := Tallies(votes, songs);
    SelectMembers(results, heuristic);
    TalliesShape(votes, songs);
    forall r | r in Select(results, heuristic) ensures HasId(songs, r.songId) {
      var k :| 0 <= k < |results| && results[k] == r;
      assert SongIds(songs)[k] in SongIds(songs);
    }
  }

  /** `filteredSongs`: the selected records mapped back to the first song with each id. */
  function FilteredSongs(votes: seq<Vote>, songs: seq<Song>, heuristic: Heuristic): (filtered: seq<Song>)
    ensures |filtered| == |Select(Tallies(votes, songs), heuristic)|
  {
    var selected := Select(Tallies(votes, songs), heuristic);
    SelectedKnown(votes, songs, heuristic);
    seq(|selected|, k requires 0 <= k < |selected| => assert selected[k] in selected; FirstWithId(songs, selected[k].songId))
  }

  /** The matrix built from the selected songs and their votes. */
  function MatrixFor(votes: seq<Vote>, experts: seq<Expert>, filteredSongs: seq<Song>): (m: seq<seq<int>>)
    ensures AllLength(m, |filteredSongs|)
  {
    RankingMatrix(filteredSongs, FilterVotesForSongs(filteredSongs, votes), experts)
  }

  /** The guard "no rows or no columns". */
  predicate TooLittle(m: seq<seq<int>>) {
    |m| == 0 || |m[0]| == 0
  }

  /** The four median lists mapped back to songs. */
  function SongRankingsOf(medians: RankingMedians, sortedSongs: seq<Song>): SongRankings {
    SongRankings(
      MapRankings(medians.cookSayford.rankings, sortedSongs),
      MapRankings(medians.gv.rankings, sortedSongs),
      MapRankings(medians.kemenySnell.rankings, sortedSongs),
      MapRankings(medians.vg.rankings, sortedSongs))
  }

  /** The result of the search on a matrix with rows and columns, for a given reference ranking. */
  function Outcome(rankingMatrix: seq<seq<int>>, filteredSongs: seq<Song>, referenceRanking: seq<int>): AdvancedRankingResult
    requires !TooLittle(rankingMatrix) && AllLength(rankingMatrix, |filteredSongs|)
    requires |referenceRanking| == |Capped(rankingMatrix, filteredSongs).songs|
  {
    var p := Capped(rankingMatrix, filteredSongs);
    var medians := Medians(p.matrix);
    AdvancedRankingResult(filteredSongs, rankingMatrix, referenceRanking, CookDistances(referenceRanking, p.matrix),
      Some(medians), SongRankingsOf(medians, SortById(p.songs)))
  }

  /** The result without rows or columns: only the selected songs. */
  function Empty(filteredSongs: seq<Song>): AdvancedRankingResult {
    AdvancedRankingResult(filteredSongs, [], [], [], None, SongRankings([], [], [], []))
  }

  /**
   * `processAdvancedRanking`. Without rows or columns it returns the selected songs and empty
   * results. Otherwise it returns the untruncated matrix, a random ranking as wide as the capped
   * matrix, the Cook distances from it to the capped rows, the medians of the capped matrix and
   * those medians as songs.
   */
  method ProcessAdvancedRanking(songs: seq<Song>, votes: seq<Vote>, experts: seq<Expert>, heuristic: Heuristic)
    returns (result: AdvancedRankingResult)
    ensures result.filteredSongs == FilteredSongs(votes, songs, heuristic)
    ensures TooLittle(MatrixFor(votes, experts, result.filteredSongs)) ==> result == Empty(result.filteredSongs)
    ensures !TooLittle(MatrixFor(votes, experts, result.filteredSongs)) ==>
      && |result.referenceRanking| == |Capped(MatrixFor(votes, experts, result.filteredSongs), result.filteredSongs).songs|
      && IsRanking(result.referenceRanking)
      && result == Outcome(MatrixFor(votes, experts, result.filteredSongs), result.filteredSongs, result.referenceRanking)
  {
    var filteredSongs := SelectSongs(votes, songs, heuristic);
    var filteredVotes := FilterVotesForSongs(filteredSongs, votes);
    var rankingMatrix := BuildRankingMatrix(filteredSongs, filteredVotes, experts);

    if |rankingMatrix| == 0 || |rankingMatrix[0]| == 0 {
      return Empty(filteredSongs);
    }
    result := RankCapped(rankingMatrix, filteredSongs);
  }

  /** Steps 1 and 2 of `processAdvancedRanking`: the selected records mapped back to songs. */
  method SelectSongs(votes: seq<Vote>, songs: seq<Song>, heuristic: Heuristic) returns (filteredSongs: seq<Song>)
    ensures filteredSongs == FilteredSongs(votes, songs, heuristic)
  {
    var filteredResults := ApplyHeuristic(votes, songs, heuristic);
    SelectedKnown(votes, songs, heuristic);
    filteredSongs := seq(|filteredResults|, k requires 0 <= k < |filteredResults| =>
      assert filteredResults[k] in filteredResults; FirstWithId(songs, filteredResults[k].songId));
  }

  /** Steps 4 to 6 of `processAdvancedRanking`, once the matrix has rows and columns. */
  method RankCapped(rankingMatrix: seq<seq<int>>, filteredSongs: seq<Song>) returns (result: AdvancedRankingResult)
    requires !TooLittle(rankingMatrix) && AllLength(rankingMatrix, |filteredSongs|)
    ensures |result.referenceRanking| == |Capped(rankingMatrix, filteredSongs).songs| && IsRanking(result.referenceRanking)
    ensures result == Outcome(rankingMatrix, filteredSongs, result.referenceRanking)
  {
    var processedMatrix := rankingMatrix;
    var processedSongs := filteredSongs;
    if |rankingMatrix[0]| > MAX_SONGS_FOR_PERMUTATIONS {
      var topIndices := TopIndices(rankingMatrix);
      processedMatrix := Project(rankingMatrix, topIndices);
      var sortedSongs := SortById(filteredSongs);
      processedSongs := seq(|topIndices|, k requires 0 <= k < |topIndices| => sortedSongs[topIndices[k]]);
    }
    assert Processed(processedMatrix, processedSongs) == Capped(rankingMatrix, filteredSongs);

    var referenceRanking := GenerateRandomRanking(|processedMatrix[0]|);
    var distances := ComputeDistances(referenceRanking, processedMatrix);
    ComputeDistancesAgree(referenceRanking, processedMatrix);
    var medians := ProcessRankings(processedMatrix);
    assert medians.Success?;

    var sortedSongs := SortById(processedSongs);
    result := AdvancedRankingResult(filteredSongs, rankingMatrix, referenceRanking, distances.value,
      Some(medians.value), SongRankingsOf(medians.value, sortedSongs));
  }

  /** Each mapped ranking names every song once: song `i` at the position of its rank. */
  predicate NamesSongs(rankings: seq<seq<int>>, sortedSongs: seq<Song>) {
    forall t :: 0 <= t < |rankings| ==>
      && |MapRankings(rankings, sortedSongs)[t]| == |sortedSongs|
      && (forall p :: 0 <= p < |sortedSongs| ==> MapRankings(rankings, sortedSongs)[t][p].Some?)
      && forall i :: 0 <= i < |sortedSongs| ==>
           1 <= rankings[t][i] <= |sortedSongs| && MapRankings(rankings, sortedSongs)[t][rankings[t][i] - 1] == Some(sortedSongs[i])
  }

  /**
   * Every median ranking the pipeline reports comes back as songs: each capped column's song at
   * the position of its rank, every position naming a song.
   */
  lemma MedianSongsInverse(rows: seq<seq<int>>, sortedSongs: seq<Song>, c: Criterion)
    requires |rows| > 0 && Rectangular(rows) && |sortedSongs| == |rows[0]|
    ensures NamesSongs(Pick(Medians(rows), c).rankings, sortedSongs)
  {
    MedianRankings(rows, c);
    MapRankingsInverse(Pick(Medians(rows), c).rankings, sortedSongs);
  }

  /** `MapRankingInverse` for every ranking of a list. */
  lemma MapRankingsInverse(rankings: seq<seq<int>>, sortedSongs: seq<Song>)
    requires forall q :: q in rankings ==> |q| == |sortedSongs| && IsRanking(q)
    ensures NamesSongs(rankings, sortedSongs)
  {
    forall t | 0 <= t < |rankings|
      ensures |MapRankings(rankings, sortedSongs)[t]| == |sortedSongs|
      ensures forall p :: 0 <= p < |sortedSongs| ==> MapRankings(rankings, sortedSongs)[t][p].Some?
      ensures forall i :: 0 <= i < |sortedSongs| ==>
        1 <= rankings[t][i] <= |sortedSongs| && MapRankings(rankings, sortedSongs)[t][rankings[t][i] - 1] == Some(sortedSongs[i])
    {
      assert rankings[t] in rankings;
      MapRankingInverse(rankings[t], sortedSongs);
    }
  }

  /** Every median ranking is a ranking as wide as the matrix. */
  lemma MedianRankings(rows: seq<seq<int>>, c: Criterion)
    requires |rows| > 0 && Rectangular(rows)
    ensures forall q :: q in Pick(Medians(rows), c).rankings ==> |q| == |rows[0]| && IsRanking(q)
  {
    MedianTiesComplete(rows, c);
  }
}
