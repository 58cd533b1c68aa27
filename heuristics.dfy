/**
 * The tally and the heuristic filter of utils/heuristics.ts: `countRanks` turns the votes into
 * one counter record per song, `applyHeuristic` filters those records by one of eight named
 * rules and stably sorts them by the rule's key.
 */
module Heuristics {

  import opened Seqs
  import opened Sorting
  import opened Types

  // ----- countRanks -----

  /** The record a song starts with: every counter at 0. */
  function Fresh(song: Song): (r: VotingResult)
    ensures r.songId == song.id && r.title == song.title && r.artist == song.artist
    ensures r.totalPoints == 0 && r.voteCount == 0 && r.rankCounts == RankCounts(0, 0, 0)
  {
    VotingResult(song.id, song.title, song.artist, 0, 0, RankCounts(0, 0, 0))
  }

  /**
   * `rankCounts[rank] + 1`. Only the keys 1, 2 and 3 exist; any other rank writes a key of its
   * own, which no heuristic reads, so the three counters stay as they are.
   */
  function Bump(counts: RankCounts, rank: int): (c: RankCounts)
    ensures c.first == counts.first + (if rank == 1 then 1 else 0)
    ensures c.second == counts.second + (if rank == 2 then 1 else 0)
    ensures c.third == counts.third + (if rank == 3 then 1 else 0)
  {
    if rank == 1 then counts.(first := counts.first + 1)
    else if rank == 2 then counts.(second := counts.second + 1)
    else if rank == 3 then counts.(third := counts.third + 1)
    else counts
  }

  /** One vote on the song of `r`: `4 - rank` points, one more vote, one more count of its rank. */
  function AddVote(r: VotingResult, rank: int): (u: VotingResult)
    ensures u.songId == r.songId && u.title == r.title && u.artist == r.artist
    ensures u.totalPoints == r.totalPoints + 4 - rank && u.voteCount == r.voteCount + 1
    ensures u.rankCounts == Bump(r.rankCounts, rank)
  {
    r.(totalPoints := r.totalPoints + 4 - rank, voteCount := r.voteCount + 1, rankCounts := Bump(r.rankCounts, rank))
  }

  /** The record `r` after every vote of `votes` on its song, in order. */
  function Tally(r: VotingResult, votes: seq<Vote>): (u: VotingResult)
    ensures u.songId == r.songId && u.title == r.title && u.artist == r.artist
  {
    if |votes| == 0 then r
    else
      var before := Tally(r, votes[..|votes| - 1]);
      var vote := votes[|votes| - 1];
      if vote.songId == r.songId then AddVote(before, vote.rank) else before
  }

  /** Some song of `songs` has the id `id`. */
  predicate HasId(songs: seq<Song>, id: string) {
    exists i :: 0 <= i < |songs| && songs[i].id == id
  }

  /** The keys of the results map: each song id once, where it first occurs. */
  function SongIds(songs: seq<Song>): (ids: seq<string>)
    ensures Distinct(ids)
    ensures forall id :: id in ids <==> HasId(songs, id)
  {
    if |songs| == 0 then []
    else
      var front := SongIds(songs[..|songs| - 1]);
      var id := songs[|songs| - 1].id;
      assert forall i :: 0 <= i < |songs| - 1 ==> songs[..|songs| - 1][i] == songs[i];
      if id in front then front else front + [id]
  }

  /** The song whose `set` the map keeps for `id`: the last one with that id. */
  function LastWithId(songs: seq<Song>, id: string): (s: Song)
    requires HasId(songs, id)
    ensures s.id == id
  {
    var last := |songs| - 1;
    if songs[last].id == id then songs[last]
    else
      assert HasId(songs[..last], id) by {
        var i :| 0 <= i < |songs| && songs[i].id == id;
        assert songs[..last][i] == songs[i];
      }
      LastWithId(songs[..last], id)
  }

  /** Position `i` holds `id` and no later song has it. */
  predicate LastAt(songs: seq<Song>, id: string, i: int) {
    0 <= i < |songs| && songs[i].id == id && forall j :: i < j < |songs| ==> songs[j].id != id
  }

  /** `LastWithId` is a listed song with that id, and no later song has the id. */
  lemma LastWithIdSpec(songs: seq<Song>, id: string)
    requires HasId(songs, id)
    ensures exists i :: LastAt(songs, id, i) && songs[i] == LastWithId(songs, id)
  {
    var i := LastWithIdIndex(songs, id);
  }

  /** The position of `LastWithId`, found by the same recursion. */
  lemma {:induction false} LastWithIdIndex(songs: seq<Song>, id: string) returns (i: nat)
    requires HasId(songs, id)
    ensures LastAt(songs, id, i) && songs[i] == LastWithId(songs, id)
  {
    var last := |songs| - 1;
    if songs[last].id == id {
      i := last;
    } else {
      var front := songs[..last];
      assert HasId(front, id) by {
        var w :| 0 <= w < |songs| && songs[w].id == id;
        assert front[w] == songs[w];
      }
      i := LastWithIdIndex(front, id);
      assert songs[i] == front[i];
      forall j | i < j < |songs| ensures songs[j].id != id {
        if j < last {
          assert front[j] == songs[j];
          assert front[j].id != id;
        }
      }
    }
  }

  /** The record of a listed song id before any vote. */
  function Start(songs: seq<Song>, id: string): (r: VotingResult)
    requires HasId(songs, id)
    ensures r.songId == id
  {
    Fresh(LastWithId(songs, id))
  }

  /** What `countRanks` returns: one tallied record per distinct song id, in first-occurrence order. */
  function Tallies(votes: seq<Vote>, songs: seq<Song>): (results: seq<VotingResult>)
    ensures |results| == |SongIds(songs)|
  {
    var ids := SongIds(songs);
    seq(|ids|, k requires 0 <= k < |ids| => assert ids[k] in ids; Tally(Start(songs, ids[k]), votes))
  }

  /** `countRanks`: fills a map from song id to record, then updates it vote by vote. */
  method CountRanks(votes: seq<Vote>, songs: seq<Song>) returns (results: seq<VotingResult>)
    ensures results == Tallies(votes, songs)
  {
    var table: map<string, VotingResult> := map[];
    var order: seq<string> := [];
    for i := 0 to |songs|
      invariant order == SongIds(songs[..i])
      invariant forall id :: id in table <==> id in order
      invariant forall id :: id in table ==> HasId(songs[..i], id) && table[id] == Start(songs[..i], id)
    {
      var song := songs[i];
      SongIdsStep(songs, i);
      if song.id !in table {
        order := order + [song.id];
      }
      table := table[song.id := Fresh(song)];
      forall id | id in table ensures HasId(songs[..i + 1], id) && table[id] == Start(songs[..i + 1], id) {
        StartStep(songs, i, id);
      }
    }
    assert songs[..|songs|] == songs;
    for j := 0 to |votes|
      invariant forall id :: id in table <==> id in order
      invariant forall id :: id in table ==> HasId(songs, id) && table[id] == Tally(Start(songs, id), votes[..j])
    {
      var vote := votes[j];
      forall id | id in table ensures Tally(Start(songs, id), votes[..j + 1]) ==
        if vote.songId == id then AddVote(Tally(Start(songs, id), votes[..j]), vote.rank) else Tally(Start(songs, id), votes[..j])
      {
        TallyStep(Start(songs, id), votes, j);
      }
      if vote.songId in table {
        table := table[vote.songId := AddVote(table[vote.songId], vote.rank)];
      }
    }
    assert votes[..|votes|] == votes;
    results := seq(|order|, k requires 0 <= k < |order| => table[order[k]]);
    TableTallies(votes, songs, table, order, results);
  }

  /** Read in key order, the final table is the list of tallies. */
  lemma TableTallies(votes: seq<Vote>, songs: seq<Song>, table: map<string, VotingResult>, order: seq<string>,
                     results: seq<VotingResult>)
    requires order == SongIds(songs)
    requires forall id :: id in table <==> id in order
    requires forall id :: id in table ==> HasId(songs, id) && table[id] == Tally(Start(songs, id), votes)
    requires |results| == |order| && forall k :: 0 <= k < |order| ==> order[k] in table && results[k] == table[order[k]]
    ensures results == Tallies(votes, songs)
  {
  }

  /** The keys after one more song: its id is appended unless already present. */
  lemma SongIdsStep(songs: seq<Song>, i: nat)
    requires i < |songs|
    ensures SongIds(songs[..i + 1]) ==
      if songs[i].id in SongIds(songs[..i]) then SongIds(songs[..i]) else SongIds(songs[..i]) + [songs[i].id]
  {
    assert songs[..i + 1][..i] == songs[..i];
  }

  /** The record for `id` after one more song: fresh from that song when it has the id. */
  lemma StartStep(songs: seq<Song>, i: nat, id: string)
    requires i < |songs|
    requires id == songs[i].id || HasId(songs[..i], id)
    ensures HasId(songs[..i + 1], id)
    ensures Start(songs[..i + 1], id) == if songs[i].id == id then Fresh(songs[i]) else Start(songs[..i], id)
  {
    var front := songs[..i + 1];
    assert front[i] == songs[i];
    assert front[..i] == songs[..i];
    if songs[i].id != id {
      var k :| 0 <= k < i && songs[..i][k].id == id;
      assert front[k] == songs[..i][k];
    }
  }

  /** The record after one more vote: updated only when the vote is on its song. */
  lemma TallyStep(r: VotingResult, votes: seq<Vote>, j: nat)
    requires j < |votes|
    ensures Tally(r, votes[..j + 1]) ==
      if votes[j].songId == r.songId then AddVote(Tally(r, votes[..j]), votes[j].rank) else Tally(r, votes[..j])
  {
    assert votes[..j + 1][..j] == votes[..j];
  }

  // ----- properties of the tally -----

  /**
   * One record per distinct song id, in first-occurrence order, named after the last song
   * with that id and carrying only that id's votes.
   */
  lemma TalliesShape(votes: seq<Vote>, songs: seq<Song>)
    ensures var results, ids := Tallies(votes, songs), SongIds(songs);
      && (forall k :: 0 <= k < |results| ==> results[k].songId == ids[k])
      && (forall i :: 0 <= i < |songs| ==> exists k :: 0 <= k < |results| && results[k].songId == songs[i].id)
      && Distinct(results)
  {
    var results, ids := Tallies(votes, songs), SongIds(songs);
    forall i | 0 <= i < |songs| ensures exists k :: 0 <= k < |results| && results[k].songId == songs[i].id {
      assert songs[i].id in ids;
      var k :| 0 <= k < |ids| && ids[k] == songs[i].id;
      assert results[k].songId == ids[k];
    }
    forall k, l | 0 <= k < l < |results| ensures results[k] != results[l] {
      assert results[k].songId == ids[k] && results[l].songId == ids[l];
    }
  }

  /** Each record is named after the last listed song with its id. */
  lemma TalliesNamed(votes: seq<Vote>, songs: seq<Song>, k: nat)
    requires k < |Tallies(votes, songs)|
    ensures var r := Tallies(votes, songs)[k];
      exists i :: 0 <= i < |songs| && songs[i].id == r.songId && songs[i].title == r.title
        && songs[i].artist == r.artist && forall j :: i < j < |songs| ==> songs[j].id != r.songId
  {
    var ids := SongIds(songs);
    assert ids[k] in ids;
    var s := LastWithId(songs, ids[k]);
    LastWithIdSpec(songs, ids[k]);
    var i :| LastAt(songs, ids[k], i) && songs[i] == s;
  }

  /** `voteCount` is the number of votes cast on the record's song. */
  lemma {:induction false} TallyVoteCount(r: VotingResult, votes: seq<Vote>)
    ensures Tally(r, votes).voteCount == r.voteCount + |Filter(votes, (v: Vote) => v.songId == r.songId)|
  {
    if |votes| > 0 {
      TallyVoteCount(r, votes[..|votes| - 1]);
    }
  }

  /**
   * With every rank of the song's votes in {1, 2, 3}, the counters agree:
   * `voteCount = rc1 + rc2 + rc3` and `totalPoints = 3 rc1 + 2 rc2 + rc3`, all non-negative.
   */
  lemma {:induction false} TallyCounters(r: VotingResult, votes: seq<Vote>)
    requires r.voteCount == r.rankCounts.first + r.rankCounts.second + r.rankCounts.third
    requires r.totalPoints == 3 * r.rankCounts.first + 2 * r.rankCounts.second + r.rankCounts.third
    requires r.rankCounts.first >= 0 && r.rankCounts.second >= 0 && r.rankCounts.third >= 0
    requires forall v :: v in votes && v.songId == r.songId ==> 1 <= v.rank <= 3
    ensures var u := Tally(r, votes);
      && u.voteCount == u.rankCounts.first + u.rankCounts.second + u.rankCounts.third
      && u.totalPoints == 3 * u.rankCounts.first + 2 * u.rankCounts.second + u.rankCounts.third
      && u.rankCounts.first >= 0 && u.rankCounts.second >= 0 && u.rankCounts.third >= 0
  {
    if |votes| > 0 {
      var front := votes[..|votes| - 1];
      assert forall v :: v in front ==> v in votes;
      TallyCounters(r, front);
      assert votes[|votes| - 1] in votes;
    }
  }

  /** The same identities for every record `countRanks` returns. */
  lemma TalliesCounters(votes: seq<Vote>, songs: seq<Song>)
    requires forall v :: v in votes ==> 1 <= v.rank <= 3
    ensures forall r :: r in Tallies(votes, songs) ==>
      && r.voteCount == r.rankCounts.first + r.rankCounts.second + r.rankCounts.third
      && r.totalPoints == 3 * r.rankCounts.first + 2 * r.rankCounts.second + r.rankCounts.third
  {
    var results, ids := Tallies(votes, songs), SongIds(songs);
    forall k | 0 <= k < |results|
      ensures results[k].voteCount == results[k].rankCounts.first + results[k].rankCounts.second + results[k].rankCounts.third
      ensures results[k].totalPoints == 3 * results[k].rankCounts.first + 2 * results[k].rankCounts.second + results[k].rankCounts.third
    {
      assert ids[k] in ids;
      TallyCounters(Start(songs, ids[k]), votes);
    }
  }

  /**
   * One more vote: the record of its song gains `4 - rank` points, one vote and one count of
   * its rank; every other record is unchanged. A vote for a song that is not listed changes
   * nothing.
   */
  lemma TalliesAddVote(votes: seq<Vote>, songs: seq<Song>, vote: Vote)
    ensures var before, after := Tallies(votes, songs), Tallies(votes + [vote], songs);
      && |after| == |before|
      && forall k :: 0 <= k < |after| ==>
           after[k] == if before[k].songId == vote.songId then AddVote(before[k], vote.rank) else before[k]
  {
    var ids := SongIds(songs);
    var all := votes + [vote];
    assert all[..|all| - 1] == votes;
  }

  lemma UnknownVoteIgnored(votes: seq<Vote>, songs: seq<Song>, vote: Vote)
    requires forall i :: 0 <= i < |songs| ==> songs[i].id != vote.songId
    ensures Tallies(votes + [vote], songs) == Tallies(votes, songs)
  {
    TalliesAddVote(votes, songs, vote);
    var ids := SongIds(songs);
    forall k | 0 <= k < |ids| ensures Tallies(votes, songs)[k].songId != vote.songId {
      assert ids[k] in ids;
    }
  }

  // ----- applyHeuristic -----

  predicate Voted(r: VotingResult) {
    r.voteCount > 0
  }

  predicate Unvoted(r: VotingResult) {
    r.voteCount == 0
  }

  /** The second filter of `h1` to `h5`. */
  function Condition(h: Heuristic): VotingResult -> bool {
    match h
    case H1 => (r: VotingResult) => r.rankCounts.third > 0
    case H2 => (r: VotingResult) => r.rankCounts.second > 0
    case H3 => (r: VotingResult) => r.rankCounts.first > 0
    case H4 => (r: VotingResult) => r.rankCounts.third >= 2
    case H5 => (r: VotingResult) => r.rankCounts.third > 0 && r.rankCounts.second > 0
    case _ => (r: VotingResult) => true
  }

  /**
   * The comparator of each rule, as "may come first": `b.key - a.key` sorts by the key
   * descending, `a.voteCount - b.voteCount` ascending, `localeCompare` by title.
   */
  function Order(h: Heuristic): (VotingResult, VotingResult) -> bool {
    match h
    case H1 => (a: VotingResult, b: VotingResult) => a.rankCounts.third >= b.rankCounts.third
    case H2 => (a: VotingResult, b: VotingResult) => a.rankCounts.second >= b.rankCounts.second
    case H3 => (a: VotingResult, b: VotingResult) => a.rankCounts.first >= b.rankCounts.first
    case H4 => (a: VotingResult, b: VotingResult) => a.rankCounts.third >= b.rankCounts.third
    case H5 => (a: VotingResult, b: VotingResult) =>
      a.rankCounts.second + a.rankCounts.third >= b.rankCounts.second + b.rankCounts.third
    case H6 => (a: VotingResult, b: VotingResult) => a.voteCount <= b.voteCount
    case H7 => (a: VotingResult, b: VotingResult) => LexLeq(a.title, b.title)
    case _ => (a: VotingResult, b: VotingResult) => a.totalPoints >= b.totalPoints
  }

  /** The `switch` of `applyHeuristic` on the tallied records. */
  function Select(results: seq<VotingResult>, h: Heuristic): seq<VotingResult> {
    var votedSongs := Filter(results, Voted);
    match h
    case Standard => StableSort(votedSongs, Order(Standard))
    case H1 => StableSort(Filter(votedSongs, Condition(H1)), Order(H1))
    case H2 => StableSort(Filter(votedSongs, Condition(H2)), Order(H2))
    case H3 => StableSort(Filter(votedSongs, Condition(H3)), Order(H3))
    case H4 => StableSort(Filter(votedSongs, Condition(H4)), Order(H4))
    case H5 => StableSort(Filter(votedSongs, Condition(H5)), Order(H5))
    case H6 => StableSort(votedSongs, Order(H6))
    case H7 => StableSort(Filter(results, Unvoted), Order(H7))
    case Unrecognised(_) => StableSort(votedSongs, Order(Standard))
  }

  /** `applyHeuristic`: tallies afresh on every call, then selects. */
  method ApplyHeuristic(votes: seq<Vote>, songs: seq<Song>, heuristic: Heuristic) returns (selected: seq<VotingResult>)
    ensures selected == Select(Tallies(votes, songs), heuristic)
  {
    var results := CountRanks(votes, songs);
    selected := Select(results, heuristic);
  }

  /** Which records a rule keeps: voted ones passing its condition, or for `h7` the unvoted ones. */
  predicate Passes(h: Heuristic, r: VotingResult) {
    match h
    case H7 => r.voteCount == 0
    case H1 => r.voteCount > 0 && r.rankCounts.third > 0
    case H2 => r.voteCount > 0 && r.rankCounts.second > 0
    case H3 => r.voteCount > 0 && r.rankCounts.first > 0
    case H4 => r.voteCount > 0 && r.rankCounts.third >= 2
    case H5 => r.voteCount > 0 && r.rankCounts.third > 0 && r.rankCounts.second > 0
    case _ => r.voteCount > 0
  }

  /** Every rule's order is a total preorder, so the stable sort is well defined. */
  lemma OrderTotal(h: Heuristic)
    ensures TotalPreorder(Order(h))
  {
    match h
    case H1 => IntKeyTotalPreorder((r: VotingResult) => r.rankCounts.third, Order(h));
    case H2 => IntKeyTotalPreorder((r: VotingResult) => r.rankCounts.second, Order(h));
    case H3 => IntKeyTotalPreorder((r: VotingResult) => r.rankCounts.first, Order(h));
    case H4 => IntKeyTotalPreorder((r: VotingResult) => r.rankCounts.third, Order(h));
    case H5 => IntKeyTotalPreorder((r: VotingResult) => r.rankCounts.second + r.rankCounts.third, Order(h));
    case H6 => IntKeyTotalPreorder((r: VotingResult) => r.voteCount, Order(h));
    case H7 => LexKeyTotalPreorder((r: VotingResult) => r.title, Order(h));
    case Standard => IntKeyTotalPreorder((r: VotingResult) => r.totalPoints, Order(h));
    case Unrecognised(_) => IntKeyTotalPreorder((r: VotingResult) => r.totalPoints, Order(h));
  }

  /** Each rule is one filter by `Passes` followed by one stable sort by its order. */
  lemma SelectNormalForm(results: seq<VotingResult>, h: Heuristic)
    ensures Select(results, h) == StableSort(Filter(results, r => Passes(h, r)), Order(h))
  {
    var keep := (r: VotingResult) => Passes(h, r);
    match h
    case H7 => FilterSame(results, Unvoted, keep);
    case H1 => FilterFilter(results, Voted, Condition(h), keep);
    case H2 => FilterFilter(results, Voted, Condition(h), keep);
    case H3 => FilterFilter(results, Voted, Condition(h), keep);
    case H4 => FilterFilter(results, Voted, Condition(h), keep);
    case H5 => FilterFilter(results, Voted, Condition(h), keep);
    case H6 => FilterSame(results, Voted, keep);
    case Standard => FilterSame(results, Voted, keep);
    case Unrecognised(_) => FilterSame(results, Voted, keep);
  }

  /** Membership: a record is selected exactly when it is among the tallies and passes the rule. */
  lemma SelectMembers(results: seq<VotingResult>, h: Heuristic)
    ensures forall r :: r in Select(results, h) <==> r in results && Passes(h, r)
  {
    var keep := (r: VotingResult) => Passes(h, r);
    SelectNormalForm(results, h);
    OrderTotal(h);
    StableSortSpec(Filter(results, keep), Order(h));
    forall r ensures r in Select(results, h) <==> r in Filter(results, keep) {
      assert r in Select(results, h) <==> r in multiset(Select(results, h));
      assert r in Filter(results, keep) <==> r in multiset(Filter(results, keep));
    }
  }

  /** Nothing is lost or duplicated: a passing record is selected as often as it is tallied. */
  lemma SelectCounts(results: seq<VotingResult>, h: Heuristic, r: VotingResult)
    ensures multiset(Select(results, h))[r] == if Passes(h, r) then multiset(results)[r] else 0
  {
    var keep := (r: VotingResult) => Passes(h, r);
    SelectNormalForm(results, h);
    OrderTotal(h);
    StableSortSpec(Filter(results, keep), Order(h));
    FilterMultiset(results, keep, r);
  }

  /** Ordering: each selected record may come before every later one under the rule's order. */
  lemma SelectOrdered(results: seq<VotingResult>, h: Heuristic)
    ensures var out := Select(results, h);
      forall i, j :: 0 <= i < j < |out| ==> Order(h)(out[i], out[j])
  {
    SelectNormalForm(results, h);
    OrderTotal(h);
    StableSortSorted(Filter(results, r => Passes(h, r)), Order(h));
  }

  /** Stability: records with equal keys keep the order of the tallies (the song order). */
  lemma SelectStable(results: seq<VotingResult>, h: Heuristic, i: nat, j: nat)
    requires Distinct(results)
    requires i < j < |Select(results, h)|
    requires Order(h)(Select(results, h)[j], Select(results, h)[i])
    ensures IndexOf(results, Select(results, h)[i]) < IndexOf(results, Select(results, h)[j])
  {
    var keep := (r: VotingResult) => Passes(h, r);
    var kept := Filter(results, keep);
    var out := Select(results, h);
    SelectNormalForm(results, h);
    OrderTotal(h);
    FilterDistinct(results, keep);
    StableSortKeepsTies(kept, Order(h), i, j);
    StableSortSpec(kept, Order(h));
    var x, y := out[i], out[j];
    assert x in multiset(out) && y in multiset(out);
    assert x in kept && y in kept;
    var k, l := IndexOf(kept, x), IndexOf(kept, y);
    FilterKeepsOrder(results, keep, k, l);
  }

  /** `h7` keeps only unvoted records, every other rule only voted ones: their outputs are disjoint. */
  lemma H7Disjoint(results: seq<VotingResult>, h: Heuristic)
    requires h != H7
    ensures forall r :: r in Select(results, H7) ==> r !in Select(results, h)
  {
    forall r | r in Select(results, H7) ensures r !in Select(results, h) {
      SelectMembers(results, H7);
      assert Passes(H7, r);
      SelectMembers(results, h);
    }
  }

  /** An unrecognised rule name selects exactly what `standard` selects. */
  lemma UnrecognisedIsStandard(results: seq<VotingResult>, name: string)
    ensures Select(results, Unrecognised(name)) == Select(results, Standard)
  {
  }
}
