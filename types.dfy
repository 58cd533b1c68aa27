/** The records the engine consumes and produces (types/index.ts). */
module Types {

  /** A catalogue item. */
  datatype Song = Song(id: string, title: string, artist: string, genre: string)

  /** Only participants whose role is "expert" contribute rows to the ranking matrix. */
  datatype Role = ExpertRole | TeacherRole

  datatype Expert = Expert(id: string, name: string, role: Role)

  /** One expert's rank for one song; ranks 1, 2 and 3 are first, second and third choice. */
  datatype Vote = Vote(id: string, expertId: string, songId: string, rank: int)

  /** How often a song was ranked first, second and third. */
  datatype RankCounts = RankCounts(first: int, second: int, third: int)

  /** The tally of one song. */
  datatype VotingResult = VotingResult(
    songId: string,
    title: string,
    artist: string,
    totalPoints: int,
    voteCount: int,
    rankCounts: RankCounts)

  /** The eight named selection rules; any other name falls back to `Standard`. */
  datatype Heuristic = Standard | H1 | H2 | H3 | H4 | H5 | H6 | H7 | Unrecognised(name: string)
}
