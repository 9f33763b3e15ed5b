/**
 * The shape of the ranking the Copeland tabulator hands to the audit
 * table. The tabulator itself is not part of this model; these values are
 * taken as given.
 */
module Copeland {

  /** One contest a candidate won: its own votes against the loser's. */
  datatype CopelandPairwiseResult = CopelandPairwiseResult(competitor: string, votes: nat, competitorVotes: nat)

  /** A candidate of a tier, with the contests it won. */
  datatype CopelandCandidate = CopelandCandidate(candidate: string, wins: seq<CopelandPairwiseResult>)

  /** One tier of the ranking: its rank, its Copeland score, and its candidates. */
  datatype CopelandRanking = CopelandRanking(ranking: nat, score: real, candidates: seq<CopelandCandidate>)
}
