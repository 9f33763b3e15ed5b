/**
 * The records the pages exchange with the server, restricted to the
 * fields the modelled code reads or writes.
 */
module Api {
  import opened Js
  import opened Seqs

  /** A choice in a poll; the description is `null` when none was given. */
  datatype Candidate = Candidate(name: string, description: Option<string>)

  datatype Configuration = Configuration(writeIns: bool)

  /** `expires` is the expiry date as the server sends it, an ISO-8601 string. */
  datatype Poll = Poll(
    id: string,
    name: string,
    description: string,
    candidates: seq<Candidate>,
    configuration: Configuration,
    expires: string)

  /** A voter's ranking, most preferred first. */
  datatype Ballot = Ballot(id: string, name: string, rankings: seq<string>, timestamp: int)

  function NameOf(c: Candidate): string {
    c.name
  }

  /** `candidates.map(c => c.name)` */
  function CandidateNames(candidates: seq<Candidate>): seq<string> {
    Map(candidates, NameOf)
  }
}
