/**
 * The draft ballot of the voting form: the ranking that is completed with
 * candidates added while the form is open (write-ins), and the plain
 * updates of the ranking and the voter's name.
 */
module CreateBallot {
  import opened Js
  import opened Seqs
  import opened Api

  /** `cn => !oldCandidates.has(cn)` */
  function Unranked(ranked: set<string>): string -> bool {
    (cn: string) => cn !in ranked
  }

  /**
   * The rankings after `componentDidUpdate`: unchanged when the ranked names
   * and the candidate names form the same set, otherwise followed by the
   * candidate names not yet ranked. `shallowSetEquals` is taken to be set
   * equality.
   */
  function CompletedRankings(rankings: seq<string>, names: seq<string>): (r: seq<string>)
    ensures |r| >= |rankings| && r[..|rankings|] == rankings
    ensures forall n :: n in names ==> n in r
    ensures forall i :: 0 <= i < |r| ==> r[i] in rankings || r[i] in names
  {
    var oldCandidates := Elements(rankings);
    if oldCandidates == Elements(names) then
      assert forall n :: n in names ==> n in oldCandidates;
      rankings
    else
      var newCandidates := Filter(names, Unranked(oldCandidates));
      rankings + newCandidates
  }

  /** When the ranked names already are the candidate names, the ballot is left as it is. */
  lemma CompletionWhenSetsEqual(rankings: seq<string>, names: seq<string>)
    requires Elements(rankings) == Elements(names)
    ensures CompletedRankings(rankings, names) == rankings
  {
  }

  /**
   * Otherwise the names appended are exactly the candidate names not
   * already ranked, each once, in the order of the candidate list.
   */
  lemma {:induction false} CompletionAppendsUnranked(rankings: seq<string>, names: seq<string>)
    requires Elements(rankings) != Elements(names)
    requires NoDuplicates(names)
    ensures var added := CompletedRankings(rankings, names)[|rankings|..];
      && (forall n :: n in added <==> n in names && n !in rankings)
      && (forall i, j :: 0 <= i < j < |added| ==> IndexOf(names, added[i]) < IndexOf(names, added[j]))
  {
    var p := Unranked(Elements(rankings));
    var added := CompletedRankings(rankings, names)[|rankings|..];
    assert added == Filter(names, p);
    forall n ensures n in added <==> n in names && n !in rankings {
      FilterMember(names, p, n);
    }
    forall i, j | 0 <= i < j < |names| ensures IndexOf(names, names[i]) < IndexOf(names, names[j]) {
      IndexOfDistinct(names, i);
      IndexOfDistinct(names, j);
    }
    FilterPairwise(names, p, (a: string, b: string) => IndexOf(names, a) < IndexOf(names, b));
  }

  /** In a sequence without repeats, the first index of an element is its index. */
  lemma IndexOfDistinct(s: seq<string>, i: nat)
    requires NoDuplicates(s) && i < |s|
    ensures IndexOf(s, s[i]) == i
  {
  }

  /** A ranking without repeats stays without repeats when the candidate names have none. */
  lemma CompletionKeepsDistinct(rankings: seq<string>, names: seq<string>)
    requires NoDuplicates(rankings) && NoDuplicates(names)
    ensures NoDuplicates(CompletedRankings(rankings, names))
  {
    var oldCandidates := Elements(rankings);
    if oldCandidates != Elements(names) {
      var p := Unranked(oldCandidates);
      var added := Filter(names, p);
      FilterPairwise(names, p, (a: string, b: string) => a != b);
      var r := rankings + added;
      forall i, j | 0 <= i < j < |r| ensures r[i] != r[j] {
        if i < |rankings| <= j {
          assert r[j] == added[j - |rankings|];
          FilterMember(names, p, added[j - |rankings|]);
        }
      }
    }
  }

  /** Completing a completed ranking gives the same ranking. */
  lemma CompletionIdempotent(rankings: seq<string>, names: seq<string>)
    ensures CompletedRankings(CompletedRankings(rankings, names), names) == CompletedRankings(rankings, names)
  {
    var r := CompletedRankings(rankings, names);
    if Elements(r) != Elements(names) {
      FilterNone(names, Unranked(Elements(r)));
    }
  }

  /**
   * The completed ranking names exactly the candidates precisely when every
   * ranked name is a candidate. So a ranked name that is no longer a
   * candidate keeps the sets apart after completion, and the next update
   * calls `setState` again.
   */
  lemma CompletionSettles(rankings: seq<string>, names: seq<string>)
    ensures Elements(CompletedRankings(rankings, names)) == Elements(names) <==> Elements(rankings) <= Elements(names)
  {
  }

  /** What `handleSubmit` hands to `postBallot`. */
  datatype BallotRequest = BallotRequest(ballotKey: string, pollId: string, ballotId: string, name: string, rankings: seq<string>)

  /** The form's component state and the props it reads. */
  class CreateBallotForm {
    var ballot: Ballot
    var isBusy: bool
    const ballotKey: string

    /**
     * The initial state from `makeNewBallot`. The random id, the shuffled
     * candidate names and the clock reading are parameters; the shuffle is
     * a permutation of the poll's candidate names.
     */
    constructor (poll: Poll, ballotKey: string, id: string, shuffled: seq<string>, timestamp: int)
      requires multiset(shuffled) == multiset(CandidateNames(poll.candidates))
      ensures ballot == Ballot(id, "", shuffled, timestamp)
      ensures multiset(ballot.rankings) == multiset(CandidateNames(poll.candidates))
      ensures !isBusy && this.ballotKey == ballotKey
    {
      ballot := Ballot(id, "", shuffled, timestamp);
      isBusy := false;
      this.ballotKey := ballotKey;
    }

    /** `componentDidUpdate`, with the poll of the current props. */
    method ComponentDidUpdate(poll: Poll) returns (stateSet: bool)
      modifies this
      ensures stateSet <==> Elements(old(ballot.rankings)) != Elements(CandidateNames(poll.candidates))
      ensures ballot == old(ballot).(rankings := CompletedRankings(old(ballot.rankings), CandidateNames(poll.candidates)))
      ensures isBusy == old(isBusy)
    {
      var oldCandidates := Elements(ballot.rankings);
      var names := CandidateNames(poll.candidates);
      if oldCandidates != Elements(names) {
        var newCandidates := Filter(names, Unranked(oldCandidates));
        var newRankings := ballot.rankings + newCandidates;
        ballot := ballot.(rankings := newRankings);
        stateSet := true;
      } else {
        stateSet := false;
      }
    }

    /** `onUpdateCandidates`: the ranking the voter arranged, by name. */
    method OnUpdateCandidates(candidates: seq<Candidate>)
      modifies this
      ensures ballot.rankings == CandidateNames(candidates)
      ensures ballot.id == old(ballot.id) && ballot.name == old(ballot.name) && ballot.timestamp == old(ballot.timestamp)
      ensures isBusy == old(isBusy)
    {
      var rankedNames := CandidateNames(candidates);
      ballot := ballot.(rankings := rankedNames);
    }

    /** `onUpdateVoterName` */
    method OnUpdateVoterName(name: string)
      modifies this
      ensures ballot == old(ballot).(name := name)
      ensures isBusy == old(isBusy)
    {
      ballot := ballot.(name := name);
    }

    /**
     * `handleSubmit`: marks the form busy and sends the ballot; the request
     * and the ballot handed on to the page are the results. The network
     * call and the minimum wait are not modelled.
     */
    method HandleSubmit(pollId: string) returns (request: BallotRequest, submitted: Ballot)
      modifies this
      ensures isBusy && ballot == old(ballot)
      ensures request == BallotRequest(ballotKey, pollId, ballot.id, ballot.name, ballot.rankings)
      ensures submitted == ballot
    {
      isBusy := true;
      request := BallotRequest(ballotKey, pollId, ballot.id, ballot.name, ballot.rankings);
      submitted := ballot;
    }
  }
}
