/**
 * The poll page: which ballots are this device's own, which sections the
 * page shows, and the flag that opens a second ballot form.
 */
module PollDetailsView {
  import opened Js
  import opened Seqs
  import opened Api
  import opened UserIdentity

  /** `getKnownBallots(...) || []` */
  function KnownIds(known: Option<seq<string>>): (ids: seq<string>)
    ensures known.None? ==> ids == []
    ensures known.Some? ==> ids == known.value
  {
    if known.Some? then known.value else []
  }

  /** `(b) => knownBallotIds.indexOf(b.id) > -1` */
  function OwnedBy(knownBallotIds: seq<string>): Ballot -> bool {
    (b: Ballot) => IndexOf(knownBallotIds, b.id) > -1
  }

  /** `(b) => knownBallotIds.indexOf(b.id) <= -1` */
  function NotOwnedBy(knownBallotIds: seq<string>): Ballot -> bool {
    (b: Ballot) => IndexOf(knownBallotIds, b.id) <= -1
  }

  /** `ownedBallots`: the ballots whose id this device recorded for the poll. */
  function OwnedBallots(ballots: seq<Ballot>, known: Option<seq<string>>): (owned: seq<Ballot>)
    ensures forall b :: b in owned <==> b in ballots && b.id in KnownIds(known)
  {
    var p := OwnedBy(KnownIds(known));
    forall b ensures b in Filter(ballots, p) <==> b in ballots && p(b) {
      FilterMember(ballots, p, b);
    }
    Filter(ballots, p)
  }

  /** `unownedBallots`: the other ballots. */
  function UnownedBallots(ballots: seq<Ballot>, known: Option<seq<string>>): (unowned: seq<Ballot>)
    ensures forall b :: b in unowned <==> b in ballots && b.id !in KnownIds(known)
  {
    var p := NotOwnedBy(KnownIds(known));
    forall b ensures b in Filter(ballots, p) <==> b in ballots && p(b) {
      FilterMember(ballots, p, b);
    }
    Filter(ballots, p)
  }

  /**
   * The two lists split the ballots: no ballot is in both, and each ballot
   * is in exactly one of them as often as it occurs.
   */
  lemma BallotsPartition(ballots: seq<Ballot>, known: Option<seq<string>>)
    ensures multiset(OwnedBallots(ballots, known)) + multiset(UnownedBallots(ballots, known)) == multiset(ballots)
    ensures forall b :: !(b in OwnedBallots(ballots, known) && b in UnownedBallots(ballots, known))
  {
    var ids := KnownIds(known);
    FilterPartition(ballots, OwnedBy(ids), NotOwnedBy(ids));
  }

  /** Each list keeps the ballots in their original order: both distribute over concatenation. */
  lemma BallotsKeepOrder(a: seq<Ballot>, b: seq<Ballot>, known: Option<seq<string>>)
    ensures OwnedBallots(a + b, known) == OwnedBallots(a, known) + OwnedBallots(b, known)
    ensures UnownedBallots(a + b, known) == UnownedBallots(a, known) + UnownedBallots(b, known)
  {
    FilterConcat(a, b, OwnedBy(KnownIds(known)));
    FilterConcat(a, b, NotOwnedBy(KnownIds(known)));
  }

  /** Without recorded ballot ids, every ballot is someone else's. */
  lemma NoKnownBallotsAllUnowned(ballots: seq<Ballot>)
    ensures OwnedBallots(ballots, None) == []
    ensures UnownedBallots(ballots, None) == ballots
  {
    FilterNone(ballots, OwnedBy([]));
    FilterAll(ballots, NotOwnedBy([]));
  }

  /** `shouldShowCandidateDetails`: some candidate has a truthy description. */
  function ShouldShowCandidateDetails(candidates: seq<Candidate>): (show: bool)
    ensures show <==> exists i :: 0 <= i < |candidates| && Truthy(candidates[i].description)
  {
    FindIndex(candidates, (c: Candidate) => Truthy(c.description)) >= 0
  }

  /** The "Your ballot" section. */
  datatype YourBallot =
    | OwnedBallotsList(ballots: seq<Ballot>)   // one preview per own ballot
    | NewBallotForm                             // a `CreateBallot` form
    | WriteInTip                                // voting waits for a first candidate

  /** The body of the "Other ballots" section. */
  datatype OtherBallots = TheirBallotsList(ballots: seq<Ballot>) | NobodyElseYet

  /** The "New ballot" section: an invitation, or the form once it is opened. */
  datatype RedundantBallot = Invitation | RedundantBallotForm

  /**
   * `ownedBallotSection`: the tip while the poll has no candidate, else the
   * device's ballots, or a ballot form when it has none.
   */
  function OwnedBallotSection(poll: Poll, owned: seq<Ballot>): (section: YourBallot)
    ensures section.WriteInTip? <==> poll.candidates == []
    ensures section.OwnedBallotsList? <==> poll.candidates != [] && owned != []
    ensures section.OwnedBallotsList? ==> section.ballots == owned
  {
    if |poll.candidates| > 0 then
      (if |owned| > 0 then OwnedBallotsList(owned) else NewBallotForm)
    else WriteInTip
  }

  /**
   * `unownedBallotsSection`: absent while the poll has no candidate, else
   * the other ballots, or the note that there are none yet.
   */
  function UnownedBallotsSection(poll: Poll, unowned: seq<Ballot>): (section: Option<OtherBallots>)
    ensures section.None? <==> poll.candidates == []
    ensures section == Some(NobodyElseYet) <==> poll.candidates != [] && unowned == []
    ensures section.Some? && section.value.TheirBallotsList? ==> section.value.ballots == unowned
  {
    if |poll.candidates| == 0 then None
    else Some(if |unowned| > 0 then TheirBallotsList(unowned) else NobodyElseYet)
  }

  /**
   * `redundantBallotSection`: absent without an own ballot, else the
   * invitation, or the form once the flag is set.
   */
  function RedundantBallotSection(owned: seq<Ballot>, expandRedundantBallot: bool): (section: Option<RedundantBallot>)
    ensures section.None? <==> owned == []
    ensures section == Some(Invitation) <==> owned != [] && !expandRedundantBallot
    ensures section == Some(RedundantBallotForm) <==> owned != [] && expandRedundantBallot
  {
    if |owned| == 0 then None
    else if !expandRedundantBallot then Some(Invitation)
    else Some(RedundantBallotForm)
  }

  /** What `render` shows, top to bottom; the expiry date is left out. */
  datatype Page = Page(
    title: string,
    description: Option<string>,
    explainerCandidates: Option<seq<string>>,
    candidateDetails: bool,
    yourBallot: YourBallot,
    otherBallots: Option<OtherBallots>,
    writeIn: bool,
    redundantBallot: Option<RedundantBallot>)

  /** `render`, stated rule by rule in terms of the poll, the ballots and the device's records. */
  function Render(poll: Poll, ballots: seq<Ballot>, known: Option<seq<string>>, expandRedundantBallot: bool): (page: Page)
    ensures page.title == poll.name
    ensures page.description.Some? <==> TruthyString(poll.description)
    ensures page.explainerCandidates.Some? <==> ballots != []
    ensures page.explainerCandidates.Some? ==> page.explainerCandidates.value == CandidateNames(poll.candidates)
    ensures page.candidateDetails <==> exists i :: 0 <= i < |poll.candidates| && Truthy(poll.candidates[i].description)
    ensures page.yourBallot.WriteInTip? <==> poll.candidates == []
    ensures page.yourBallot.OwnedBallotsList? <==>
      poll.candidates != [] && exists b :: b in ballots && b.id in KnownIds(known)
    ensures page.yourBallot.OwnedBallotsList? ==> page.yourBallot.ballots == OwnedBallots(ballots, known)
    ensures page.otherBallots.None? <==> poll.candidates == []
    ensures page.otherBallots == Some(NobodyElseYet) <==>
      poll.candidates != [] && forall b :: b in ballots ==> b.id in KnownIds(known)
    ensures page.otherBallots.Some? && page.otherBallots.value.TheirBallotsList? ==>
      page.otherBallots.value.ballots == UnownedBallots(ballots, known)
    ensures page.writeIn <==> poll.configuration.writeIns
    ensures page.redundantBallot.None? <==> forall b :: b in ballots ==> b.id !in KnownIds(known)
    ensures page.redundantBallot == Some(RedundantBallotForm) <==>
      expandRedundantBallot && exists b :: b in ballots && b.id in KnownIds(known)
  {
    var owned, unowned := OwnedBallots(ballots, known), UnownedBallots(ballots, known);
    SomeOrNone(owned);
    SomeOrNone(unowned);
    Page(
      poll.name,
      if TruthyString(poll.description) then Some(poll.description) else None,
      if |ballots| > 0 then Some(CandidateNames(poll.candidates)) else None,
      ShouldShowCandidateDetails(poll.candidates),
      OwnedBallotSection(poll, owned),
      UnownedBallotsSection(poll, unowned),
      poll.configuration.writeIns,
      RedundantBallotSection(owned, expandRedundantBallot))
  }

  /** A sequence is empty exactly when it has no element. */
  lemma SomeOrNone(s: seq<Ballot>)
    ensures |s| > 0 <==> exists b :: b in s
  {
    if |s| > 0 {
      assert s[0] in s;
    }
  }

  /**
   * Once the ballot is recorded, it is one of the device's own on the page,
   * and every ballot that was its own stays so.
   */
  lemma SubmittedBallotBecomesOwned(polls: seq<KnownPoll>, pollId: string, ballots: seq<Ballot>, ballot: Ballot)
    requires Known(polls, pollId)
    requires ballot in ballots
    ensures var after := KnownBallotsOf(AddedKnownBallot(polls, pollId, ballot.id), pollId);
      && ballot in OwnedBallots(ballots, after)
      && forall b :: b in OwnedBallots(ballots, KnownBallotsOf(polls, pollId)) ==> b in OwnedBallots(ballots, after)
  {
    AddKnownBallotAppends(polls, pollId, ballot.id);
  }

  /** The page component's state. */
  class PollDetailsPage {
    var expandRedundantBallot: bool

    constructor ()
      ensures !expandRedundantBallot
    {
      expandRedundantBallot := false;
    }

    /** `handleEnableRedundantBallot`: opens the second ballot form. */
    method HandleEnableRedundantBallot()
      modifies this
      ensures expandRedundantBallot
    {
      expandRedundantBallot := true;
    }

    /**
     * `handleSubmitNewBallot`: records the ballot's id for the poll, hands
     * the ballot on to the page's owner (the result), and closes the second
     * form. Recording needs the poll to be known, as `addKnownBallot` does.
     */
    method HandleSubmitNewBallot(identity: IdentityStore, poll: Poll, ballot: Ballot) returns (handedOn: Ballot)
      requires Known(identity.knownPolls, poll.id)
      modifies this, identity
      ensures identity.knownPolls == AddedKnownBallot(old(identity.knownPolls), poll.id, ballot.id)
      ensures identity.key == old(identity.key)
      ensures handedOn == ballot
      ensures !expandRedundantBallot
    {
      identity.AddKnownBallot(poll.id, ballot.id);
      handedOn := ballot;
      expandRedundantBallot := false;
    }
  }
}
