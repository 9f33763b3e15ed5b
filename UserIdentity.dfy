/**
 * The device-local identity: a key and the list of polls this browser
 * has created or seen, each with the ids of the ballots cast from here.
 * The list is kept in ascending order of poll id. The identity lives in
 * a field of `IdentityStore` instead of the browser's local storage.
 */
module UserIdentity {
  import opened Js
  import opened Seqs
  import opened Api

  /** A poll this device knows about. */
  datatype KnownPoll = KnownPoll(poll: Poll, isMine: bool, knownBallots: seq<string>)

  /** The poll has an entry in the list. */
  predicate Known(polls: seq<KnownPoll>, pollId: string) {
    exists j :: 0 <= j < |polls| && polls[j].poll.id == pollId
  }

  /** `findIndex((p) => p.poll.id === pollId)` */
  function PollIndex(polls: seq<KnownPoll>, pollId: string): (i: int)
    ensures -1 <= i < |polls|
    ensures 0 <= i ==> polls[i].poll.id == pollId && forall j :: 0 <= j < i ==> polls[j].poll.id != pollId
    ensures i == -1 <==> !Known(polls, pollId)
  {
    FindIndex(polls, (p: KnownPoll) => p.poll.id == pollId)
  }

  /** `findIndex((p) => p.poll.id >= id)`: the first entry not before `id`. */
  function InsertionIndex(polls: seq<KnownPoll>, id: string): (i: int)
    ensures -1 <= i < |polls|
    ensures 0 <= i ==> !StringLess(polls[i].poll.id, id)
    ensures forall j :: 0 <= j < |polls| && (i == -1 || j < i) ==> StringLess(polls[j].poll.id, id)
  {
    FindIndex(polls, (p: KnownPoll) => !StringLess(p.poll.id, id))
  }

  /** Strictly ascending by poll id, so no poll has two entries. */
  ghost predicate SortedById(polls: seq<KnownPoll>) {
    forall i, j :: 0 <= i < j < |polls| ==> StringLess(polls[i].poll.id, polls[j].poll.id)
  }

  /**
   * `getKnownBallots`: the ballot ids of the first entry for the poll, or
   * `null` when there is none.
   */
  function KnownBallotsOf(polls: seq<KnownPoll>, pollId: string): (r: Option<seq<string>>)
    ensures r.None? <==> !Known(polls, pollId)
    ensures r.Some? ==> r.value == polls[PollIndex(polls, pollId)].knownBallots
  {
    var matches := (p: KnownPoll) => p.poll.id == pollId;
    var found := Filter(polls, matches);
    FilterHeadIsFirstMatch(polls, matches);
    if |found| > 0 then Some(found[0].knownBallots) else None
  }

  /** The known polls after `mutateKnownPoll(pollId, mutator)`. */
  function Mutated(polls: seq<KnownPoll>, pollId: string, mutator: KnownPoll -> KnownPoll): (r: seq<KnownPoll>)
    requires Known(polls, pollId)
    ensures |r| == |polls|
    ensures var i := PollIndex(polls, pollId);
      && r[i] == mutator(polls[i])
      && forall j :: 0 <= j < |polls| && j != i ==> r[j] == polls[j]
  {
    var pollIndex := PollIndex(polls, pollId);
    polls[pollIndex := mutator(polls[pollIndex])]
  }

  /**
   * The known polls after `addKnownPoll(poll, isMine)`. If the entry found
   * is already the poll's, the source runs `Object.assign(p, poll)` on it:
   * that copies the poll's fields onto the entry object itself, beside
   * `poll`, `isMine` and `knownBallots`, which all stay as they were.
   */
  function AddedKnownPoll(polls: seq<KnownPoll>, poll: Poll, isMine: bool): (r: seq<KnownPoll>)
    ensures Known(r, poll.id)
    ensures multiset(r) == multiset(polls) || multiset(r) == multiset(polls) + multiset{KnownPoll(poll, isMine, [])}
  {
    var desiredIndex := InsertionIndex(polls, poll.id);
    if desiredIndex > -1 && polls[desiredIndex].poll.id == poll.id then
      polls
    else
      var newPoll := KnownPoll(poll, isMine, []);
      if desiredIndex < 0 then
        assert (polls + [newPoll])[|polls|] == newPoll;
        polls + [newPoll]
      else InsertAt(polls, desiredIndex, newPoll)
  }

  /** The mutator of `addKnownBallot`: `p.knownBallots = p.knownBallots.concat([ballotId])`. */
  function AppendBallot(ballotId: string): KnownPoll -> KnownPoll {
    (p: KnownPoll) => p.(knownBallots := p.knownBallots + [ballotId])
  }

  /** The known polls after `addKnownBallot(pollId, ballotId)`. */
  function AddedKnownBallot(polls: seq<KnownPoll>, pollId: string, ballotId: string): (r: seq<KnownPoll>)
    requires Known(polls, pollId)
    ensures |r| == |polls|
    ensures forall j :: 0 <= j < |r| ==> r[j].poll == polls[j].poll && r[j].isMine == polls[j].isMine
  {
    Mutated(polls, pollId, AppendBallot(ballotId))
  }

  /** The known polls after `removePoll(pollId)`. */
  function RemovedPoll(polls: seq<KnownPoll>, pollId: string): (r: seq<KnownPoll>)
    ensures |r| == if Known(polls, pollId) then |polls| - 1 else |polls|
    ensures multiset(r) <= multiset(polls)
  {
    var pollIndex := PollIndex(polls, pollId);
    if pollIndex >= 0 then RemoveAt(polls, pollIndex) else polls
  }

  /** In a sorted list, the entry for an id is the first entry not before it. */
  lemma SortedInsertionIndex(polls: seq<KnownPoll>, id: string)
    requires SortedById(polls)
    requires Known(polls, id)
    ensures InsertionIndex(polls, id) == PollIndex(polls, id)
  {
    var k, m := InsertionIndex(polls, id), PollIndex(polls, id);
    if k == -1 || k > m {
      StringLessIrreflexive(id);
    }
  }

  /** Adding a poll to a sorted list keeps it sorted. */
  lemma AddKnownPollKeepsSorted(polls: seq<KnownPoll>, poll: Poll, isMine: bool)
    requires SortedById(polls)
    ensures SortedById(AddedKnownPoll(polls, poll, isMine))
  {
    var k := InsertionIndex(polls, poll.id);
    if !(k > -1 && polls[k].poll.id == poll.id) && k >= 0 {
      var r := AddedKnownPoll(polls, poll, isMine);
      StringLessTrichotomy(polls[k].poll.id, poll.id);
      forall j | k < j < |polls| ensures StringLess(poll.id, polls[j].poll.id) {
        StringLessTransitive(poll.id, polls[k].poll.id, polls[j].poll.id);
      }
      forall a, b | 0 <= a < b < |r| ensures StringLess(r[a].poll.id, r[b].poll.id) {
        if a < k && b > k {
          StringLessTransitive(r[a].poll.id, poll.id, r[b].poll.id);
        }
      }
    }
  }

  /**
   * Adding a poll the sorted list already holds adds no second entry and
   * keeps that entry, its ballot ids included, as it was.
   */
  lemma AddKnownPollExisting(polls: seq<KnownPoll>, poll: Poll, isMine: bool)
    requires SortedById(polls)
    requires Known(polls, poll.id)
    ensures AddedKnownPoll(polls, poll, isMine) == polls
  {
    SortedInsertionIndex(polls, poll.id);
  }

  /**
   * A poll with no entry yet gets a fresh one, with the given `isMine` and
   * no ballots, placed before the first entry whose id is not smaller, or
   * at the end.
   */
  lemma AddKnownPollNew(polls: seq<KnownPoll>, poll: Poll, isMine: bool)
    requires !Known(polls, poll.id)
    ensures var r := AddedKnownPoll(polls, poll, isMine);
      exists k :: && 0 <= k <= |polls|
                  && r == polls[..k] + [KnownPoll(poll, isMine, [])] + polls[k..]
                  && (forall j :: 0 <= j < k ==> StringLess(polls[j].poll.id, poll.id))
                  && (k < |polls| ==> !StringLess(polls[k].poll.id, poll.id))
  {
    var k := InsertionIndex(polls, poll.id);
    var entry := KnownPoll(poll, isMine, []);
    if k < 0 {
      assert polls + [entry] == polls[..|polls|] + [entry] + polls[|polls|..];
    } else {
      assert polls[k].poll.id != poll.id;
    }
  }

  /**
   * `addKnownBallot` appends the ballot id to the poll's own list of
   * ballot ids and leaves the ballots of every other poll alone.
   */
  lemma AddKnownBallotAppends(polls: seq<KnownPoll>, pollId: string, ballotId: string)
    requires Known(polls, pollId)
    ensures KnownBallotsOf(AddedKnownBallot(polls, pollId, ballotId), pollId)
      == Some(KnownBallotsOf(polls, pollId).value + [ballotId])
    ensures forall other :: other != pollId ==>
      KnownBallotsOf(AddedKnownBallot(polls, pollId, ballotId), other) == KnownBallotsOf(polls, other)
  {
    var r := AddedKnownBallot(polls, pollId, ballotId);
    var i := PollIndex(polls, pollId);
    assert forall j :: 0 <= j < |r| ==> r[j].poll == polls[j].poll;
    assert PollIndex(r, pollId) == i;
    forall other | other != pollId
      ensures KnownBallotsOf(r, other) == KnownBallotsOf(polls, other)
    {
      assert Known(r, other) <==> Known(polls, other);
      if Known(polls, other) {
        var m := PollIndex(polls, other);
        assert PollIndex(r, other) == m;
      }
    }
  }

  /** Adding a ballot id changes no poll id, so a sorted list stays sorted. */
  lemma AddKnownBallotKeepsSorted(polls: seq<KnownPoll>, pollId: string, ballotId: string)
    requires Known(polls, pollId)
    requires SortedById(polls)
    ensures SortedById(AddedKnownBallot(polls, pollId, ballotId))
  {
    var r := AddedKnownBallot(polls, pollId, ballotId);
    assert forall j :: 0 <= j < |r| ==> r[j].poll == polls[j].poll;
  }

  /**
   * `removePoll` drops the first entry for the poll and keeps the others in
   * their order; a poll without an entry leaves the list as it was.
   */
  lemma RemovePollEffect(polls: seq<KnownPoll>, pollId: string)
    ensures !Known(polls, pollId) ==> RemovedPoll(polls, pollId) == polls
    ensures Known(polls, pollId) ==>
      var i, r := PollIndex(polls, pollId), RemovedPoll(polls, pollId);
      && |r| == |polls| - 1
      && (forall j :: 0 <= j < i ==> polls[j].poll.id != pollId && r[j] == polls[j])
      && (forall j :: i <= j < |r| ==> r[j] == polls[j + 1])
      && multiset(r) == multiset(polls) - multiset{polls[i]}
  {
  }

  /** A sorted list stays sorted after a removal and then has no entry for the poll. */
  lemma RemovePollKeepsSorted(polls: seq<KnownPoll>, pollId: string)
    requires SortedById(polls)
    ensures SortedById(RemovedPoll(polls, pollId))
    ensures !Known(RemovedPoll(polls, pollId), pollId)
  {
    var i := PollIndex(polls, pollId);
    if i >= 0 {
      RemoveAtPairwise(polls, i, (a: KnownPoll, b: KnownPoll) => StringLess(a.poll.id, b.poll.id));
      var r := RemovedPoll(polls, pollId);
      forall j | 0 <= j < |r| ensures r[j].poll.id != pollId {
        if j >= i {
          assert r[j] == polls[j + 1];
          StringLessIrreflexive(pollId);
        }
      }
    }
  }

  /** `LocalStoreIdentityService`, with the stored identity held in its fields. */
  class IdentityStore {
    var key: string
    var knownPolls: seq<KnownPoll>

    /** `_generateIdentity`: a fresh identity; the random key is a parameter. */
    constructor (key: string)
      ensures this.key == key && knownPolls == []
    {
      this.key := key;
      knownPolls := [];
    }

    method GetKey() returns (k: string)
      ensures k == key
    {
      k := key;
    }

    method GetKnownPolls() returns (polls: seq<KnownPoll>)
      ensures polls == knownPolls
    {
      polls := knownPolls;
    }

    method GetKnownBallots(pollId: string) returns (r: Option<seq<string>>)
      ensures r.None? <==> !Known(knownPolls, pollId)
      ensures r.Some? ==> r.value == knownPolls[PollIndex(knownPolls, pollId)].knownBallots
    {
      var polls := Filter(knownPolls, (p: KnownPoll) => p.poll.id == pollId);
      if |polls| > 0 {
        r := Some(polls[0].knownBallots);
      } else {
        r := None;
      }
      FilterHeadIsFirstMatch(knownPolls, (p: KnownPoll) => p.poll.id == pollId);
    }

    /**
     * `mutateKnownPoll`: replaces the first entry for the poll by what the
     * mutator makes of it. An absent poll makes the source's mutator fail on
     * `undefined`, so the poll must be known.
     */
    method MutateKnownPoll(pollId: string, mutator: KnownPoll -> KnownPoll)
      requires Known(knownPolls, pollId)
      modifies this
      ensures knownPolls == Mutated(old(knownPolls), pollId, mutator)
      ensures key == old(key)
    {
      var pollIndex := PollIndex(knownPolls, pollId);
      var poll := knownPolls[pollIndex];
      knownPolls := knownPolls[pollIndex := mutator(poll)];
    }

    method AddKnownPoll(poll: Poll, isMine: bool)
      modifies this
      ensures knownPolls == AddedKnownPoll(old(knownPolls), poll, isMine)
      ensures old(SortedById(knownPolls)) ==> SortedById(knownPolls)
      ensures key == old(key)
    {
      ghost var before := knownPolls;
      var desiredIndex := InsertionIndex(knownPolls, poll.id);
      if desiredIndex > -1 && knownPolls[desiredIndex].poll.id == poll.id {
        // Object.assign(p, poll) adds fields beside the typed ones and changes none of them.
        MutateKnownPoll(poll.id, (p: KnownPoll) => p);
      } else {
        var newPoll := KnownPoll(poll, isMine, []);
        if desiredIndex < 0 {
          knownPolls := knownPolls + [newPoll];
        } else {
          knownPolls := InsertAt(knownPolls, desiredIndex, newPoll);
        }
      }
      if SortedById(before) {
        AddKnownPollKeepsSorted(before, poll, isMine);
      }
    }

    /** `addKnownBallot`; the poll must be known, as for `mutateKnownPoll`. */
    method AddKnownBallot(pollId: string, ballotId: string)
      requires Known(knownPolls, pollId)
      modifies this
      ensures knownPolls == AddedKnownBallot(old(knownPolls), pollId, ballotId)
      ensures old(SortedById(knownPolls)) ==> SortedById(knownPolls)
      ensures key == old(key)
    {
      if SortedById(knownPolls) {
        AddKnownBallotKeepsSorted(knownPolls, pollId, ballotId);
      }
      MutateKnownPoll(pollId, AppendBallot(ballotId));
    }

    method RemovePoll(pollId: string)
      modifies this
      ensures knownPolls == RemovedPoll(old(knownPolls), pollId)
      ensures old(SortedById(knownPolls)) ==> SortedById(knownPolls)
      ensures key == old(key)
    {
      ghost var before := knownPolls;
      var pollIndex := PollIndex(knownPolls, pollId);
      if pollIndex >= 0 {
        knownPolls := RemoveAt(knownPolls, pollIndex);
      }
      assert knownPolls == RemovedPoll(before, pollId);
      if SortedById(before) {
        RemovePollKeepsSorted(before, pollId);
      }
    }
  }
}
