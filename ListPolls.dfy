/**
 * The list of known polls: newest expiry first, split into the polls this
 * device created and the ones it has only seen, with removal of an entry.
 */
module ListPolls {
  import opened Js
  import opened Seqs
  import opened Api
  import opened UserIdentity

  /**
   * `localeCompare(a, b) <= 0`, abstracted: any total preorder on the
   * expiry strings.
   */
  ghost predicate TotalPreorder(le: (string, string) -> bool) {
    && (forall a, b :: le(a, b) || le(b, a))
    && (forall a, b, c :: le(a, b) && le(b, c) ==> le(a, c))
  }

  /** Expiry ascending: every earlier entry expires no later than every later one. */
  ghost predicate SortedByExpires(polls: seq<KnownPoll>, le: (string, string) -> bool) {
    forall i, j :: 0 <= i < j < |polls| ==> le(polls[i].poll.expires, polls[j].poll.expires)
  }

  /** Expiry descending: every earlier entry expires no earlier than every later one. */
  ghost predicate NewestFirst(polls: seq<KnownPoll>, le: (string, string) -> bool) {
    forall i, j :: 0 <= i < j < |polls| ==> le(polls[j].poll.expires, polls[i].poll.expires)
  }

  /** `kp` placed before the first entry of `sorted` that it does not expire after. */
  function InsertByExpires(kp: KnownPoll, sorted: seq<KnownPoll>, le: (string, string) -> bool): (r: seq<KnownPoll>)
    requires TotalPreorder(le) && SortedByExpires(sorted, le)
    ensures multiset(r) == multiset(sorted) + multiset{kp}
    ensures SortedByExpires(r, le)
  {
    if sorted == [] then [kp]
    else if le(kp.poll.expires, sorted[0].poll.expires) then
      InsertFrontSorted(kp, sorted, le);
      [kp] + sorted
    else
      var rest := InsertByExpires(kp, sorted[1..], le);
      assert sorted == [sorted[0]] + sorted[1..];
      ConsSorted(sorted[0], kp, sorted[1..], rest, le);
      [sorted[0]] + rest
  }

  lemma InsertFrontSorted(kp: KnownPoll, sorted: seq<KnownPoll>, le: (string, string) -> bool)
    requires TotalPreorder(le) && SortedByExpires(sorted, le)
    requires sorted != [] && le(kp.poll.expires, sorted[0].poll.expires)
    ensures SortedByExpires([kp] + sorted, le)
  {
    var r := [kp] + sorted;
    forall i, j | 0 <= i < j < |r| ensures le(r[i].poll.expires, r[j].poll.expires) {
      if i == 0 && j > 1 {
        assert r[j] == sorted[j - 1];
      }
    }
  }

  /** Putting `head` before a sorted list of `kp` and `tail` keeps it sorted when `head` comes first. */
  lemma ConsSorted(head: KnownPoll, kp: KnownPoll, tail: seq<KnownPoll>, rest: seq<KnownPoll>, le: (string, string) -> bool)
    requires TotalPreorder(le) && SortedByExpires([head] + tail, le) && SortedByExpires(rest, le)
    requires !le(kp.poll.expires, head.poll.expires)
    requires multiset(rest) == multiset(tail) + multiset{kp}
    ensures SortedByExpires([head] + rest, le)
  {
    assert le(head.poll.expires, kp.poll.expires);
    forall k | 0 <= k < |rest| ensures le(head.poll.expires, rest[k].poll.expires) {
      assert rest[k] in multiset(rest);
      if rest[k] != kp {
        assert rest[k] in multiset(tail);
        var m :| 0 <= m < |tail| && tail[m] == rest[k];
        assert ([head] + tail)[0] == head && ([head] + tail)[m + 1] == rest[k];
      }
    }
    var r := [head] + rest;
    forall i, j | 0 <= i < j < |r| ensures le(r[i].poll.expires, r[j].poll.expires) {
      if i == 0 {
        assert r[j] == rest[j - 1];
      } else {
        assert r[i] == rest[i - 1] && r[j] == rest[j - 1];
      }
    }
  }

  /**
   * `knownPolls.sort((a, b) => a.poll.expires.localeCompare(b.poll.expires))`:
   * the same entries, expiry ascending.
   */
  function SortByExpires(polls: seq<KnownPoll>, le: (string, string) -> bool): (sorted: seq<KnownPoll>)
    requires TotalPreorder(le)
    ensures multiset(sorted) == multiset(polls)
    ensures SortedByExpires(sorted, le)
  {
    if polls == [] then []
    else
      assert polls == [polls[0]] + polls[1..];
      InsertByExpires(polls[0], SortByExpires(polls[1..], le), le)
  }

  /** `.filter((kp) => kp.isMine)` */
  predicate IsMine(kp: KnownPoll) {
    kp.isMine
  }

  /** `.filter((kp) => !kp.isMine)` */
  predicate IsSeen(kp: KnownPoll) {
    !kp.isMine
  }

  /** `sort(...).reverse()`: the same entries, newest expiry first. */
  function NewestFirstOrder(polls: seq<KnownPoll>, le: (string, string) -> bool): (sorted: seq<KnownPoll>)
    requires TotalPreorder(le)
    ensures multiset(sorted) == multiset(polls)
    ensures NewestFirst(sorted, le)
  {
    var ascending := SortByExpires(polls, le);
    ReverseMultiset(ascending);
    Reverse(ascending)
  }

  /**
   * After `componentDidMount`: each list runs newest expiry first; `myPolls`
   * holds exactly the entries marked mine and `seenPolls` exactly the
   * others; together they are the known polls, each entry once.
   */
  lemma {:induction false} MountedListsFacts(polls: seq<KnownPoll>, le: (string, string) -> bool)
    requires TotalPreorder(le)
    ensures var sorted := NewestFirstOrder(polls, le);
      var myPolls, seenPolls := Filter(sorted, IsMine), Filter(sorted, IsSeen);
      && NewestFirst(myPolls, le) && NewestFirst(seenPolls, le)
      && (forall kp :: kp in myPolls <==> kp in polls && kp.isMine)
      && (forall kp :: kp in seenPolls <==> kp in polls && !kp.isMine)
      && multiset(myPolls) + multiset(seenPolls) == multiset(polls)
  {
    var sorted := NewestFirstOrder(polls, le);
    FilterPairwise(sorted, IsMine, (a: KnownPoll, b: KnownPoll) => le(b.poll.expires, a.poll.expires));
    FilterPairwise(sorted, IsSeen, (a: KnownPoll, b: KnownPoll) => le(b.poll.expires, a.poll.expires));
    FilterPartition(sorted, IsMine, IsSeen);
    forall kp ensures kp in sorted <==> kp in polls {
      assert kp in sorted <==> kp in multiset(sorted);
      assert kp in polls <==> kp in multiset(polls);
    }
    forall kp ensures (kp in Filter(sorted, IsMine) <==> kp in polls && kp.isMine)
                   && (kp in Filter(sorted, IsSeen) <==> kp in polls && !kp.isMine)
    {
      FilterMember(sorted, IsMine, kp);
      FilterMember(sorted, IsSeen, kp);
    }
  }

  /**
   * The list `handleRemove` leaves: without the first occurrence of `kp`,
   * the rest in order; a list without `kp` is returned as it is. `.flat(1)`
   * changes nothing, since the elements are not arrays.
   */
  function RemoveFirst(pollList: seq<KnownPoll>, kp: KnownPoll): (r: seq<KnownPoll>)
    ensures kp !in pollList ==> r == pollList
    ensures kp in pollList ==>
      && multiset(r) == multiset(pollList) - multiset{kp}
      && exists i :: && 0 <= i < |pollList| && pollList[i] == kp && kp !in pollList[..i]
                     && r == pollList[..i] + pollList[i + 1..]
  {
    var index := IndexOf(pollList, kp);
    if index >= 0 then
      assert kp !in pollList[..index];
      assert RemoveAt(pollList, index) == pollList[..index] + pollList[index + 1..];
      RemoveAt(pollList, index)
    else pollList
  }

  /** A removal keeps a list newest first, and keeps it to the entries it held. */
  lemma RemoveFirstKeepsOrder(pollList: seq<KnownPoll>, kp: KnownPoll, le: (string, string) -> bool)
    requires NewestFirst(pollList, le)
    ensures NewestFirst(RemoveFirst(pollList, kp), le)
    ensures forall x :: x in RemoveFirst(pollList, kp) ==> x in pollList
  {
    var index := IndexOf(pollList, kp);
    if index >= 0 {
      RemoveAtPairwise(pollList, index, (a: KnownPoll, b: KnownPoll) => le(b.poll.expires, a.poll.expires));
      forall x | x in RemoveFirst(pollList, kp) ensures x in pollList {
        assert x in multiset(RemoveFirst(pollList, kp));
      }
    }
  }

  /** `nilExplanation` renders exactly when both lists are empty. */
  function ShowsNilExplanation(myPolls: seq<KnownPoll>, seenPolls: seq<KnownPoll>): (shown: bool)
    ensures shown <==> myPolls == [] && seenPolls == []
  {
    !(|myPolls| + |seenPolls| > 0)
  }

  /** A rendered sublist: its heading and one item per poll, keyed by poll id. */
  datatype Sublist = Sublist(title: string, items: seq<KnownPoll>)

  /** `pollsSublist`: nothing for an empty subset. */
  function PollsSublist(title: string, knownPollsSubset: seq<KnownPoll>): (r: Option<Sublist>)
    ensures r.None? <==> knownPollsSubset == []
    ensures r.Some? ==> r.value.title == title && r.value.items == knownPollsSubset
  {
    if |knownPollsSubset| == 0 then None else Some(Sublist(title, knownPollsSubset))
  }

  /** The page: the two sublists, then the empty-state message if it shows. */
  datatype Page = Page(owned: Option<Sublist>, unowned: Option<Sublist>, nilExplanation: bool)

  /**
   * `render`: each sublist shows exactly when it has polls, and the
   * empty-state message shows exactly when neither sublist does.
   */
  function Render(myPolls: seq<KnownPoll>, seenPolls: seq<KnownPoll>): (page: Page)
    ensures page.owned.Some? <==> myPolls != []
    ensures page.owned.Some? ==> page.owned.value == Sublist("Polls you've created", myPolls)
    ensures page.unowned.Some? <==> seenPolls != []
    ensures page.unowned.Some? ==> page.unowned.value == Sublist("Polls you've viewed", seenPolls)
    ensures page.nilExplanation <==> page.owned.None? && page.unowned.None?
  {
    Page(PollsSublist("Polls you've created", myPolls),
         PollsSublist("Polls you've viewed", seenPolls),
         ShowsNilExplanation(myPolls, seenPolls))
  }

  /** The component's state. */
  class PollListView {
    var myPolls: seq<KnownPoll>
    var seenPolls: seq<KnownPoll>

    constructor ()
      ensures myPolls == [] && seenPolls == []
    {
      myPolls, seenPolls := [], [];
    }

    /**
     * `componentDidMount`. The source sorts the copy that `getKnownPolls`
     * parses from storage, so the stored list keeps its order.
     */
    method ComponentDidMount(identity: IdentityStore, le: (string, string) -> bool)
      requires TotalPreorder(le)
      modifies this
      ensures myPolls == Filter(NewestFirstOrder(identity.knownPolls, le), IsMine)
      ensures seenPolls == Filter(NewestFirstOrder(identity.knownPolls, le), IsSeen)
    {
      var knownPolls := identity.GetKnownPolls();
      var sorted := Reverse(SortByExpires(knownPolls, le));
      myPolls := Filter(sorted, IsMine);
      seenPolls := Filter(sorted, IsSeen);
    }

    /** `handleRemove`: forgets the poll, then drops the entry from whichever list holds it. */
    method HandleRemove(identity: IdentityStore, kp: KnownPoll)
      modifies this, identity
      ensures identity.knownPolls == RemovedPoll(old(identity.knownPolls), kp.poll.id)
      ensures identity.key == old(identity.key)
      ensures myPolls == RemoveFirst(old(myPolls), kp)
      ensures seenPolls == RemoveFirst(old(seenPolls), kp)
    {
      identity.RemovePoll(kp.poll.id);
      myPolls, seenPolls := RemoveFirst(myPolls, kp), RemoveFirst(seenPolls, kp);
    }
  }
}
