/**
 * The poll-creation form: the validator, the editable candidate list with
 * its key counter, and what a submission sends and records.
 */
module CreatePoll {
  import opened Js
  import opened Seqs
  import opened Api
  import opened UserIdentity

  /** A row of the candidate list; `key` only identifies the row. */
  datatype CandidateEntry = CandidateEntry(key: nat, candidate: Candidate)

  /** `newCandidate()`: no name and a `null` description. */
  function NewCandidate(): (c: Candidate)
    ensures !TruthyString(c.name) && !Truthy(c.description)
  {
    Candidate("", None)
  }

  /** The three rules the validator checks, in the order it reports them. */
  datatype Rule = NameRule | CountRule | DuplicateRule

  /** The message shown for a broken rule. */
  function Message(rule: Rule): string {
    match rule
    case NameRule => "Provide a poll name."
    case CountRule => "Provide at least two candidates, or enable write-ins."
    case DuplicateRule => "Remove candidates with duplicated names."
  }

  /** Distinct rules show distinct texts, so the shown texts determine the broken rules. */
  lemma MessagesDistinct()
    ensures forall a, b :: Message(a) == Message(b) ==> a == b
  {
    forall a, b | Message(a) == Message(b) ensures a == b {
      assert |Message(a)| == |Message(b)|;
    }
  }

  /** The place of a rule in the validator's table. */
  function RuleRank(rule: Rule): nat {
    match rule
    case NameRule => 0
    case CountRule => 1
    case DuplicateRule => 2
  }

  function EntryName(e: CandidateEntry): string {
    e.candidate.name
  }

  function EntryCandidate(e: CandidateEntry): Candidate {
    e.candidate
  }

  /** `candidates.map((c) => c.candidate.name)` */
  function EntryNames(entries: seq<CandidateEntry>): seq<string> {
    Map(entries, EntryName)
  }

  /** `candidates.map((c) => c.candidate)` */
  function EntryCandidates(entries: seq<CandidateEntry>): seq<Candidate> {
    Map(entries, EntryCandidate)
  }

  /** `c.trim().length > 0`, which by the contract of `Trim` says that `c` is not all whitespace. */
  predicate NonBlank(n: string) {
    !Blank(n)
  }

  lemma NonBlankIsTrimmedLength(n: string)
    ensures NonBlank(n) <==> |Trim(n)| > 0
  {
  }

  /** `c.name.trim().length > 0` */
  predicate HasName(c: Candidate) {
    NonBlank(c.name)
  }

  /** The names the validator looks at: those that are not blank once trimmed, in list order. */
  function NonBlankNames(entries: seq<CandidateEntry>): (names: seq<string>)
    ensures forall i :: 0 <= i < |names| ==> !Blank(names[i])
    ensures forall n :: n in names <==> n in EntryNames(entries) && !Blank(n)
  {
    NonBlankMembers(EntryNames(entries));
    Filter(EntryNames(entries), NonBlank)
  }

  lemma NonBlankMembers(names: seq<string>)
    ensures forall n :: n in Filter(names, NonBlank) <==> n in names && !Blank(n)
  {
    forall n ensures n in Filter(names, NonBlank) <==> n in names && !Blank(n) {
      FilterMember(names, NonBlank, n);
    }
  }

  /** The candidates `handleSubmit` sends: those whose name is not blank once trimmed. */
  function SubmittedCandidates(entries: seq<CandidateEntry>): (submitted: seq<Candidate>)
    ensures forall c :: c in submitted <==>
      (exists i :: 0 <= i < |entries| && entries[i].candidate == c) && !Blank(c.name)
  {
    var cs := EntryCandidates(entries);
    forall c ensures c in Filter(cs, HasName) <==> (exists i :: 0 <= i < |entries| && entries[i].candidate == c) && !Blank(c.name) {
      FilterMember(cs, HasName, c);
      if c in cs {
        var i :| 0 <= i < |cs| && cs[i] == c;
        assert entries[i].candidate == c;
      }
      if exists i :: 0 <= i < |entries| && entries[i].candidate == c {
        var i :| 0 <= i < |entries| && entries[i].candidate == c;
        assert cs[i] == c;
      }
    }
    Filter(cs, HasName)
  }

  /** One entry of the validator's table: a rule and whether the form breaks it. */
  datatype Check = Check(rule: Rule, fail: bool)

  predicate Fails(v: Check) {
    v.fail
  }

  function RuleOf(v: Check): Rule {
    v.rule
  }

  /** `.map(v => v.msg)`, keeping the rule rather than its text. */
  function Rules(checks: seq<Check>): seq<Rule> {
    Map(checks, RuleOf)
  }

  /**
   * `validationErrors`: one entry per rule the form breaks, always in the
   * order name, count, duplicates. Duplicates are untrimmed names compared
   * as they are.
   */
  function ValidationErrors(name: string, entries: seq<CandidateEntry>, writeIns: bool): (errors: seq<Rule>)
    ensures NameRule in errors <==> Blank(name)
    ensures CountRule in errors <==> |NonBlankNames(entries)| < 2 && !writeIns
    ensures DuplicateRule in errors <==> !NoDuplicates(NonBlankNames(entries))
    ensures forall i, j :: 0 <= i < j < |errors| ==> RuleRank(errors[i]) < RuleRank(errors[j])
  {
    var candidateNames := NonBlankNames(entries);
    var nameFails := |Trim(name)| == 0;
    var countFails := |candidateNames| < 2 && !writeIns;
    var duplicateFails := |Elements(candidateNames)| < |candidateNames|;
    ElementsCardinality(candidateNames);
    ValidationFacts(nameFails, countFails, duplicateFails);
    TableOrder(nameFails, countFails, duplicateFails);
    Rules(Filter([Check(NameRule, nameFails), Check(CountRule, countFails), Check(DuplicateRule, duplicateFails)], Fails))
  }

  /**
   * `validationErrors()` as the source returns it, the texts of the broken
   * rules: each text is shown exactly when its rule fails, in table order.
   */
  function ValidationMessages(name: string, entries: seq<CandidateEntry>, writeIns: bool): (messages: seq<string>)
    ensures Message(NameRule) in messages <==> Blank(name)
    ensures Message(CountRule) in messages <==> |NonBlankNames(entries)| < 2 && !writeIns
    ensures Message(DuplicateRule) in messages <==> !NoDuplicates(NonBlankNames(entries))
    ensures forall i, j :: 0 <= i < j < |messages| ==> messages[i] != messages[j]
  {
    var errors := ValidationErrors(name, entries, writeIns);
    MessagesOf(errors, NameRule);
    MessagesOf(errors, CountRule);
    MessagesOf(errors, DuplicateRule);
    Map(errors, Message)
  }

  /** Texts of rules in rank order name each rule exactly when it is listed, and none twice. */
  lemma MessagesOf(errors: seq<Rule>, rule: Rule)
    requires forall i, j :: 0 <= i < j < |errors| ==> RuleRank(errors[i]) < RuleRank(errors[j])
    ensures Message(rule) in Map(errors, Message) <==> rule in errors
    ensures forall i, j :: 0 <= i < j < |errors| ==> Map(errors, Message)[i] != Map(errors, Message)[j]
  {
    MessagesDistinct();
  }

  /** The filtered table holds the broken rules, in table order. */
  lemma ValidationFacts(nameFails: bool, countFails: bool, duplicateFails: bool)
    ensures Rules(Filter([Check(NameRule, nameFails), Check(CountRule, countFails), Check(DuplicateRule, duplicateFails)], Fails))
      == (if nameFails then [NameRule] else [])
       + (if countFails then [CountRule] else [])
       + (if duplicateFails then [DuplicateRule] else [])
  {
    var a, b, c := Check(NameRule, nameFails), Check(CountRule, countFails), Check(DuplicateRule, duplicateFails);
    assert [a, b, c][1..] == [b, c];
    assert [b, c][1..] == [c];
    assert [c][1..] == [];
    assert Filter([c], Fails) == (if c.fail then [c] else []) + Filter([], Fails);
    assert Filter([b, c], Fails) == (if b.fail then [b] else []) + Filter([c], Fails);
    assert Filter([a, b, c], Fails) == (if a.fail then [a] else []) + Filter([b, c], Fails);
  }

  /** The broken rules of the table, each present exactly when broken, in rank order. */
  lemma TableOrder(nameFails: bool, countFails: bool, duplicateFails: bool)
    ensures var errors := (if nameFails then [NameRule] else [])
                        + (if countFails then [CountRule] else [])
                        + (if duplicateFails then [DuplicateRule] else []);
      && (NameRule in errors <==> nameFails)
      && (CountRule in errors <==> countFails)
      && (DuplicateRule in errors <==> duplicateFails)
      && (forall i, j :: 0 <= i < j < |errors| ==> RuleRank(errors[i]) < RuleRank(errors[j]))
  {
  }


  /** Keeping the named candidates and then taking names is taking names and then keeping the non-blank ones. */
  lemma {:induction false} CandidateNamesFilter(cs: seq<Candidate>)
    ensures CandidateNames(Filter(cs, HasName)) == Filter(CandidateNames(cs), NonBlank)
  {
    if cs != [] {
      var head := if HasName(cs[0]) then [cs[0]] else [];
      var names := CandidateNames(cs);
      var headName := if NonBlank(names[0]) then [names[0]] else [];
      CandidateNamesFilter(cs[1..]);
      assert Filter(cs, HasName) == head + Filter(cs[1..], HasName);
      assert names[1..] == CandidateNames(cs[1..]);
      assert Filter(names, NonBlank) == headName + Filter(names[1..], NonBlank);
      assert CandidateNames(head) == headName;
      MapConcat(head, Filter(cs[1..], HasName), NameOf);
    }
  }

  /** Submitting sends exactly the candidates whose names the validator counted, in the same order. */
  lemma SubmittedNames(entries: seq<CandidateEntry>)
    ensures CandidateNames(SubmittedCandidates(entries)) == NonBlankNames(entries)
  {
    assert EntryNames(entries) == CandidateNames(EntryCandidates(entries));
    CandidateNamesFilter(EntryCandidates(entries));
  }

  /**
   * A form that passes validation submits a named poll whose candidates
   * have non-blank, distinct names, at least two of them unless write-ins
   * are on.
   */
  lemma ValidSubmission(name: string, entries: seq<CandidateEntry>, writeIns: bool)
    requires ValidationErrors(name, entries, writeIns) == []
    ensures !Blank(name)
    ensures var submitted := SubmittedCandidates(entries);
      && (writeIns || |submitted| >= 2)
      && NoDuplicates(CandidateNames(submitted))
      && (forall i :: 0 <= i < |submitted| ==> !Blank(submitted[i].name))
  {
    SubmittedNames(entries);
    var submitted := SubmittedCandidates(entries);
    forall i | 0 <= i < |submitted| ensures !Blank(submitted[i].name) {
      assert CandidateNames(submitted)[i] == submitted[i].name;
    }
  }

  /** The two kinds of edit the candidate inputs make. */
  datatype CandidateEdit = SetName(name: string) | SetDescription(description: Option<string>)

  /** `Object.assign({}, oldCandidate, newProps)`: the edited field takes the new value, the other is kept. */
  function Applied(c: Candidate, edit: CandidateEdit): (edited: Candidate)
    ensures edit.SetName? ==> edited.name == edit.name && edited.description == c.description
    ensures edit.SetDescription? ==> edited.description == edit.description && edited.name == c.name
  {
    match edit
    case SetName(n) => c.(name := n)
    case SetDescription(d) => c.(description := d)
  }

  /** `handleCandidateDescriptionChange`: an empty description becomes `null`. */
  function DescriptionEdit(newDescription: string): (edit: CandidateEdit)
    ensures edit.SetDescription?
    ensures edit.description.None? <==> newDescription == ""
    ensures edit.description.Some? ==> edit.description.value == newDescription
  {
    SetDescription(if TruthyString(newDescription) then Some(newDescription) else None)
  }

  /** Editing the last row while it is still blank adds a fresh blank row. */
  predicate GrowsOnEdit(entries: seq<CandidateEntry>, index: nat)
    requires index < |entries|
  {
    && index == |entries| - 1
    && !TruthyString(entries[index].candidate.name)
    && !Truthy(entries[index].candidate.description)
  }

  /**
   * The candidate list after `changeCandidate`, the fresh row taking key
   * `nextKey`: the row at `index` is edited in place, keeping its key, and
   * no other row changes; the list grows by one fresh blank row exactly
   * when the edited row was the last one and had neither name nor
   * description.
   */
  function ChangedCandidates(entries: seq<CandidateEntry>, index: nat, edit: CandidateEdit, nextKey: nat): (r: seq<CandidateEntry>)
    requires index < |entries|
    ensures |r| == (if GrowsOnEdit(entries, index) then |entries| + 1 else |entries|)
    ensures r[index] == CandidateEntry(entries[index].key, Applied(entries[index].candidate, edit))
    ensures forall j :: 0 <= j < |entries| && j != index ==> r[j] == entries[j]
    ensures GrowsOnEdit(entries, index) ==> r[|entries|] == CandidateEntry(nextKey, NewCandidate())
  {
    var oldCandidate := entries[index].candidate;
    var changedEntry := CandidateEntry(entries[index].key, Applied(oldCandidate, edit));
    var changedCandidates := entries[..index] + [changedEntry] + entries[index + 1..];
    if GrowsOnEdit(entries, index) then changedCandidates + [CandidateEntry(nextKey, NewCandidate())]
    else changedCandidates
  }

  /** Every key is below the counter. */
  predicate KeysBelow(entries: seq<CandidateEntry>, bound: nat) {
    forall i :: 0 <= i < |entries| ==> entries[i].key < bound
  }

  /** No two rows share a key. */
  predicate DistinctKeys(entries: seq<CandidateEntry>) {
    forall i, j :: 0 <= i < j < |entries| ==> entries[i].key != entries[j].key
  }

  /**
   * Keys stay distinct through an edit: a fresh row takes the counter's
   * value, which no row has yet, and the counter moves past it.
   */
  lemma ChangeCandidateKeys(entries: seq<CandidateEntry>, index: nat, edit: CandidateEdit, nextKey: nat)
    requires index < |entries|
    requires KeysBelow(entries, nextKey) && DistinctKeys(entries)
    ensures var r := ChangedCandidates(entries, index, edit, nextKey);
      && KeysBelow(r, if GrowsOnEdit(entries, index) then nextKey + 1 else nextKey)
      && DistinctKeys(r)
  {
  }

  /**
   * `entries.slice(0, index).concat(entries.slice(index + 1))`, with the
   * clamping of `slice` to the array's length.
   */
  function Deleted(entries: seq<CandidateEntry>, index: nat): (r: seq<CandidateEntry>)
    ensures index < |entries| ==> r == RemoveAt(entries, index)
    ensures index >= |entries| ==> r == entries
  {
    var upTo := if index < |entries| then index else |entries|;
    var from := if index + 1 < |entries| then index + 1 else |entries|;
    entries[..upTo] + entries[from..]
  }

  /** Deleting a row keeps every key below the counter and all keys distinct. */
  lemma DeleteKeys(entries: seq<CandidateEntry>, index: nat, bound: nat)
    requires KeysBelow(entries, bound) && DistinctKeys(entries)
    ensures KeysBelow(Deleted(entries, index), bound) && DistinctKeys(Deleted(entries, index))
  {
    if index < |entries| {
      RemoveAtPairwise(entries, index, (a: CandidateEntry, b: CandidateEntry) => a.key != b.key);
    }
  }

  /** A fresh form complains about the missing name and the missing candidates, and nothing else. */
  lemma InitialErrors()
    ensures ValidationErrors("", [CandidateEntry(0, NewCandidate()), CandidateEntry(1, NewCandidate())], false)
      == [NameRule, CountRule]
  {
    var entries := [CandidateEntry(0, NewCandidate()), CandidateEntry(1, NewCandidate())];
    FilterNone(EntryNames(entries), NonBlank);
    ElementsCardinality(NonBlankNames(entries));
    ValidationFacts(true, true, false);
  }

  /** What `handleSubmit` hands to `createPoll`. */
  datatype PollRequest = PollRequest(
    key: string,
    name: string,
    description: string,
    candidates: seq<Candidate>,
    configuration: Configuration)

  /** The form's component state, with the `lastCandidate` counter beside it. */
  class CreatePollForm {
    var name: string
    var description: string
    var candidates: seq<CandidateEntry>
    var writeIns: bool
    var offerExample: bool
    var validationErrors: Option<seq<Rule>>
    var lastCandidate: nat

    /** Every row's key was drawn from the counter, so the keys are distinct. */
    ghost predicate Valid()
      reads this
    {
      KeysBelow(candidates, lastCandidate) && DistinctKeys(candidates)
    }

    /** The initial state: two blank rows, keys 0 and 1, drawn from a counter that starts at 0. */
    constructor ()
      ensures Valid()
      ensures name == "" && description == ""
      ensures candidates == [CandidateEntry(0, NewCandidate()), CandidateEntry(1, NewCandidate())]
      ensures lastCandidate == 2
      ensures !writeIns && offerExample && validationErrors.None?
    {
      var counter := 0;
      var first := CandidateEntry(counter, NewCandidate());
      counter := counter + 1;
      var second := CandidateEntry(counter, NewCandidate());
      counter := counter + 1;
      lastCandidate := counter;
      name, description := "", "";
      candidates := [first, second];
      writeIns, offerExample, validationErrors := false, true, None;
    }

    method HandleNameChange(newName: string)
      modifies this
      ensures name == newName
      ensures description == old(description) && candidates == old(candidates) && writeIns == old(writeIns)
      ensures offerExample == old(offerExample) && validationErrors == old(validationErrors)
      ensures lastCandidate == old(lastCandidate)
    {
      name := newName;
    }

    method HandleDescriptionChange(newDescription: string)
      modifies this
      ensures description == newDescription
      ensures name == old(name) && candidates == old(candidates) && writeIns == old(writeIns)
      ensures offerExample == old(offerExample) && validationErrors == old(validationErrors)
      ensures lastCandidate == old(lastCandidate)
    {
      description := newDescription;
    }

    method HandleWriteInChange(newValue: bool)
      modifies this
      ensures writeIns == newValue
      ensures name == old(name) && description == old(description) && candidates == old(candidates)
      ensures offerExample == old(offerExample) && validationErrors == old(validationErrors)
      ensures lastCandidate == old(lastCandidate)
    {
      writeIns := newValue;
    }

    /**
     * `changeCandidate`. The source reads `candidates[index]`, so the index
     * must be in range. Any edit withdraws the offer of an example poll.
     */
    method ChangeCandidate(index: nat, edit: CandidateEdit)
      requires index < |candidates|
      requires Valid()
      modifies this
      ensures Valid()
      ensures candidates == ChangedCandidates(old(candidates), index, edit, old(lastCandidate))
      ensures lastCandidate == if GrowsOnEdit(old(candidates), index) then old(lastCandidate) + 1 else old(lastCandidate)
      ensures !offerExample
      ensures name == old(name) && description == old(description) && writeIns == old(writeIns)
      ensures validationErrors == old(validationErrors)
    {
      ChangeCandidateKeys(candidates, index, edit, lastCandidate);
      var oldCandidate := candidates[index].candidate;
      var changedEntry := CandidateEntry(candidates[index].key, Applied(oldCandidate, edit));
      var changedCandidates := candidates[..index] + [changedEntry] + candidates[index + 1..];
      if index == |candidates| - 1 && !TruthyString(oldCandidate.name) && !Truthy(oldCandidate.description) {
        changedCandidates := changedCandidates + [CandidateEntry(lastCandidate, NewCandidate())];
        lastCandidate := lastCandidate + 1;
      }
      candidates, offerExample := changedCandidates, false;
    }

    /** `handleCandidateNameChange` */
    method HandleCandidateNameChange(index: nat, newName: string)
      requires index < |candidates|
      requires Valid()
      modifies this
      ensures Valid()
      ensures candidates == ChangedCandidates(old(candidates), index, SetName(newName), old(lastCandidate))
      ensures lastCandidate == if GrowsOnEdit(old(candidates), index) then old(lastCandidate) + 1 else old(lastCandidate)
      ensures !offerExample
      ensures name == old(name) && description == old(description) && writeIns == old(writeIns)
      ensures validationErrors == old(validationErrors)
    {
      ChangeCandidate(index, SetName(newName));
    }

    /** `handleCandidateDescriptionChange` */
    method HandleCandidateDescriptionChange(index: nat, newDescription: string)
      requires index < |candidates|
      requires Valid()
      modifies this
      ensures Valid()
      ensures candidates == ChangedCandidates(old(candidates), index, DescriptionEdit(newDescription), old(lastCandidate))
      ensures lastCandidate == if GrowsOnEdit(old(candidates), index) then old(lastCandidate) + 1 else old(lastCandidate)
      ensures !offerExample
      ensures name == old(name) && description == old(description) && writeIns == old(writeIns)
      ensures validationErrors == old(validationErrors)
    {
      ChangeCandidate(index, DescriptionEdit(newDescription));
    }

    /** `handleDeleteCandidate` */
    method HandleDeleteCandidate(index: nat)
      requires Valid()
      modifies this
      ensures Valid()
      ensures candidates == Deleted(old(candidates), index)
      ensures name == old(name) && description == old(description) && writeIns == old(writeIns)
      ensures offerExample == old(offerExample) && validationErrors == old(validationErrors)
      ensures lastCandidate == old(lastCandidate)
    {
      DeleteKeys(candidates, index, lastCandidate);
      var upTo := if index < |candidates| then index else |candidates|;
      var from := if index + 1 < |candidates| then index + 1 else |candidates|;
      candidates := candidates[..upTo] + candidates[from..];
    }

    /**
     * `handleSubmit`. A form with errors shows them and sends nothing.
     * Otherwise the request goes out with the non-blank candidates, and the
     * poll the server answers with (`created`, a parameter here) is recorded
     * as one of this device's own.
     */
    method HandleSubmit(identity: IdentityStore, created: Poll) returns (request: Option<PollRequest>)
      modifies this, identity
      ensures var errors := ValidationErrors(old(name), old(candidates), old(writeIns));
        if errors != [] then
          && request.None?
          && validationErrors == Some(errors)
          && identity.knownPolls == old(identity.knownPolls)
        else
          && request == Some(PollRequest(old(identity.key), old(name), old(description),
                                         SubmittedCandidates(old(candidates)), Configuration(old(writeIns))))
          && validationErrors == old(validationErrors)
          && identity.knownPolls == AddedKnownPoll(old(identity.knownPolls), created, true)
      ensures identity.key == old(identity.key)
      ensures name == old(name) && description == old(description) && candidates == old(candidates)
      ensures writeIns == old(writeIns) && offerExample == old(offerExample) && lastCandidate == old(lastCandidate)
    {
      var errors := ValidationErrors(name, candidates, writeIns);
      if errors != [] {
        validationErrors := Some(errors);
        request := None;
      } else {
        var key := identity.GetKey();
        request := Some(PollRequest(key, name, description, SubmittedCandidates(candidates), Configuration(writeIns)));
        identity.AddKnownPoll(created, true);
      }
    }
  }
}
