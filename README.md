# Picky Poll front end: a Dafny model of its list and state logic

Picky Poll is a web application for ranked-choice polls: a poll's
creator lists candidates, and voters submit ballots that rank them. The
Copeland method tabulates the ballots, and a pairwise audit table
explains the result. This project models, in Dafny, the sequential logic of
the browser client built around that engine:

- **The audit table** (`PairwiseTable`). It reads the ranked tiers the
  Copeland tabulator returns. Its columns are the candidates that lost at
  least one contest, weakest first. Its rows are all the candidates, tier by
  tier, and each cell is the tally of the row's victory over the column's
  candidate.
- **The device identity** (`UserIdentity`). It is a key plus the list of
  polls this browser created or has seen, each poll with the ids of the
  ballots cast from here. The list is kept sorted by poll id. It is held in
  the fields of a class instead of the browser's local storage.
- **The poll-creation form** (`CreatePoll`). This covers the validator,
  the editable candidate list, and the key counter that keeps the list's
  row keys distinct. It also covers what a submission sends and records.
- **The ballot form** (`CreateBallot`). When write-ins appear while a draft
  is open, the draft ranking is completed with the new candidates. The
  ranking and the voter's name are also updated by replacement.
- **The poll list** (`ListPolls`). The known polls are shown newest
  expiry first, split into the device's own polls and the ones it has only
  seen. This part also covers removing an entry and the empty-state rules.
- **The poll page** (`PollDetailsView`). Ballots are split into the
  device's own and the others. This part also covers the rules that decide
  which sections the page shows, and the flag that opens a second ballot
  form.

Four helper modules support these. `Js` models JavaScript's `null`,
`String.prototype.trim`, string truthiness and string `<`. `Seqs` models
the array methods the code uses: `map`, `filter`, `findIndex`, `indexOf`,
`reverse`, `Array.from(new Set(...))`, `slice` and `splice`. `Api` and
`Copeland` hold the record types the pages receive.

Code that updates state becomes methods of classes. This covers the
identity service, and the component state that React updates with
`setState`. Each method's contract gives its new state as a function of the
old one. What the source promises is proved about those functions as
lemmas. Code that is made of expressions becomes functions.

## Model

| member | source | states |
|---|---|---|
| `Seqs.Map` | src/pages/PollDetails/explainers/CopelandExplainer/PairwiseTable.tsx:20 | one result per element, position by position, each the function applied to that element |
| `PairwiseTable.AllCandidates` | src/pages/PollDetails/explainers/CopelandExplainer/PairwiseTable.tsx:16 | a candidate is in the flattened list exactly when it is in some tier |
| `PairwiseTable.Competitors` | src/pages/PollDetails/explainers/CopelandExplainer/PairwiseTable.tsx:15-19 | a name is among the flattened competitors exactly when it is the competitor of some win of some candidate |
| `PairwiseTable.DefeatedCandidates` | src/pages/PollDetails/explainers/CopelandExplainer/PairwiseTable.tsx:14-24 | a name is a column exactly when it is a listed candidate that is the competitor of some recorded win; no column repeats |
| `PairwiseTable.DefeatedOrder` | src/pages/PollDetails/explainers/CopelandExplainer/PairwiseTable.tsx:20-22 | columns run in the reverse of the order of first appearance tier by tier, so the weakest comes first |
| `PairwiseTable.NoWinsNoColumns` | src/pages/PollDetails/explainers/CopelandExplainer/PairwiseTable.tsx:15-21 | when no candidate has a win, there are no columns |
| `PairwiseTable.CellFor` | src/pages/PollDetails/explainers/CopelandExplainer/PairwiseTable.tsx:31-35 | a cell is empty exactly when no victory is over the column's candidate; otherwise it holds the votes of the first such victory |
| `PairwiseTable.PairwiseCells` | src/pages/PollDetails/explainers/CopelandExplainer/PairwiseTable.tsx:30-40 | exactly one cell per column, in column order |
| `PairwiseTable.CandidateRow` | src/pages/PollDetails/explainers/CopelandExplainer/PairwiseTable.tsx:42-49 | the row carries the candidate's name and one cell per column, the cell of column `i` being the tally against that column's candidate |
| `PairwiseTable.TierRows` | src/pages/PollDetails/explainers/CopelandExplainer/PairwiseTable.tsx:51-64 | one row per candidate of the tier; only the first row carries rank and score, spanning the tier's size |
| `PairwiseTable.Groups` | src/pages/PollDetails/explainers/CopelandExplainer/PairwiseTable.tsx:51-65 | one body row per candidate across all tiers, in tier order, each with its name and cells |
| `PairwiseTable.GroupsAppend` | src/pages/PollDetails/explainers/CopelandExplainer/PairwiseTable.tsx:61-64 | a later tier's rows follow all earlier rows, its header row first |
| `PairwiseTable.PairwiseTableOf` | src/pages/PollDetails/explainers/CopelandExplainer/PairwiseTable.tsx:66-82 | the columns are the defeated candidates; the body rows are the tier groups over those columns; row `k` belongs to the `k`-th candidate of the flattened tiers and its cell `i` is that candidate's tally against column `i` |
| `UserIdentity.PollIndex` | src/userIdentity.ts:111 | the first entry with the poll id, or -1 exactly when the poll has no entry |
| `UserIdentity.InsertionIndex` | src/userIdentity.ts:78 | the first entry whose id is not smaller than the new id, every earlier one smaller; -1 when all are smaller |
| `UserIdentity.KnownBallotsOf` | src/userIdentity.ts:68-74 | `null` exactly when the poll has no entry; otherwise the first matching entry's ballot ids |
| `UserIdentity.Mutated` | src/userIdentity.ts:109-115 | the first entry for the poll is replaced by the mutator's result and every other entry is unchanged |
| `UserIdentity.AddedKnownPoll` | src/userIdentity.ts:76-92 | the poll is known afterwards, and the entries are the old ones, possibly with one new entry with the given `isMine` and no ballots |
| `UserIdentity.AddedKnownBallot` | src/userIdentity.ts:94-98 | the list keeps its length, and every entry keeps its poll and `isMine` |
| `UserIdentity.RemovedPoll` | src/userIdentity.ts:100-107 | one entry fewer exactly when the poll is known, and no entry that was not there before |
| `UserIdentity.SortedInsertionIndex` | src/userIdentity.ts:78-79 | in a sorted list, the insertion point of a known id is that id's entry |
| `UserIdentity.AddKnownPollKeepsSorted` | src/userIdentity.ts:78-90 | a list strictly ascending by poll id stays so after adding a poll |
| `UserIdentity.AddKnownPollExisting` | src/userIdentity.ts:79-80 | adding a poll that a sorted list already holds changes nothing, so no second entry appears and the ballot ids are kept |
| `UserIdentity.AddKnownPollNew` | src/userIdentity.ts:82-90 | a new poll gets an entry with the given `isMine` and no ballots, before the first id not smaller, or at the end |
| `UserIdentity.AddKnownBallotAppends` | src/userIdentity.ts:94-98 | the poll's ballot ids gain the new id at the end; every other poll's ballot ids are unchanged |
| `UserIdentity.AddKnownBallotKeepsSorted` | src/userIdentity.ts:94-98 | adding a ballot id keeps the list sorted |
| `UserIdentity.RemovePollEffect` | src/userIdentity.ts:100-107 | an absent poll leaves the list as it is; otherwise exactly the first matching entry goes and the rest keep their order |
| `UserIdentity.RemovePollKeepsSorted` | src/userIdentity.ts:100-107 | a sorted list stays sorted and holds no entry for the removed poll |
| `UserIdentity.IdentityStore.constructor` | src/userIdentity.ts:44-54 | a fresh identity has the given key and no known polls |
| `UserIdentity.IdentityStore.GetKey` | src/userIdentity.ts:60-62 | returns the stored key |
| `UserIdentity.IdentityStore.GetKnownPolls` | src/userIdentity.ts:64-66 | returns the stored list |
| `UserIdentity.IdentityStore.GetKnownBallots` | src/userIdentity.ts:68-74 | `null` exactly when the poll is unknown; otherwise the first matching entry's ballot ids |
| `UserIdentity.IdentityStore.MutateKnownPoll` | src/userIdentity.ts:109-115 | the first entry for the poll is replaced by the mutator's result; the key is kept |
| `UserIdentity.IdentityStore.AddKnownPoll` | src/userIdentity.ts:76-92 | the new list is the one `AddedKnownPoll` describes; sortedness is preserved |
| `UserIdentity.IdentityStore.AddKnownBallot` | src/userIdentity.ts:94-98 | the new list is the one `AddedKnownBallot` describes; sortedness is preserved |
| `UserIdentity.IdentityStore.RemovePoll` | src/userIdentity.ts:100-107 | the new list is the one `RemovedPoll` describes; sortedness is preserved |
| `CreatePoll.NewCandidate` | src/pages/CreatePoll/CreatePoll.tsx:30-32 | a new candidate has neither a name nor a description |
| `CreatePoll.NonBlankNames` | src/pages/CreatePoll/CreatePoll.tsx:60-62 | exactly the entries' names that are not all whitespace |
| `CreatePoll.NonBlankIsTrimmedLength` | src/pages/CreatePoll/CreatePoll.tsx:62 | `trim().length > 0` holds exactly when the name is not all whitespace |
| `CreatePoll.ValidationErrors` | src/pages/CreatePoll/CreatePoll.tsx:59-78 | the name error exactly when the trimmed name is empty; the count error exactly when fewer than two names are non-blank and write-ins are off; the duplicate error exactly when two non-blank names are equal; always in the order name, count, duplicates |
| `CreatePoll.ValidationMessages` | src/pages/CreatePoll/CreatePoll.tsx:59-78 | the name message exactly when the trimmed name is empty; the count message exactly when fewer than two names are non-blank and write-ins are off; the duplicate message exactly when two non-blank names are equal; no message twice |
| `CreatePoll.MessagesDistinct` | src/pages/CreatePoll/CreatePoll.tsx:63-77 | the three rules have three different messages |
| `CreatePoll.MessagesOf` | src/pages/CreatePoll/CreatePoll.tsx:63-78 | the texts of rules listed in table order contain a rule's text exactly when the rule is listed, and no text twice |
| `CreatePoll.ValidationFacts` | src/pages/CreatePoll/CreatePoll.tsx:63-77 | filtering the validator's table keeps the failing rules in table order |
| `CreatePoll.SubmittedNames` | src/pages/CreatePoll/CreatePoll.tsx:203-205 | the submitted candidates' names are exactly the names the validator counted, in list order |
| `CreatePoll.SubmittedCandidates` | src/pages/CreatePoll/CreatePoll.tsx:203-205 | a candidate is submitted exactly when it is the candidate of some row and its name is not all whitespace |
| `CreatePoll.ValidSubmission` | src/pages/CreatePoll/CreatePoll.tsx:191-205 | a form without errors has a name and submits candidates with non-blank, distinct names, at least two unless write-ins are on |
| `CreatePoll.DescriptionEdit` | src/pages/CreatePoll/CreatePoll.tsx:236-240 | an empty description becomes `null`; any other is kept |
| `CreatePoll.Applied` | src/pages/CreatePoll/CreatePoll.tsx:244 | the edited field takes the new value and the other field is kept |
| `CreatePoll.ChangedCandidates` | src/pages/CreatePoll/CreatePoll.tsx:242-264 | the edited row keeps its key and no other row changes; the list grows by one fresh blank row with the next key exactly when the edited row was last and had neither name nor description |
| `CreatePoll.ChangeCandidateKeys` | src/pages/CreatePoll/CreatePoll.tsx:254-261 | keys stay distinct and below the counter, which moves on exactly when a row is added |
| `CreatePoll.Deleted` | src/pages/CreatePoll/CreatePoll.tsx:269-273 | the row at the index is removed and the others keep their order; an index past the end changes nothing |
| `CreatePoll.DeleteKeys` | src/pages/CreatePoll/CreatePoll.tsx:269-273 | a deletion keeps the keys distinct and below the counter |
| `CreatePoll.InitialErrors` | src/pages/CreatePoll/CreatePoll.tsx:44-56 | the initial form reports the name error and the count error, and nothing else |
| `CreatePoll.CreatePollForm.constructor` | src/pages/CreatePoll/CreatePoll.tsx:41-57 | the form starts with two blank rows keyed 0 and 1, the counter at 2, and no errors shown |
| `CreatePoll.CreatePollForm.HandleNameChange` | src/pages/CreatePoll/CreatePoll.tsx:169-173 | only the name changes |
| `CreatePoll.CreatePollForm.HandleDescriptionChange` | src/pages/CreatePoll/CreatePoll.tsx:175-179 | only the description changes |
| `CreatePoll.CreatePollForm.HandleWriteInChange` | src/pages/CreatePoll/CreatePoll.tsx:181-186 | only the write-in setting changes |
| `CreatePoll.CreatePollForm.ChangeCandidate` | src/pages/CreatePoll/CreatePoll.tsx:242-267 | the list becomes `ChangedCandidates`, the counter moves on exactly when a row is added, the example offer is withdrawn, and keys stay distinct |
| `CreatePoll.CreatePollForm.HandleCandidateNameChange` | src/pages/CreatePoll/CreatePoll.tsx:230-234 | a name edit of the row |
| `CreatePoll.CreatePollForm.HandleCandidateDescriptionChange` | src/pages/CreatePoll/CreatePoll.tsx:236-240 | a description edit of the row, with an empty description as `null` |
| `CreatePoll.CreatePollForm.HandleDeleteCandidate` | src/pages/CreatePoll/CreatePoll.tsx:269-274 | the list becomes `Deleted(candidates, index)`; keys stay distinct |
| `CreatePoll.CreatePollForm.HandleSubmit` | src/pages/CreatePoll/CreatePoll.tsx:188-212 | with errors, they are shown and nothing is sent or recorded; otherwise the request carries the key, name, description, non-blank candidates and configuration, and the created poll is recorded as the device's own |
| `CreateBallot.CompletedRankings` | src/pages/PollDetails/ballot/CreateBallot.tsx:75-84 | the old ranking is kept as a prefix, every candidate name ends up ranked, and nothing else is added |
| `CreateBallot.CompletionWhenSetsEqual` | src/pages/PollDetails/ballot/CreateBallot.tsx:77 | equal name sets leave the ranking unchanged |
| `CreateBallot.CompletionAppendsUnranked` | src/pages/PollDetails/ballot/CreateBallot.tsx:78-79 | the names appended are exactly the candidate names not yet ranked, in candidate-list order |
| `CreateBallot.CompletionKeepsDistinct` | src/pages/PollDetails/ballot/CreateBallot.tsx:78-79 | with no repeats in ranking and candidate names, the completed ranking has none |
| `CreateBallot.CompletionIdempotent` | src/pages/PollDetails/ballot/CreateBallot.tsx:75-84 | completing a completed ranking gives the same ranking |
| `CreateBallot.CompletionSettles` | src/pages/PollDetails/ballot/CreateBallot.tsx:75-84 | after completion the ranked names are exactly the candidate names if and only if every ranked name was a candidate, so only then does the next update leave the state alone |
| `CreateBallot.CreateBallotForm.constructor` | src/pages/PollDetails/ballot/CreateBallot.tsx:29-35 | the draft has no voter name and ranks a permutation of the candidate names; the form is not busy |
| `CreateBallot.CreateBallotForm.ComponentDidUpdate` | src/pages/PollDetails/ballot/CreateBallot.tsx:75-84 | only the ballot's rankings change, to the completed ranking; the state is set exactly when the ranked names and the candidate names differ as sets |
| `CreateBallot.CreateBallotForm.OnUpdateCandidates` | src/pages/PollDetails/ballot/CreateBallot.tsx:86-91 | the rankings become the given candidates' names in order; id, name and timestamp are kept |
| `CreateBallot.CreateBallotForm.OnUpdateVoterName` | src/pages/PollDetails/ballot/CreateBallot.tsx:93-97 | only the ballot's name changes |
| `CreateBallot.CreateBallotForm.HandleSubmit` | src/pages/PollDetails/ballot/CreateBallot.tsx:99-112 | the form turns busy; the request carries the ballot key, poll id and the ballot's id, name and rankings; the ballot handed on is the draft |
| `ListPolls.SortByExpires` | src/pages/ListPolls/ListPolls.tsx:28-29 | the sorted list is a permutation in ascending expiry order |
| `ListPolls.NewestFirstOrder` | src/pages/ListPolls/ListPolls.tsx:28-30 | a permutation of the known polls, newest expiry first |
| `ListPolls.MountedListsFacts` | src/pages/ListPolls/ListPolls.tsx:26-38 | both lists run newest expiry first; `myPolls` holds exactly the entries marked mine and `seenPolls` exactly the others; together they are a permutation of the known polls |
| `ListPolls.RemoveFirst` | src/pages/ListPolls/ListPolls.tsx:42-48 | the first occurrence of the entry is removed and the rest keep their order; a list without it is unchanged |
| `ListPolls.RemoveFirstKeepsOrder` | src/pages/ListPolls/ListPolls.tsx:42-48 | a removal keeps a list newest first and adds no entry |
| `ListPolls.ShowsNilExplanation` | src/pages/ListPolls/ListPolls.tsx:70-83 | the empty-state message shows exactly when both lists are empty |
| `ListPolls.PollsSublist` | src/pages/ListPolls/ListPolls.tsx:52-68 | nothing exactly when the subset is empty; otherwise the heading and the subset's polls |
| `ListPolls.Render` | src/pages/ListPolls/ListPolls.tsx:52-95 | the own-polls sublist exactly when `myPolls` is not empty, with its heading and polls; likewise the seen-polls sublist; the empty-state message exactly when neither sublist shows |
| `ListPolls.PollListView.constructor` | src/pages/ListPolls/ListPolls.tsx:18-24 | both lists start empty |
| `ListPolls.PollListView.ComponentDidMount` | src/pages/ListPolls/ListPolls.tsx:26-38 | the lists become the mine and seen parts of the known polls, newest expiry first |
| `ListPolls.PollListView.HandleRemove` | src/pages/ListPolls/ListPolls.tsx:40-50 | the poll is forgotten by the identity and its entry is removed from both lists |
| `PollDetailsView.KnownIds` | src/pages/PollDetails/PollDetailsView.tsx:41 | no recorded ballot ids read as the empty list |
| `PollDetailsView.OwnedBallots` | src/pages/PollDetails/PollDetailsView.tsx:40-43 | exactly the ballots whose id is recorded for the poll |
| `PollDetailsView.UnownedBallots` | src/pages/PollDetails/PollDetailsView.tsx:45-48 | exactly the ballots whose id is not recorded for the poll |
| `PollDetailsView.BallotsPartition` | src/pages/PollDetails/PollDetailsView.tsx:40-48 | the two lists are disjoint and together are the ballots, each as often as it occurs |
| `PollDetailsView.BallotsKeepOrder` | src/pages/PollDetails/PollDetailsView.tsx:40-48 | each list keeps the ballots' original order |
| `PollDetailsView.NoKnownBallotsAllUnowned` | src/pages/PollDetails/PollDetailsView.tsx:40-48 | with no recorded ids, no ballot is owned and every ballot is unowned |
| `PollDetailsView.ShouldShowCandidateDetails` | src/pages/PollDetails/PollDetailsView.tsx:200-202 | true exactly when some candidate has a truthy description |
| `PollDetailsView.OwnedBallotSection` | src/pages/PollDetails/PollDetailsView.tsx:50-79 | the write-in tip exactly when the poll has no candidate; the device's ballots exactly when it has candidates and own ballots; a ballot form otherwise |
| `PollDetailsView.UnownedBallotsSection` | src/pages/PollDetails/PollDetailsView.tsx:81-102 | absent exactly when the poll has no candidate; the note that nobody else voted exactly when there are candidates and no other ballot; otherwise the other ballots |
| `PollDetailsView.RedundantBallotSection` | src/pages/PollDetails/PollDetailsView.tsx:104-130 | absent exactly when there is no own ballot; the invitation while the flag is off; the form once it is on |
| `PollDetailsView.Render` | src/pages/PollDetails/PollDetailsView.tsx:150-185 | every section rule: the description when truthy; the explainer exactly when there are ballots; the candidate details exactly when some description is truthy; the tip exactly when there is no candidate, and then no other-ballots section; own ballots listed exactly when one exists; the write-in form exactly when write-ins are on; the second-ballot section absent without an own ballot, and open only when the flag is set |
| `PollDetailsView.SubmittedBallotBecomesOwned` | src/pages/PollDetails/PollDetailsView.tsx:187-194 | once its id is recorded, a submitted ballot is owned, and every previously owned ballot stays owned |
| `PollDetailsView.PollDetailsPage.constructor` | src/pages/PollDetails/PollDetailsView.tsx:32-38 | the second ballot form starts collapsed |
| `PollDetailsView.PollDetailsPage.HandleEnableRedundantBallot` | src/pages/PollDetails/PollDetailsView.tsx:146-148 | the flag is set |
| `PollDetailsView.PollDetailsPage.HandleSubmitNewBallot` | src/pages/PollDetails/PollDetailsView.tsx:187-194 | the ballot id is recorded for the poll, the ballot is handed on, and the flag is reset |

## Left out

- The Copeland tabulation (scoring, tiering and pairwise tallies) is not part of this model. `src/util/copeland` is not part of this model either. Its output is taken as input values of the types in `Copeland`.
- Local storage, JSON parsing and serialisation, and the write-back after each identity operation are replaced by the fields of `IdentityStore`. A missing or unparsable stored identity is not modelled.
- The random identity key, the random ballot id, the shuffle of `makeNewBallot` and `Date.now()` become constructor parameters. The shuffle is required to be a permutation of the candidate names.
- Network calls (`createPoll`, `postBallot`), the minimum wait of `promiseTimeout` and the `await`s are left out. A submission's results are the request it would send. The poll the server answers with is a parameter.
- The parent callbacks (`onCreatePoll`, `onSubmitBallot`, `onSubmitNewBallot`, `onSubmitNewCandidate`, `onUpdateBallot`) are outside this model. Where the page hands a ballot on, the ballot is returned.
- `localeCompare` on expiry strings is an abstract total preorder `le`, passed as a parameter. Its locale-specific order is not modelled.
- `Array.prototype.sort` is a library routine and not part of the source. It is modelled on values by an insertion sort. Like the sort of ES2019 it is stable, but `ListPolls.SortByExpires` states only a permutation in ascending order, not the order among polls with equal expiry. The model does not capture the in-place update of the array.
- `ListPolls.PollListView.HandleRemove` finds the entry by value equality. The source's `indexOf` uses object identity.
- `UserIdentity.IdentityStore.AddKnownPoll`: in the existing-poll branch, `Object.assign(p, poll)` copies the poll's own fields onto the entry object beside `poll`, `isMine` and `knownBallots`. The model has only the typed fields, so that branch changes nothing in it.
- `UserIdentity.IdentityStore.MutateKnownPoll` and `UserIdentity.IdentityStore.AddKnownBallot` require the poll to be known. On an absent poll the source's mutator fails on `undefined`.
- `CreatePoll.CreatePollForm.ChangeCandidate` requires its index to be in range. The source reads `candidates[index]` and fails otherwise.
- `CreatePoll.ValidationErrors` returns the broken rules; `CreatePoll.ValidationMessages` maps them to the texts the source returns.
- `PairwiseTable.TierRows`, `PairwiseTable.Groups`, `PairwiseTable.GroupsAppend` and `PairwiseTable.PairwiseTableOf` require every tier to hold a candidate. On an empty tier the source fails on `stage.candidates[0].candidate` (PairwiseTable.tsx:59).
- `CreateBallot.CreateBallotForm.ComponentDidUpdate` models one call. React calls it again after each `setState`, and that repetition is not modelled. When the ranking holds a name that is no longer a candidate, the source calls `setState` on every update without end; `CreateBallot.CompletionSettles` shows when this happens.
- `mapByField` and `shallowSetEquals` are taken as map-by-name and set equality.
- Strings are sequences of Unicode scalar values. JavaScript compares strings by UTF-16 code units, and the two orders differ for characters outside the Basic Multilingual Plane.
- The `votes:competitorVotes` text of a cell is kept as the pair of numbers.
- The date formatting of `expiresSection`, the `isClosed` flag passed to the explainer, and all JSX and react-bootstrap rendering are left out. React context wiring, `FadeToggle`, `ExampleCreator` and `src/pages/About/About.tsx` (static content) are left out too.
