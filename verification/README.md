# Verified models of the disclosure query planner

This project models the deterministic middle of the disclosure question agent: the clarification session
store and coordinator, the provider schema compiler, the assembly of a query plan from separately resolved
tasks, the compiled answer contract, the evaluation gateway, the event role index, the transport retry loop
and the display of won amounts. `dafny verify dfyconfig.toml` checks everything.

Each component is stated as what one operation does, and then as what holds of every run, every input or
every interleaving.

- **Sessions** (`SessionModel`, `SessionStore`, `SessionRetention`, `SessionReplies`, `SessionCoordinator`,
  `SessionAnswers`, `SessionProtocol`, `SessionHistory`, `SessionCalls`). The store is a class over an ordered
  list of rows and a tombstone set. Its methods are proved against a step relation. Runs of that relation are
  shown to keep exactly the sessions that time and capacity allow. Concurrent answers are interleavings of its
  atomic steps, each coordinator call is a stretch of such steps, and no accepted answer is ever lost.
- **Schemas** (`Json`, `SchemaLowering`, `SchemaPointers`, `PointerNames`, `SchemaSemantics`,
  `SchemaPreservation`, `SchemaNormalForm`, `SchemaSuccess`). Source and lowered schemas have an acceptance
  semantics, following sections 8.2.3.1 of JSON Schema Core 2020-12 and 6.1 to 6.5 of JSON Schema Validation
  2020-12. References into the definition table are resolved as JSON Pointers (RFC 6901, sections 3 to 6),
  independently of how the compiler looks names up. Lowering is compared with that semantics.
- **Plans** (`Contracts`, `PlanValidity`, `PlanRules`, `Proposal`, `ProposalMeaning`, `PlanPaths`,
  `PlanPatches`, `PlanAssembly`, `PlanMeaning`, `PlanFacts`, `PlanIdentity`, `PlanReady`, `PlanPieces`).
  Clarification answers are written through their paths into a proposal, which is then validated again. A
  proposal and the plan assembled from it are both evaluated, for any fetched values and any operators, and
  give every label the same value.
- **Answer contracts** (`AnswerContract`, `ContractBuild`, `ContractMeaning`). The layered validators accept
  exactly a declarative set of items and contracts, and the builder yields exactly the contracts all of them
  accept.
- **Gateway** (`Gateway`, `GatewayReplies`). Callers, workers and the closing thread take atomic steps on
  permits and futures.
- **Events** (`Ordering`, `EventIndex`, `EventMeaning`, `EventCache`, `CacheMeaning`, `EventResolution`,
  `EventAnswers`). Building, persisting, reading back and resolving against a set specification.
- **Payload snapshots** (`PayloadShape`, `PayloadMeaning`). A two-run property, that texts cannot influence a
  snapshot, and what a snapshot tells, place by place.
- **Arithmetic** (`RetryLoop`, `DisplayUnits`, `DisplayMeaning`, `Decimals`).

The modules named after what they say of another (`SessionAnswers`, `SchemaSuccess`, `PlanPieces`,
`ContractMeaning`, `EventAnswers`, `PayloadMeaning` and the like) state, on the fields of the inputs alone and
in both directions, when an operation succeeds and what it gives.

Where a promise does not hold of the code, the condition under which it does is proved instead, with an
input that breaks it:

- Lowering can lose values: a definition that is the boolean schema `true` turns a literal reference object
  inside `enum` into a boolean (`AcceptanceCanBeLost`). Where references mean to the standard what they mean
  to the compiler, it never does when every definition that can be referenced is an object, and only then
  (`PreservationCondition`).
- The compiler looks the name in a reference up as it is spelled. The standard unescapes it first, so beside a
  definition `a/b` the reference `#/$defs/a~1b` loses values (`SlashNameLosesValue`). The definition names
  under which no table of object definitions loses any are exactly those where no reference to one name is a
  reference into another entry (`NamesCondition`).
- Re-lowering can fail near the depth limit (`ConstNearTheLimit`). It succeeds exactly when the depth guard
  stays silent on the lowered schema (`LoweringTwice`).
- Two path spellings with leading zeros denote one slot (`LeadingZerosAlias`). Two paths denote one slot
  exactly when they are equal once leading zeros are stripped (`AliasesExactly`), and the paths without
  leading zeros are exactly the printed ones (`CanonicalPathsArePrinted`).
- A batch of allowlisted paths can still be refused, as the patched proposal is validated again
  (`BatchCanBeRefused`). It succeeds exactly when that proposal is valid (`AppliedExactly`).
- Free permits, permits held before submission and unfinished futures do not add up between the completion
  of a future and its callback (`WindowIsReachable`). They do exactly when no finished future still owes its
  callback (`UndoneFuturesCount`). Counting callbacks instead, the sum always holds (`SlotsAreConserved`).
- Amounts of more than 28 digits are rounded twice (`RoundedTwice`). The result is the half-up rounding
  exactly when dropping digits did not carry the amount over a midpoint (`ShownIsHalfUpExactlyWhen`).
- The comment above the retry constants says no more than four retries happen in practice. Hints of one
  second make eight (`EightRetries`). For every provider a fifth retry happens exactly when the first four
  failures ask for positive delays of less than the budget together, the fifth failure for a positive one
  and time is left after it (`FifthRetryExactlyWhen`). Without hints it never does
  (`FourRetriesWithoutHints`).
- Taking the snapshot of a payload raises, exactly when one of its first 32 requested outputs has a list or an
  object for its kind (`RaisesExactly`, with `ListKindRaises` for an input). Other payloads it cannot describe
  give no snapshot instead.

Every lemma switches Dafny's automatic induction off; all inductions are written out.

Assumptions made of what lies outside: session ids are fresh when a session opens; timestamps are time-zone
aware; the two clocks are parameters, and the monotone one never goes back; a copied state is a value; the
proposal adapter, the single-task delegate, the operators, the canonical reader, the normalisation of names,
the digests and the case folding are arbitrary functions, the digests injective where stated; printing and
parsing JSON are inverse, so files and payloads are JSON values; numbers are mathematical (`-0.0`, infinities
and NaN are no JSON numbers here), and times are reals; a plan's dates are written as numbers YYYYMMDD.

## Model

| member | source | states |
|---|---|---|
| SessionStore.Store.CollectDead | agent/session.py:312-316 | the ids gathered for a purge are exactly those of rows not younger than the time to live |
| SessionStore.Store.TrimTombstones | agent/session.py:320-321 | tombstones are kept whole up to four times the capacity, and cut to exactly that many above it |
| SessionStore.Store.Purge | agent/session.py:312-321 | every dead row becomes a tombstone, the living keep their order, and the tombstone bound is restored |
| SessionStore.Store.EvictOldest | agent/session.py:335-337 | only the least recently touched rows leave, just as many as needed, and all of them become tombstones |
| SessionStore.Store.Insert | agent/session.py:334-342 | the new row is the most recent, its id is no tombstone, and the id set stays duplicate-free within capacity |
| SessionStore.Store.Put | agent/session.py:323-342 | one purge and then the effect of a put, refused when origin or revision conflict with the resident row |
| SessionStore.Store.Get | agent/session.py:344-356 | one purge and then a touch, or a miss that tells expired from unknown |
| SessionStore.Store.CompareAndPut | agent/session.py:358-388 | one purge and then a replacement only if revision and clarification are the expected ones |
| SessionRetention.ResidentExactly | agent/session.py:292-388 | over any run with a monotone clock, resident if and only if the last touch is younger than the time to live and fewer than the capacity of distinct sessions were touched since |
| SessionRetention.RunShape | agent/session.py:312-388 | over any run rows are unique, in last-seen order, within capacity, dead rows form a prefix, tombstones are disjoint from rows and at most four times the capacity plus one |
| SessionRetention.RunExact | agent/session.py:312-388 | the invariant that ties rows and tombstones to the list of touches after every operation |
| SessionReplies.RepliesExactly | agent/session.py:312-388 | over every run with a monotone clock, what each operation answers: a session touched within the time to live, with fewer than the capacity of distinct sessions since, is found with the last state stored for it, a forgotten one is told from an unknown one, and a conflicting revision, clarification or origin is refused as such |
| SessionCoordinator.PendingIsSafe | agent/session.py:391-421 | a pending clarification has one slot with its own id per requested path, in order, each an allowlisted path |
| SessionCoordinator.BatchIsTotal | agent/session.py:604-614 | a batch exists if and only if every value is acceptable, and binds exactly the pending paths |
| SessionCoordinator.BatchIsExact | agent/session.py:608-614 | with distinct paths every value stays on the slot it was submitted for |
| SessionCoordinator.StateIsStamped | agent/session.py:539-570 | a state built from a validation meets its record contract and carries the current revision in its question or plan |
| SessionCoordinator.PreparedIsNext | agent/session.py:588-633 | a prepared answer applies its batch to the snapshot, advances the revision by one, adds one record and keeps origin and history |
| SessionAnswers.RefusedBeforeValues | agent/session.py:588-607 | an answer that names another clarification or revision than the waiting one is stale, then one after three turns exceeds the limit, then one that does not answer exactly the slots is rejected, in this order |
| SessionAnswers.TakesAcceptable | agent/session.py:608-614 | a slot takes any value that is not empty, not only white space and, where values are offered, equals one of them |
| SessionAnswers.PendingExactly | agent/session.py:391-421 | a request becomes a pending question if and only if every path of it is allowlisted, at least one and none twice, and then with one slot per path, in order, offering what was offered for it |
| SessionAnswers.OpeningExactly | agent/session.py:539-586 | exactly which verdicts open a session, and what the opened session shows of them at revision 0 |
| SessionAnswers.PreparedExactly | agent/session.py:588-633 | an answer is prepared if and only if it names the current clarification and revision, turns are left, it fills exactly the slots with acceptable values, the batch applies and the result has a verdict, and what is prepared shows all of this field by field |
| SessionCoordinator.Coordinator.Open | agent/session.py:572-586 | opening is the put of a valid opening state and a read, or touches nothing |
| SessionCoordinator.Coordinator.CollectValues | agent/session.py:608-614 | the loop over slots yields the batch by path, failing at the first unacceptable value |
| SessionCoordinator.Coordinator.Answer | agent/session.py:588-636 | an answer is a read, a preparation, a compare-and-put and a read on the store, in that order |
| SessionProtocol.NoLostUpdate | agent/session.py:588-636 | under every interleaving a stored proposal is the fold of exactly the accepted batches over the opening proposal, revision and history count them, at most three, and the origin never changes |
| SessionHistory.AcceptedAnswers | agent/session.py:588-636 | under every interleaving, the answer of an accepted commit named the clarification and the revision of the row it overwrote, was begun from that state, and what was stored follows from that row and that answer |
| SessionHistory.RefusedAnswers | agent/session.py:588-633 | under every interleaving, an answer goes on to a commit exactly when what is committed follows from it and from the state its call read; any other changes nothing and is refused as stale, over the limit or rejected by the first condition that fails |
| SessionHistory.RefusedCommits | agent/session.py:358-388 | under every interleaving, a commit to a living session is accepted if and only if that still waits for the clarification at the revision its call read, and is stale otherwise |
| SessionProtocol.AcceptedCommit | agent/session.py:358-388 | what a commit overwrites is a waiting session with the proposal and revision its answer was computed from |
| SessionProtocol.CommittedAtMostOnce | agent/session.py:358-388 | two accepted commits of one session never carry the same revision |
| SessionProtocol.OnlyStoresChangeSessions | agent/session.py:588-636 | a failing apply, resolve, validation or commit, and every read, changes access times only |
| SessionProtocol.SettledForever | agent/session.py:591-593 | ready and terminal sessions are absorbing, and vanished ones never come back |
| SessionCalls.AnswerIsEvents | agent/session.py:588-636 | any answer call, among any other calls in flight, continues an execution by its own events in order: begin, compute, commit and at most one look |
| SessionCalls.OpenIsEvents | agent/session.py:572-586 | so does opening under a new identifier: nothing, or a put and at most one look |
| SchemaLowering.LowerNode | agent/hcx_schema.py:684-790 | the recursive walk with its dictionaries computes the lowering function, failures included |
| SchemaLowering.LowerKeyword | agent/hcx_schema.py:706-728 | one keyword is skipped, kept or rewritten as the lowering function says |
| SchemaSuccess.IgnoredMakeNoDifference | agent/hcx_schema.py:36-39 | adding or removing any of the eight annotations, local definitions or a closed-object mark at a node without a reference changes neither whether it lowers nor to what |
| SchemaSuccess.LowersExactly | agent/hcx_schema.py:684-790 | a schema lowers if and only if it is at most twelve levels deep with its references unfolded, every reference leads to a definition and none to itself, only the listed keywords occur, and type, required, properties, array bounds, const and enum, as written, meet every check |
| SchemaPreservation.LoweringIsExact | agent/hcx_schema.py:684-790 | for object definitions the lowered schema accepts exactly the values of the relaxed reading of its source, references unfolded |
| SchemaPreservation.StrictIsRelaxed | agent/hcx_schema.py:684-790 | among values with small arrays, and wherever both readings of a reference lead to one schema, the relaxed reading accepts whatever the standard's reading accepts |
| SchemaPreservation.LoweringPreservesAcceptance | agent/hcx_schema.py:684-790 | for object definitions whose references agree with the standard's, a lowered schema accepts every value with arrays of at most 50 elements that its source accepts |
| SchemaPreservation.BooleanDefinitionLosesValue | agent/hcx_schema.py:698-703 | any boolean definition loses the reference object listed in an enum |
| SchemaPreservation.AcceptanceCanBeLost | agent/hcx_schema.py:698-703 | a concrete definition table for which acceptance is not preserved |
| SchemaPreservation.PreservationCondition | agent/hcx_schema.py:684-790 | preservation for all schemas and values needs every definition that can be referenced to be an object, and that is enough where references agree with the standard's |
| SchemaPreservation.NamesCondition | agent/hcx_schema.py:670-681 | every table of object definitions under given names preserves acceptance if and only if no reference to one of the names is by the standard one into another entry |
| SchemaPreservation.EscapedNameLosesValue | agent/hcx_schema.py:670-681 | any name that is an escaped spelling leading into another entry loses a value under some table |
| SchemaPreservation.SlashNameLosesValue | agent/hcx_schema.py:670-681 | such names: `a~1b` beside `a/b` |
| PointerNames.EveryNameHasAReference | agent/hcx_schema.py:670-681 | whatever a definition is called, escaped and percent-coded in UTF-8 it is a reference that by the standards is to that definition |
| SchemaNormalForm.LowerIsNormal | agent/hcx_schema.py:684-790 | whatever lowering returns is in normal form at every depth |
| SchemaNormalForm.NormalNode | agent/hcx_schema.py:730-790 | in normal form no reference, definition, const or annotation is left, required names are distinct properties, arrays have 0 <= minItems <= maxItems <= 50 |
| SchemaNormalForm.PropertyNamesSurvive | agent/hcx_schema.py:720-727 | every property survives in order, also one named like an annotation |
| SchemaNormalForm.RelowerExactly | agent/hcx_schema.py:684-790 | lowering a normal form returns it unchanged, or fails, exactly by whether it fits the depth limit |
| SchemaNormalForm.LoweringTwice | agent/hcx_schema.py:684-790 | re-lowering a result gives it back exactly when the depth guard stays silent |
| SchemaNormalForm.ConstNearTheLimit | agent/hcx_schema.py:688-717 | a const at any depth lowers once, and a second time only if two more levels fit |
| PlanValidity.NamespacesOverlap | agent/contracts.py:644-658 | the half-visited loop over names finds an overlap of some pair in name order if there is one |
| PlanValidity.PairwiseDisjoint | agent/contracts.py:644-658 | that half of the pairs is enough for all of them |
| PlanValidity.NamespacesDisjoint | agent/contracts.py:644-658 | the loop accepts exactly three pairwise disjoint name spaces |
| PlanValidity.CollectOutputs | agent/contracts.py:562-624 | outputs are collected in task order unless some task looks past its limit |
| PlanValidity.LinkDerivations | agent/contracts.py:622-631 | the growing set of known ids accepts exactly derivations with new ids and known operands |
| PlanValidity.LinkPremises | agent/contracts.py:632-643 | premises are accepted exactly when they refer to known outputs and existing tasks |
| PlanValidity.ValidatePlan | agent/contracts.py:550-658 | the validator accepts exactly the well-formed plans |
| PlanRules.PlanExactly | agent/contracts.py:550-658 | well-formed are exactly the plans whose tasks look at nothing after the cutoff, whose outputs are offered once, whose derivations and premises use only what is defined before, and where no name is of two sorts, written out on the records of each kind |
| PlanValidity.EvaluationIsTotal | agent/contracts.py:622-631 | an accepted plan evaluates in list order without an undefined operand, defines exactly its known ids and overwrites none |
| PlanValidity.DependenciesDescend | agent/contracts.py:622-631 | dependencies are acyclic, with list position as rank |
| PlanValidity.DefinedOnce | agent/contracts.py:620-631 | no id has two definitions |
| PlanValidity.EveryIdIsGrounded | agent/contracts.py:622-631 | every derived id bottoms out in task outputs |
| Proposal.ValidateProposal | agent/query_plan.py:168-198 | the validator with its growing label set accepts exactly the proposals whose labels are unique and defined before use |
| Proposal.ValidateStrict | agent/query_plan.py:67-198 | the whole strict validation, record rules and label rules, accepts exactly the strict proposals |
| ProposalMeaning.StrictExactly | agent/query_plan.py:67-198 | strict are exactly the proposals with work if processed and typed reasons if not, all records within their bounds and vocabularies, and every label introduced once and before its use |
| PlanPaths.PrintParses | agent/query_plan.py:314-334 | every patchable slot prints to a path that parses back to it |
| PlanPaths.RebasedFactParses | agent/query_plan.py:395-429 | a fact path of the one-task proposal rebased to task i and fact j denotes the same field of exactly that fact |
| PlanPaths.RebasedTaskParses | agent/query_plan.py:395-429 | a task path rebased to task i denotes the same field of exactly that task |
| PlanPaths.RebaseKeepsSidecar | agent/query_plan.py:405-414 | paths outside the proposal are unchanged |
| PlanPaths.AliasesExactly | agent/query_plan.py:264-334 | two paths denote one slot if and only if they differ at most in leading zeros of numerals |
| PlanPaths.CanonicalPathsArePrinted | agent/query_plan.py:264-334 | a patchable path is the printed path of its slot if and only if no numeral has a leading zero |
| PlanPaths.SlotsAreSpelled | agent/query_plan.py:243-334 | the patchable fields, by name, and the path to each |
| PlanPaths.PathsExactly | agent/query_plan.py:264-334 | a text is a path to a slot if and only if the slot exists and the text is its spelling up to leading zeros |
| PlanPatches.Apply | agent/query_plan.py:340-365 | the loop writes into the dumped tasks and facts, refuses at the first path that is not patchable, and validates the result strictly |
| PlanPatches.CoercedHolds | agent/query_plan.py:350-358 | a single value for a list field is held as a list of one, a numeric period as its digits, and everything else as it is |
| PlanPatches.AppliedExactly | agent/query_plan.py:340-365 | any batch of known paths succeeds if and only if some valid proposal is the old one but for its slots and holds in each what was last written there, and that is the result |
| PlanPatches.PrintedBatchIsExact | agent/query_plan.py:340-365 | a batch of canonical paths to different slots gives a proposal if and only if that is valid and differs in exactly those slots, each holding its own value |
| PlanPatches.OrderDoesNotMatter | agent/query_plan.py:345-359 | batches that leave the same last value in every slot give the same result or are both refused |
| PlanPatches.CanonicalOrderDoesNotMatter | agent/query_plan.py:345-359 | a batch of canonical paths to different slots gives one result in any order |
| PlanPatches.BatchCanBeRefused | agent/query_plan.py:360-365 | any value but the listed document groups is refused for that slot, allowlisted though its path is |
| PlanPatches.LeadingZerosAlias | agent/query_plan.py:264-266 | after two spellings of one slot only the later value counts, and the first is never validated |
| PlanAssembly.ResolveFinancial | agent/query_plan.py:545-613 | the loop over facts with its grouping dictionary is one step of the assembly |
| PlanAssembly.ResolveTasks | agent/query_plan.py:534-654 | the loop over tasks is the iteration of that step, stopping at the first refusal |
| PlanReady.AcceptExactly | agent/query_plan.py:518-532 | one verdict is taken in if and only if it has a task and its dates agree; otherwise it is the answer, or an exception |
| PlanReady.FactStepExactly | agent/query_plan.py:562-597 | a fact is taken in exactly when its verdict is one financial task that states the proposed concept, and then under its own label, output and concept; otherwise it is said which of the two is wrong |
| PlanReady.TasksExactly | agent/query_plan.py:534-654 | the tasks of a proposal are assembled if and only if each has a fitting verdict and all agree on the dates; then labels, outputs, ids, dates and defaults are those of the verdicts, task by task |
| PlanAssembly.ResolveDerivations | agent/query_plan.py:656-704 | the loop over derivations is the iteration of its step over growing labels |
| PlanPieces.DerivationExactly | agent/query_plan.py:656-704 | a derivation resolves if and only if its operands are known, additive where summed and fit its operator; it keeps the proposed label, operator and operands in order, and a rounding rule exactly when one other than unspecified was proposed |
| PlanAssembly.ResolvePremises | agent/query_plan.py:706-749 | the loop over premises is the iteration of its step |
| PlanPieces.PremiseExactly | agent/query_plan.py:706-749 | a premise resolves if and only if its labels have outputs, its indices tasks, it has any reference and none twice, and the claim shows the proposed kind, wording and references in order |
| PlanPieces.PremiseRefused | agent/query_plan.py:709-742 | what is said of a label without output, then of an index without task, then of a premise without references |
| PlanAssembly.ResolveWithContext | agent/query_plan.py:460-774 | the whole resolution gives the specified outcome for every request |
| PlanAssembly.ResolveProposal | agent/query_plan.py:460-774 | the entry point asks the delegate about each fact and task alone and assembles its answers |
| PlanPieces.PrecheckExactly | agent/query_plan.py:467-509 | exactly when the checks before resolution pass, and what the first failing one says |
| PlanPieces.FactIsAskedAlone | agent/query_plan.py:551-563 | a fact is asked about in a proposal of its own without context, and told of its task and place |
| PlanPieces.TaskIsAskedAlone | agent/query_plan.py:534-629 | any other task is asked about in a proposal of its own with its target periods, with the chosen company or receipt exactly when they can only be meant for it |
| PlanPieces.ReadyExactly | agent/query_plan.py:460-774 | a proposal resolves to a plan if and only if every part of it resolves and the plan made of the parts is well formed, and then to that plan |
| PlanPieces.ReadyPlansShow | agent/query_plan.py:656-774 | derivation k of a ready plan has the label, operator, operands and rounding of proposed derivation k, premise k those of proposed premise k, and dates and defaults are those of the verdicts |
| PlanMeaning.FactsArePartitioned | agent/query_plan.py:592-607 | regrouping keeps every resolved fact exactly once, in order, under its own date and view |
| PlanFacts.EveryFactOnce | agent/query_plan.py:534-774 | a ready plan holds every fact the delegate resolved for any task exactly as often as it was resolved, under its own date and view, and no other |
| PlanMeaning.ResolveIsAllOrNothing | agent/query_plan.py:460-774 | a ready answer was built from every task, derivation and premise; any other is an exception, a typed refusal or one unready verdict, never part of a plan |
| PlanMeaning.PlanMeansProposal | agent/query_plan.py:534-774 | for any fetched values and operators, evaluating the plan gives every proposal label the value the proposal gives it |
| PlanMeaning.PremisesMeanTheirLabels | agent/query_plan.py:706-749 | each premise refers to outputs worth its labels' values, in order |
| PlanIdentity.IdTellsEverything | agent/query_plan.py:599-606 | a generated id determines its kind, its proposal index and its group |
| PlanIdentity.IdsAreSpelled | agent/query_plan.py:599-654 | ids are the kind, the position from one, and the group when there are several |
| PlanIdentity.BelongsToWriter | agent/query_plan.py:608-612 | the prefix test never takes an id for one of another index, whatever the digits |
| PlanIdentity.PrefixScanIsExact | agent/query_plan.py:608-612 | the scan over all tasks so far finds exactly the tasks of this proposal index, in order |
| PlanIdentity.IdsAreFiled | agent/query_plan.py:534-654 | generated task ids are pairwise distinct and filed under the index they come from |
| PlanIdentity.PremiseNamesItsTasks | agent/query_plan.py:717-733 | a premise of a ready plan names exactly the plan tasks of the proposal indices it lists |
| AnswerContract.ValidateItem | agent/compiled_answer_contract_v1.py:400-505 | accepts exactly the declared items; the overlap check and the checks on missing or stray limitations never fire |
| AnswerContract.OverlapIsQualified | agent/compiled_answer_contract_v1.py:425-427 | fields covered both ways are exactly the qualified ones |
| AnswerContract.WalksAgree | agent/compiled_answer_contract_v1.py:453-493 | walking the fields and walking the limitations amount to one symmetric relation between live names |
| AnswerContract.LimitationsWhereNeeded | agent/compiled_answer_contract_v1.py:501-504 | limitations are present exactly when some field needs one |
| AnswerContract.NothingIsDropped | agent/compiled_answer_contract_v1.py:400-505 | every field of an accepted item has a root or a limitation and is in the coverage lists that say so |
| ContractMeaning.ItemSaysItsFields | agent/compiled_answer_contract_v1.py:400-505 | an accepted item is ready exactly when all its fields are executable and unavailable exactly when all are limited, and each coverage list holds exactly the ids of the fields it is for |
| ContractMeaning.ItemExactly | agent/compiled_answer_contract_v1.py:288-505 | both validators of an item accept it if and only if records, status, coverage and the references between fields, supports and limitations are as written out on its fields |
| ContractBuild.CheckGroups | agent/compiled_answer_contract_v1.py:648-659 | the loop over positions accepts exactly disjoint, order-preserving selections of the items |
| ContractBuild.InOrderIsFiltered | agent/compiled_answer_contract_v1.py:657-659 | increasing positions mean the group is the item list filtered by membership |
| ContractBuild.CheckPremise | agent/compiled_answer_contract_v1.py:531-555 | accepts exactly premises with unique, disjoint and present references |
| ContractBuild.CheckNamespaces | agent/compiled_answer_contract_v1.py:618-646 | projection, support and limitation ids are unique over all items and pairwise disjoint |
| ContractBuild.ValidateContract | agent/compiled_answer_contract_v1.py:609-683 | strict validation, also behind the digest verification, accepts exactly the declared contracts with their own digest |
| ContractMeaning.CompletionSaysTheFields | agent/compiled_answer_contract_v1.py:664-679 | an accepted contract is complete if and only if each field of each item is executable, and partial if and only if some field is qualified or limited |
| ContractMeaning.ContractExactly | agent/compiled_answer_contract_v1.py:609-683 | valid are exactly the contracts with a body as written out, under its own digest |
| ContractBuild.ChangesAreDetected | agent/compiled_answer_contract_v1.py:1069-1085 | under an injective digest no changed body is valid with the old digest |
| ContractBuild.ValidateBindings | agent/compiled_answer_contract_v1.py:694-758 | accepts exactly when the authorities are clean and every single reference is live |
| ContractBuild.ValidateSourceIntent | agent/compiled_answer_contract_v1.py:761-822 | accepts exactly contracts that answer the intent item by item, group by group, premise by premise |
| ContractBuild.LookupAgreesWithOrder | agent/compiled_answer_contract_v1.py:890-920 | looking an item up by id and counting along give the same source item and position |
| ContractBuild.CheckProofs | agent/compiled_answer_contract_v1.py:886-920 | the builder's loop accepts exactly when every item's surfaces are proved against the source |
| ContractBuild.Build | agent/compiled_answer_contract_v1.py:824-1007 | yields a contract exactly when body, intent, live references and surface proofs are all in order, and that contract is valid with its digest |
| ContractMeaning.BuildExactly | agent/compiled_answer_contract_v1.py:824-1007 | an order is built to a body if and only if that has the two digests, items, groups, premises and presentation of the order, a completion as its fields say, live references and a proof for every surface asked |
| ContractBuild.SurfacesAreTheFields | agent/compiled_answer_contract_v1.py:892-907 | in a built contract surface k of an item is field k, one to one |
| ContractBuild.TargetIdsAreProper | agent/compiled_answer_contract_v1.py:284-285 | ids derived from positions are well formed, differ from each other and from every field id |
| Gateway.SlotsAreConserved | agent/evaluation_api.py:337-396 | over every run free permits and permits held add up to the capacity, no release exceeds it, the pool never runs more than its workers |
| Gateway.PermitIsReturnedOnce | agent/evaluation_api.py:344-357 | each request takes at most one permit and gives it back at most once |
| Gateway.UndoneFuturesCount | agent/evaluation_api.py:344-365 | counting unfinished futures gives the capacity exactly when no finished future still owes its callback |
| Gateway.WindowIsReachable | agent/evaluation_api.py:357-357 | a run that ends between completion and callback |
| Gateway.NeverStuck | agent/evaluation_api.py:337-396 | until every request is at rest something other than a timeout or a close can happen |
| Gateway.RunsEnd | agent/evaluation_api.py:337-396 | a run is at most ten events per arrival and two more long |
| Gateway.FinishedRunsFreeEverything | agent/evaluation_api.py:337-396 | a run that cannot go on has given every permit back |
| Gateway.QueueIsBounded | agent/evaluation_api.py:292-297 | with all workers busy at most max_queue submitted requests wait |
| Gateway.AnswersAreInTime | agent/evaluation_api.py:299-324 | an answered request began before its deadline and was validated by it |
| GatewayReplies.RepliesMeanWhatTheySay | agent/evaluation_api.py:299-371 | over every run an answer has one start and one later finish of its own request, whose material and times it carries, begun before the deadline and validated by it; each error reply has the event that causes it |
| GatewayReplies.EventsHaveReasons | agent/evaluation_api.py:344-396 | a caller is turned away only when all permits are held, nothing is submitted after a shutdown, and only requests not begun are dropped by one |
| Gateway.EvaluationGateway.AcquireSlot | agent/evaluation_api.py:344-348 | succeeds exactly when a permit is free, else the caller is turned away |
| Gateway.EvaluationGateway.SubmitBackend | agent/evaluation_api.py:351-356 | a refused submission gives its permit back at once |
| Gateway.EvaluationGateway.AddDoneCallback | agent/evaluation_api.py:357-357 | a callback on a finished future is due at once |
| Gateway.EvaluationGateway.TimeOut | agent/evaluation_api.py:363-365 | a caller past its deadline cancels only a future that has not started |
| Gateway.EvaluationGateway.Collect | agent/evaluation_api.py:358-371 | a settled future becomes the caller's reply, late results as timeouts |
| Gateway.EvaluationGateway.CloseGateway | agent/evaluation_api.py:393-396 | closing is a run of steps that leaves no pending future, and closing twice changes nothing |
| EventIndex.BuildIndex | agent/event_preflight.py:488-532 | the scan computes the specified index, or raises exactly where it does |
| EventIndex.IndexIsExact | agent/event_preflight.py:488-532 | a receipt has a row exactly when a field is about it, holding exactly the date and roles of those fields |
| EventMeaning.BuiltWhen | agent/event_preflight.py:488-532 | an index is built if and only if every naming field has its company, receipt and date in form, no receipt has two dates, and there are at most 100,000 receipts |
| EventMeaning.BuiltHolds | agent/event_preflight.py:471-532 | it lists exactly the receipts that fields name, in order, each with its date and exactly its normalised types, counterparties and contract names |
| EventIndex.OrderDoesNotMatter | agent/event_preflight.py:471-532 | streams of the same usable fields in any order build one index |
| EventIndex.BuiltIsOk | agent/event_preflight.py:471-486 | what is built meets every shape, order, uniqueness and size rule of the reader |
| EventCache.ReadValues | agent/event_preflight.py:327-365 | the reader's loops parse an index or reject it |
| EventCache.ValuesParse | agent/event_preflight.py:423-437 | the values written for an index read back as that index |
| EventCache.WrittenReadsBack | agent/event_preflight.py:376-468 | a written document of bearable size passes every check and loads as its index |
| EventCache.HitEqualsRebuild | agent/event_preflight.py:534-551 | for fields within the cutoff a cache hit holds what a rebuild would |
| EventCache.LoadedIsOk | agent/event_preflight.py:376-421 | whatever loads meets the rules of a built index and carries its own digest and contract |
| CacheMeaning.RowsExactly | agent/event_preflight.py:327-365 | a value parses as rows if and only if it lists at most 100,000 objects of the five members, by increasing receipt number, each with its numbers in form and its names non-empty and in order |
| CacheMeaning.CountsExactly | agent/event_preflight.py:305-314 | the recorded counts match exactly when they are five numbers: of companies, of rows, and of the single values of each role over all rows |
| CacheMeaning.LoadedExactly | agent/event_preflight.py:376-421 | a file loads as an index if and only if it is bound to this build by all seven names, of at most 64 MiB, holds exactly that index, nothing after the cutoff, and its digest and counts |
| EventCache.AlteredValuesAreRejected | agent/event_preflight.py:415-418 | under an injective digest a file that records one index's digest never loads as another index |
| EventCache.StaleFilesAreRejected | agent/event_preflight.py:396-399 | a file written under another contract never loads |
| EventCache.EventRoleIndex.LoadCache | agent/event_preflight.py:376-421 | absent, loaded or rejected as specified |
| EventCache.EventRoleIndex.WriteCache | agent/event_preflight.py:423-468 | replaces the file by the document or leaves it alone |
| EventCache.EventRoleIndex.CompanyRows | agent/event_preflight.py:534-551 | answers from memory, from the cache, or from a scan exactly when the scan and a document of bearable size succeed, never from a rejected file |
| EventResolution.ResolveWithoutSeed | agent/event_preflight.py:717-765 | leaving early agrees with collecting every candidate, and raises exactly when a malformed candidate comes before the twenty-first event |
| EventResolution.AnswerRefinesSets | agent/event_preflight.py:727-765 | unless it raises, the status depends only on the number of distinct events, and candidates are the best of each event in strictly increasing key order |
| EventAnswers.MatchesExactly | agent/event_preflight.py:560-589 | a row answers a query exactly when it is filed by its date, within its period, of its type, and names the counterparty and contract asked for, or a Latin spelling of them |
| EventAnswers.CandidatesAreAbout | agent/event_preflight.py:717-750 | the events offered are exactly those of answering rows whose timeline is of the company asked for, and every candidate shows its timeline and up to two names of its row |
| EventAnswers.AnswersCount | agent/event_preflight.py:751-765 | none, one, up to twenty or too many, by the number of those events |
| EventAnswers.RaisesExactly | agent/event_preflight.py:717-765 | it raises if and only if an answering row offers a malformed candidate while the rows before it offer at most twenty events |
| EventAnswers.SeedExactly | agent/event_preflight.py:702-716 | with a seed receipt: its event, nothing, or an exception, exactly by its timeline |
| EventResolution.CollectedIsExact | agent/event_preflight.py:746-750 | per event the candidate kept is the first with the least root receipt |
| EventResolution.OfferedHas | agent/event_preflight.py:728-745 | candidates are exactly those of the rows that have a timeline in the company |
| EventResolution.CollectedGrows | agent/event_preflight.py:749-750 | more candidates never mean fewer events |
| EventResolution.FutureRowsDoNotMatter | agent/event_preflight.py:560-589 | rows filed after the question's date change neither the answer nor whether the resolver raises |
| PayloadShape.ShapeIgnoresText | agent/hcx_schema.py:520-663 | replacing texts injectively, closed vocabularies, blank and sentinel fixed, leaves the outcome unchanged: no snapshot, an exception, or the snapshot |
| PayloadShape.ClosedShapeIgnoresText | agent/hcx_schema.py:389-424 | the same for the program's own vocabularies |
| PayloadShape.CanonicalReplaced | agent/hcx_schema.py:382-386 | canonical text commutes with replacing |
| PayloadShape.ReplaceIsInjective | agent/hcx_schema.py:608-611 | replaced values are equal exactly when the values are |
| PayloadShape.ScanSame | agent/hcx_schema.py:599-620 | blank, sentinel and duplicate paths survive replacing at every place |
| PayloadShape.RefSame | agent/hcx_schema.py:506-517 | so does the shape of a reference, also where it raises |
| PayloadShape.ScanInto | agent/hcx_schema.py:599-620 | the walk adds to its three sets exactly the specified paths |
| PayloadShape.SafePayloadShape | agent/hcx_schema.py:520-663 | the snapshot taken by walking is the specified one, or raises as specified |
| PayloadMeaning.ScanExactly | agent/hcx_schema.py:599-620 | the three sets hold exactly the places of blank texts, of the sentinel, and of checked lists in which two elements have one canonical text |
| PayloadMeaning.SnapshotIsTold | agent/hcx_schema.py:520-663 | a snapshot tells of every named part exactly what is there: known words, lengths, the first rows in order, and the first 32 places in order |
| PayloadMeaning.CanonicalExactly | agent/hcx_schema.py:382-386 | two values have one canonical text if and only if they are the same up to the order of members |
| PayloadShape.RaisesExactly | agent/hcx_schema.py:514-514 | taking it raises if and only if one of the first 32 requested outputs is an object whose kind is a list or an object |
| PayloadShape.ListKindRaises | agent/hcx_schema.py:514-514 | an empty list for a kind raises |
| RetryLoop.CallWithTransportRetry | agent/hcx_semantic_intent_v1.py:545-632 | for every provider the loop is a run: each retry follows a retryable failure that did not stop it, and the report is of the sleeps taken |
| RetryLoop.RunIsBounded | agent/hcx_semantic_intent_v1.py:559-632 | at most nine calls, at most twelve seconds asleep, and the reported count and wait are those of the sleeps |
| RetryLoop.ThousandthsAreNearest | agent/hcx_semantic_intent_v1.py:566-566 | the wait reported is the nearest number of thousandths, the even one of two |
| RetryLoop.BudgetIsKept | agent/hcx_semantic_intent_v1.py:608-621 | the sum of sleeps stays within the budget after every sleep |
| RetryLoop.SleepsAreSafe | agent/hcx_semantic_intent_v1.py:596-621 | every sleep is positive and leaves the required time before the deadline |
| RetryLoop.RunIsDetermined | agent/hcx_semantic_intent_v1.py:545-632 | a provider has exactly one run |
| RetryLoop.FifthRetryExactlyWhen | agent/hcx_semantic_intent_v1.py:108-119 | for every provider, hints and deadline: more than four retries if and only if the first four failures ask for less than the budget, the fifth for a positive delay, and time is left |
| RetryLoop.FourRetriesWithoutHints | agent/hcx_semantic_intent_v1.py:108-119 | without hints there are at most four retries, whatever the failures and with or without a deadline |
| RetryLoop.EightRetries | agent/hcx_semantic_intent_v1.py:108-119 | hints of one second make eight |
| RetryLoop.PersistentFailure | agent/hcx_semantic_intent_v1.py:108-119 | without hint and deadline persistent failure means five calls and sleeps of 1, 2, 4 and 5 seconds |
| RetryLoop.ZeroHintGivesUp | agent/hcx_semantic_intent_v1.py:610-620 | a zero hint means no retry |
| RetryLoop.LongHintRetriesOnce | agent/hcx_semantic_intent_v1.py:610-615 | an endless hint is cut to the budget and retried once |
| DisplayUnits.ShownIsHalfUp | agent/display_units_v1.py:227-232 | an amount of at most 28 digits is shown as the nearest value of the requested precision, ties away from zero |
| DisplayMeaning.ShownIsNearest | agent/display_units_v1.py:227-232 | in plain numbers, with the size of each unit: the nearest number with the asked decimals, the larger of two |
| DisplayMeaning.LongAmountsAreCut | agent/display_units_v1.py:227-232 | a longer amount first keeps 28 digits, the nearest, the even one of two |
| DisplayUnits.ShownIsHalfUpExactlyWhen | agent/display_units_v1.py:227-232 | for amounts of any length, the exact condition for that |
| DisplayUnits.RoundedTwice | agent/display_units_v1.py:227-232 | a 29-digit amount shown too large |
| DisplayUnits.LargerShowsNoLess | agent/display_units_v1.py:227-232 | larger amounts of any length and sign never show smaller values |
| DisplayUnits.ShownTextReadsBack | agent/display_units_v1.py:235-273 | every shown text reads back as the amount, the rounded value with exactly its decimals, or the same number in lowest terms |
| DisplayMeaning.CommasEveryThree | agent/display_units_v1.py:235-247 | from the right every fourth character is a comma, and no other |
| DisplayMeaning.TextsAre | agent/display_units_v1.py:256-273 | which precision each unit is shown with, with its name behind |
| DisplayUnits.ZeroHasNoSign | agent/display_units_v1.py:267-273 | a zero never shows a minus sign |
| DisplayUnits.NoUnitIsDropped | agent/display_units_v1.py:289-299 | every requested unit is shown, as it is alone |
| DisplayUnits.RenderingReadsBack | agent/display_units_v1.py:276-299 | the joined text reads back as the texts of the requested units, in order and none missing; it raises exactly when one of them does |

## Left out

- The HTTP shell, provider client, environment settings, file writing and symlink checks: input and output only.
- The Korean surface recognisers and regrounders: text matching against data outside this model; the single-task resolver stays an arbitrary function.
- The draft adapter's path table and the translation of draft paths for one task (agent/session.py:424-520, agent/query_plan.py:368-392, 776-1113): part of that delegate.
- Option labels of a clarification, public handoff records and fixture types: carried along, never decided on.
- Single-record validators of tasks, selectors and dates in agent/contracts.py: easy members; the plan validator is modelled over records that passed them. Fields it never reads are one opaque `detail`.
- The wrapper that checks a schema's root and counts its properties, and the payload validator with repair (agent/hcx_schema.py:793-930): thin around the lowering.
- Which rule rejected a schema or a cache file: all failures are one outcome. `format` is an annotation. References to anything but the definition table, which never lower, count as dangling.
- SessionStore.Store.Get: returns a value, so aliasing between a caller's copy and the stored state is not captured; the source deep-copies.
- SessionProtocol.NoLostUpdate: relies on fresh session ids at opening, which the source gets from random UUIDs.
- PlanAssembly.ResolveProposal: exceptions raised inside the resolver (a `concept_ratio` derivation, a task that offers outputs but has no labels) are one `Raised` outcome without their text.
- String length limits and identifier patterns of the answer contract other than the whole-target form: record shape only. The source intent is taken as already validated.
- Latency figures of a gateway answer and the audit trace: arithmetic on the recorded times. A callback may run later than the cancel that triggers it, which allows more runs than the source. A failed submission is one that queued nothing.
- Gateway.EvaluationGateway.CloseGateway: is one thread's run; other threads' steps in between are covered by the lemmas over all runs.
- EventCache.Load: printing, parsing and encoding are inverse functions, so unencodable text is not modelled.
- The contract-name helpers of agent/event_preflight.py:591-690: easy members.
- PayloadShape.ShapeIgnoresText: non-finite numbers, on which the canonical text raises, are no JSON values here.
- RetryLoop.CallWithTransportRetry: seconds are reals, a sleep takes at least its delay, and latency records are absent.
- DisplayUnits.ShownIsHalfUp: starts from an integral amount; reading it from other types and the directive parser are absent.
