# ACOP verification model

ACOP keeps a CMDB of claims about assets and runs declared tools under policy and approval. This project models the parts
of it that keep state or decide, and proves what holds over every run of them.

* **The claim ledger** (`Ledger`, `LedgerInvariant`, `LedgerHistory`, `LedgerAnswers`, `Attestations`, `LedgerService`,
  `Effective`): facts with half-open validity intervals, supersession pointers, trust transitions and the attestation log.
  The database's CHECK, exclusion, unique and foreign-key constraints are the specification; the service steps are proved
  against them, each either committing a next state or refused with the state unchanged.
* **Identities and edges** (`Identity`, `IdentityAnswers`, `Relationships`, `RelationshipAnswers`, `Retirement`,
  `AssetService`, `Pagination`): identity resolution, typed edges read from both ends, the retirement that closes an asset's
  claims and edges together, and keyset pages over a table that changes between reads.
* **The canonical printer and the envelope** (`CanonicalJson`, `Contract`, `Envelope`): what an approval's digest binds,
  derived from a parser that undoes the printer. Strings are escaped as in section 7 of RFC 8259; a number is its token,
  as in section 6.
* **Declarations, policy, registry** (`DeclaredSchemas`, `ToolModels`, `ToolSchemas`, `Declaration`, `Policy`, `Registry`):
  the import rules, the schemas generated for input models against the dumps that are kept, the gates against a
  first-failing-gate specification, startup reconciliation, and what of them reaches the invocation row's CHECKs.
* **The invocation protocol** (`InvocationMachine`, `InvocationService`, `Launches`, `ApprovalQuorum`, `InvocationLog`,
  `InvocationAnswers`, `ChangeControl`): compare-and-set writes by any number of workers holding stale reads; on top of them
  approval, dispatch, reaping, sweeping and cancellation; and the end-to-end statement that no adapter is asked to act for a
  change but by the holder of the lease and as agreed, as the worker's final gate read it.
* **Redaction** (`Redaction`): what redaction hides, what the value screen stores and what it reports.

The modules named `...Answers` say of each operation, in terms of what it was given, when it is refused and what it writes,
column by column. `Base`, `ToolVocabulary` and `CmdbVocabulary` hold shared types, sorting and the constant
tables. Where the source updates rows in place, a class has those rows as fields and its methods are proved equal to
functions on states; the run theorems are about the functions. A transaction is one step that commits or rolls back whole;
what it read of the row before it writes, a loser's refresh included, may be out of date.

## What the code does not do as one might expect

Each of these is proved, by a concrete case or an exact condition.

* VERIFY or REVOKE on a live desired fact passes every guard of the service and is refused by the `desired_is_approved`
  CHECK (`LedgerInvariant.TransitionExactly`), as an assert of kind `DESIRED_STATE` would be if the request schema let it
  through (`LedgerInvariant.AssertExactly`); a second principal's desired fact is refused by the authority index
  (`LedgerInvariant.CreateDesiredExactly`).
* A claim that refers to an asset which does not exist passes the service and is refused by the foreign key on
  `value_asset_id` (`LedgerInvariant.DanglingReferenceIsRefused`, `LedgerInvariant.AssertExactly`).
* A number that is not a number equals nothing, so each sighting of it opens a new row (`LedgerHistory.SecondAssertTouches`).
* A retired asset gains live claims again by the next assert (`LedgerHistory.RetiredAssetsCanBeClaimedAgain`).
* Resolution is refused by an index when two presented identifiers coincide after normalisation and the asset carried
  neither (`Identity.OneHolderMatches`, `Identity.NoHolderCreates`).
* Reconciliation is refused by a CHECK when a disabled row loses its declaration, or when a new declaration does not start
  active (`Registry.CommitsExactly`).
* A declaration that does not require approval may carry numbers its invocation rows are refused for
  (`Policy.UncheckedNumbersAreRefused`, `Policy.AllowedButRefusedExactly`).
* Approvers deciding at the same moment can each count too few, and then the quorum is on record while the invocation still
  waits (`ApprovalQuorum.ConcurrentApproversCanStall`): exactly when the completing approval's count misses an approver on
  record (`ApprovalQuorum.StallsExactly`, `ApprovalQuorum.StallOverLives`), until a further approval or the sweeper ends it
  (`ApprovalQuorum.StallsEnd`).
* `_forbids_additional_properties` is documented to check the whole schema tree. It walks the top level and `$defs`, so a
  dict field's schema, written in place, is not reached: the tree is closed exactly when the models forbid extra keys and no
  listed field has a dict in its type (`ToolSchemas.ClosedThroughoutExactly`).
* The rules are documented to make the canonical input of an accepted tool safe to keep. They read the generated schema,
  which lists aliases and leaves out computed fields; what is kept is the dump, which has attribute names and a dict's own
  keys. A dict field (`ToolSchemas.DictFieldLeaks`) and an aliased or computed field (`ToolSchemas.RenamedFieldLeaks`) each
  pass and then keep a secret's name. The input is safe exactly when the models keep to their fields
  (`Declaration.AcceptedInputIsSafeToKeep`, `ToolModels.KeepsToFields`).
* The collector of redacted keys looks one level deeper than the redactor, so it reports keys of objects that are cut off
  rather than masked (`Redaction.ReportCoversMask`).
* Claims are compared by their summaries, so two values of more than 120 characters that share the first 117 do not conflict
  (`Effective.SummariesAgreeExactly`).
* One approval that has run out refuses an execution however many others still hold
  (`InvocationService.ApprovalSufficesExactly`).
* The events that move the row always form a chain. The log as a whole does exactly when every committed event that moves
  nothing names the state the row is then in (`InvocationLog.LifeChainsExactly`). A dispatch's note can be late
  (`InvocationLog.ReapedBeforeItsNote`), and so can the event of a sweeper or reaper that lost and refreshed, since a loser
  holds no lock on the row (`InvocationLog.SweptBehindTheClaim`).

## Model

| member | source | states |
|---|---|---|
| CanonicalJson.PrintIsCanonical | src/acop/tools/envelope.py:44-66 | Sorted keys, tight separators and the two extra encodings give every value one text, that of the JSON value it denotes, however its dicts and sets were built |
| CanonicalJson.LaidOutExactly | src/acop/tools/envelope.py:44-52 | An object's text is its members joined by commas with nothing between, each key once and ascending by code point; a list's is its elements in order |
| Orders.StringLessExactly | src/acop/tools/envelope.py:44-66 | One text sorts before another exactly when it is a proper beginning of it or has the lesser code point where they first differ |
| CanonicalJson.RoundTrip | src/acop/tools/envelope.py:44-52 | A parser reads the canonical text of any value back, and stops exactly where the value ends |
| CanonicalJson.ParseUndoesPrint | src/acop/tools/envelope.py:44-66 | The parser undoes the printer on every value, UUIDs and sets taken through the encoder |
| CanonicalJson.CanonicalTextIsInjective | src/acop/tools/envelope.py:44-66 | Equal canonical text holds exactly when the values denote the same JSON value |
| CanonicalJson.InsertionOrderIsInvisible | src/acop/tools/envelope.py:44-52 | A dict prints the same text whatever order its keys were inserted in |
| CanonicalJson.SortedListIsInjective | src/acop/tools/envelope.py:55-66 | A set printed as its sorted list loses nothing: equal lists come from equal sets |
| CanonicalJson.DigestIsOverThePrintedText | src/acop/tools/envelope.py:69-71 | The digest of a value is the hash of its canonical text |
| CanonicalJson.DigestBinds | src/acop/tools/envelope.py:69-71 | Under a collision-free hash two digests are equal exactly when the values are |
| Contract.ApprovalSnapshotBinds | src/acop/tools/contract.py:101-111 | Two approval snapshots are equal exactly when the policies are, role and environment sets compared as sets |
| Contract.ExecutionParametersBind | src/acop/tools/contract.py:205-216 | Two execution snapshots are equal exactly when the declarations ask for the same execution policy |
| Contract.ContractHashBinds | src/acop/tools/contract.py:170-203 | Two contract hashes are equal exactly when the declarations agree on everything an approval means; prose and default lifecycle stay outside |
| Envelope.TargetBlockBinds | src/acop/tools/envelope.py:74-91 | Two target blocks are equal exactly when kind, asset and named reference are, an empty reference counting as none |
| Envelope.EnvelopeBinding | src/acop/tools/envelope.py:94-123 | Two envelopes have the same digest exactly when contract, execution policy, input and target all agree |
| Declaration.AcceptedExactly | src/acop/tools/contract.py:255-467 | Import accepts a declaration exactly when it meets all the rules one declaration can meet, in whatever order they are tried: shape of name and version, class, approval, retries, names and closure of the walked schema blocks, a registered adapter |
| Declaration.DottedNameExactly | src/acop/models/tool_vocabulary.py:33-40 | Splitting at the dots recognises exactly the names that three to five lower-case words make when joined by dots |
| Declaration.AcceptedInputIsSafeToKeep | src/acop/tools/contract.py:397-426 | No field the rules walk in an accepted tool names a secret, a network locator or a command; and its canonical input is safe to keep, whatever a caller sends, exactly when its models keep to their fields: no dict that can have entries, no free type, no secret attribute name behind an alias or a computed field |
| ToolSchemas.PassesExactly | src/acop/tools/contract.py:224-252 | The generated schema passes the rules exactly when every model they reach forbids extra keys and lists no forbidden name |
| ToolModels.DumpsAreCleanExactly | src/acop/tools/policy.py:264-283 | Where the walked models are clean, no dump of any input has a sensitive key at any depth exactly when every model a dump can hold keeps to its fields |
| ToolSchemas.SafeToKeepExactly | src/acop/tools/contract.py:397-405 | For models whose schema passes, every input dumps to nothing the redactor would mask exactly when they keep to their fields |
| ToolSchemas.ClosedThroughoutExactly | src/acop/tools/contract.py:238-252 | The whole generated schema tree is closed exactly when the models the rules reach forbid extra keys and none of their listed fields has a dict in its type |
| ToolSchemas.DictFieldLeaks | src/acop/tools/contract.py:238-252 | A model with a dict field passes the rules, its schema tree is open, and it has an input whose canonical form names any given secret |
| ToolSchemas.RenamedFieldLeaks | src/acop/tools/policy.py:283 | A field whose attribute is named as a secret passes the rules under a harmless alias, or computed and so unlisted, and then every canonical input names the secret |
| Policy.FirstFailingGateDecides | src/acop/tools/policy.py:128-262 | The engine answers with the first gate that does not pass, each gate told apart from the engine's own checks, target verdicts reason by reason; allows only what every gate passes and whose policy can be copied, and turns an exception in a gate into a denial |
| Policy.DecisionsAreComplete | src/acop/tools/policy.py:154-188 | There is always a decision, even when building the denial raises; it copies the bound tool's policy, or is the unbound shape; only an allow carries input, the validated one |
| Policy.TwoPhaseIsOnePhase | src/acop/tools/policy.py:128-152 | Deciding gates 1 to 4 with any placeholder target and then all gates gives the one-phase decision |
| Policy.PrerequisitesIgnoreTheCaller | src/acop/tools/policy.py:191-222 | A denial by gates 1 to 4 is the same whoever asks, for whatever target and environment, and they pass exactly when each of them does |
| Policy.HeldIsAClosure | src/acop/models/tool_vocabulary.py:464-481 | Expanding roles keeps every known name, is monotone, and expanding twice adds nothing |
| Policy.AddingRolesKeepsAllow | src/acop/tools/policy.py:237-240 | More roles never turn an allow into anything else |
| Policy.ExpandRoles | src/acop/models/tool_vocabulary.py:472-481 | The loop over role names computes the union of what the known ones imply |
| Policy.DecisionFitsTheRow | src/acop/models/tool.py:475-541 | For a registered or unbound tool every decision's row passes the policy CHECKs exactly when the copied numbers are sound and an allowed change has an idempotency key; numbers are always sound when approval is required |
| Policy.AllowedButRefusedExactly | src/acop/models/tool.py:475-541 | An allowed request of a registered tool is refused by the database, whatever key it brings, exactly when its policy's numbers are unsound |
| Policy.UncheckedNumbersAreRefused | src/acop/tools/contract.py:309-313 | Wherever an adapter is registered there is a tool that passes the rules and whose allowed invocation the database refuses |
| Policy.ChangesAndUnboundToolsFit | src/acop/models/tool.py:475-541 | Decisions about a Class 2 or 3 tool, or about no tool, never trip those CHECKs once an allowed request carries its key |
| Policy.AllowedExactly | src/acop/tools/policy.py:191-316 | A request is allowed exactly when the tool is bound, active and not prohibited, the input validates, the target is nothing, a reference that says something or an existing asset not known to be inactive and of a declared type, as the tool wants, the principal's roles stand for every required one, the environment is open, and the policy can be copied |
| Policy.AllowMeans | src/acop/tools/contract.py:255-330 | A registered tool is allowed only to who effectively holds its class's minimum roles, and acts on nothing exactly when it only informs |
| Policy.NonIdempotentGetsOneAttempt | src/acop/tools/contract.py:367-394 | A registered non-idempotent tool's snapshot, allowed or denied, records one attempt |
| Registry.CodeRegistry.Register | src/acop/tools/registry.py:58-75 | A broken rule or a second object under a key leaves the registry as it was; a key once bound keeps its declaration |
| Registry.RegistrationTable.Reconcile | src/acop/tools/registry.py:107-181 | One transaction: drift refuses and writes nothing, a CHECK refuses and writes nothing, otherwise the table and the report are the specified ones |
| Registry.CommitsExactly | src/acop/models/tool.py:173-190 | Without drift it is refused exactly when a disabled row has lost its declaration or a new declaration does not start active |
| Registry.EstablishesTheCode | src/acop/tools/registry.py:132-172 | Afterwards each declared tool has the code's hash and is otherwise as it was, a new one has a row with hash and first lifecycle alone, each undeclared row is retired from now with the reason unless it was before, nothing is deleted |
| Registry.SecondRunChangesNothing | src/acop/tools/registry.py:107-181 | A second run at any later time changes nothing and reports every tool unchanged |
| Registry.ReportPartitions | src/acop/tools/registry.py:184-193 | Registered are exactly the declared without a row, unchanged those whose row has the code's hash, rehashed those whose row has another, retired the undeclared that were not retired |
| Registry.RowsMintNoCapability | src/acop/tools/registry.py:1-22 | Whatever the table holds, only a declared tool whose row is active is ever allowed, and of a row only the lifecycle matters |
| InvocationMachine.ProtocolOverRuns | src/acop/models/tool_vocabulary.py:158-206 | Any number of workers with arbitrarily stale reads leave a gap-free log whose moves are a legal path from REQUESTED to the row's state, no state twice, at most eight moves, at most one claim, a lease exactly while executing or validating |
| InvocationMachine.SuccessWasExecuted | src/acop/models/tool_vocabulary.py:98-113 | SUCCEEDED is reached only through READY, EXECUTING and EXECUTED in that order |
| InvocationMachine.FinishedIsFinal | src/acop/models/tool_vocabulary.py:133-150 | No transaction of any worker changes a terminal row; it can only leave no-op events |
| InvocationMachine.StaleWriterLoses | src/acop/services/tools/state.py:166-226 | A transition whose state or expected lease no longer holds leaves the row alone and leaves one no-op event, which names the state its refresh read |
| InvocationMachine.FreshWriterWins | src/acop/services/tools/state.py:166-226 | A transition whose state and expected lease still hold sets state and lease and appends the move, refused only if that would leave a lease without a holder or a holder without one |
| InvocationMachine.LogChainsExactly | src/acop/services/tools/state.py:77-122 | The log of a run chains event by event exactly when every committed event that moves nothing, a note or that of a lost transition, named the state the row was then in |
| InvocationMachine.SequenceIsForced | src/acop/models/tool.py:743-748 | The unique constraint lets a writer append only the next number; a session that misses an event is refused |
| InvocationMachine.Store.AppendEvent | src/acop/services/tools/state.py:77-122 | MAX plus one over what the session sees, refused when the number is taken |
| InvocationMachine.Store.Transition | src/acop/services/tools/state.py:125-226 | Legality first, then compare and set on state and expected lease, the lease CHECKs, and the event of the winner, or of the loser with whatever state its refresh read |
| InvocationMachine.Store.ClaimForExecution | src/acop/services/tools/state.py:229-274 | READY to EXECUTING with lease and attempt in one statement, or nothing |
| InvocationMachine.Store.RecordFinalGateIfOwned | src/acop/services/tools/state.py:277-333 | The gate is recorded only under this lease while it lives, and only with an event that exists |
| InvocationMachine.Store.Session | src/acop/services/tools/state.py:31-40 | A session's writes commit together or leave the row and the log as they were |
| Launches.NothingExecutesUnapproved | src/acop/services/tools/dispatcher.py:338-402 | In every life of an invocation READY behind an approval requirement means enough different approvers of this envelope, none the requester unless permitted; every launch was made under the live lease for a request vouched for as its gate read it; what was executed or has an outcome was launched so; success means validation where required |
| Launches.LaunchesExactly | src/acop/services/tools/dispatcher.py:195-402 | The adapter is asked to act exactly when the lease is held and, as the gate read them, the tool is bound, active and not prohibited, the recomputed digest is the recorded one, and every granted approval is of this envelope and current and there are enough |
| InvocationService.OnlyAuthorisedDecisionsCount | src/acop/services/tools/approval.py:128-197 | A decision leaves a mark exactly when the request was read as waiting, on the envelope shown, by who effectively holds an approver role, not by the requester unless permitted, with a lifetime, an approval not twice, and the row still waits or the approval is one of too few; the mark is its row with the snapshot's digest and lifetime |
| InvocationService.DecisionAnswersExactly | src/acop/services/tools/approval.py:189-341 | On a waiting invocation a denial that counts leaves it DENIED; an approval readies it exactly when the approvers it saw and its own are enough, and otherwise leaves it waiting with their number recorded |
| InvocationAnswers.DenialIsTheEnd | src/acop/services/tools/approval.py:189-197 | After a denial that was taken, whatever is called, the invocation stays DENIED and no adapter is asked to act |
| InvocationAnswers.ApprovalsWereDecided | src/acop/services/tools/approval.py:128-168 | In every life each approval on record was put there by one decision on this envelope by who effectively held an approver role, not the requester unless permitted |
| InvocationService.ApprovalSufficesExactly | src/acop/services/tools/approval.py:445-472 | The approvals the final gate read suffice exactly when enough different people gave them and none of them is of another envelope or has run out; a changed envelope is the reason before an ended lifetime |
| Launches.AtMostOneLaunch | src/acop/services/tools/dispatcher.py:159-273 | However many workers claim, dispatch, raise or are cancelled, at most one dispatch asks the adapter to act, committed or rolled back, each claim being dispatched once under a lease of its own |
| Launches.CommittedLaunchIsLast | src/acop/services/tools/dispatcher.py:159-273 | Whatever the leases, after a launch that committed the invocation stays finished and no dispatch launches |
| InvocationService.LaunchFinishes | src/acop/services/tools/dispatcher.py:408-717 | A dispatch that owns the row, passes the gate and commits leaves it FAILED exactly when the adapter failed, TIMED_OUT when it timed out, SUCCEEDED when it returned and validation, if required, confirmed, VALIDATION_FAILED when required validation did not |
| InvocationService.RefusalExpires | src/acop/services/tools/dispatcher.py:249-261 | An owner whose gate refuses leaves the row EXPIRED, its lease given up and the refusal recorded |
| InvocationAnswers.EndsExactly | src/acop/services/tools/dispatcher.py:620-717 | In every life an invocation is FAILED, TIMED_OUT, SUCCEEDED or VALIDATION_FAILED exactly when a dispatch launched and committed and its adapter came to just that; so success that had to be validated was confirmed |
| InvocationAnswers.SucceedsConfirmed | src/acop/services/tools/dispatcher.py:649-717 | What must be validated succeeded exactly when a launch that committed was confirmed |
| InvocationAnswers.EvaluationIsOnRecord | src/acop/services/tools/dispatcher.py:207-242 | Every committed dispatch leaves its gate evaluation first in the log; the owner's row carries the decision with that event's number |
| InvocationAnswers.ClaimAnswersExactly | src/acop/services/tools/state.py:229-274 | A claim takes a READY row with lease, one attempt and event, and leaves any other row and log alone |
| InvocationAnswers.ReapAnswersExactly | src/acop/services/tools/reaper.py:117-206 | The reaper ends a row still in the judged state under the judged lease, indeterminate if executing, unvalidated if validating, and no other |
| InvocationAnswers.SweepAnswersExactly | src/acop/services/tools/reaper.py:253-320 | The sweeper expires a request that needed approval and is still as it was read, waiting or ready, and no other |
| InvocationAnswers.CancelAnswersExactly | src/acop/api/routes/tool_invocations.py:300-360 | A cancellation ends a request that is still as it was read, waiting or ready, and otherwise changes nothing |
| InvocationService.WithoutTheLeaseNothingHappens | src/acop/services/tools/dispatcher.py:277-294 | A worker whose lease is gone leaves the row and its path as they were |
| InvocationService.ReaperMustLose | src/acop/services/tools/reaper.py:117-206 | The reaper changes a row only in the very state and under the very lease it judged expired |
| InvocationService.DenialIsFinal | src/acop/services/tools/invocation.py:475-551 | A refused request is recorded, rejected, and never moves again |
| InvocationService.CreationIsSound | src/acop/services/tools/invocation.py:437-473 | An allowed request starts awaiting approval exactly when approval is required, and otherwise ready |
| ApprovalQuorum.StallsExactly | src/acop/services/tools/approval.py:289-341 | The approval that completes a quorum leaves the invocation waiting exactly when its count misses an approver on record; otherwise it is READY |
| ApprovalQuorum.StallOverLives | src/acop/services/tools/approval.py:289-341 | In every life an invocation still waiting has its quorum on record exactly when some approval completed it and was judged by a count that missed an approver |
| ApprovalQuorum.StallsEnd | src/acop/services/tools/approval.py:289-341 | A stalled invocation becomes READY by any further approval that counts the rows on record, and the sweeper can expire it |
| ApprovalQuorum.WaitingLacksApprovers | src/acop/services/tools/approval.py:302-322 | If every decision counted all the approvals on record, an invocation that still waits lacks approvers |
| ApprovalQuorum.ConcurrentApproversCanStall | src/acop/services/tools/approval.py:302-322 | Two approvers who each count only themselves put a complete quorum on record and leave the invocation waiting |
| InvocationLog.LifeChainsExactly | src/acop/services/tools/state.py:182-211 | The log of an invocation's life chains event by event exactly when everything committed that moves nothing, the note of a dispatch, the no-op of a losing reaper or sweeper, the note of a reconciliation, named the state the row was then in |
| InvocationLog.ReapedBeforeItsNote | src/acop/services/tools/dispatcher.py:200-242 | A worker that claims and reads the row and is reaped before its note leaves a note naming a state the row has left |
| InvocationLog.SweptBehindTheClaim | src/acop/services/tools/reaper.py:253-320 | Without any dispatch: a sweeper that loses to the completing approval refreshes READY, a claim commits, and the sweeper's event names READY behind EXECUTING |
| ChangeControl.FinalGateExactly | src/acop/services/tools/dispatcher.py:338-392 | The final gate's recheck passes exactly while the tool is bound, active, not prohibited, and both its declaration and the request as its columns give it back are what was agreed to |
| ChangeControl.ApprovalsDoNotCarryOver | src/acop/services/tools/approval.py:224-237 | Two requests share the digest an approval is bound to exactly when contract, execution policy, input and target agree |
| ChangeControl.ChangesRunOnlyAgreed | src/acop/services/tools/dispatcher.py:338-402 | Whenever an adapter is asked to act for a registered change tool, the worker holds the lease and its gate read the tool as bound, active and not prohibited, declaration and request as agreed, and current approvals of that very request by the declared number, at least one, of different people; what was executed was launched so |
| ChangeControl.ChangesLeaveReadyApproved | src/acop/models/tool.py:475-541 | No invocation of a registered change tool leaves READY for execution without the declared number, at least one, of different approvers of that very request |
| ChangeControl.ChangesApprovedByDeclaredRoles | src/acop/services/tools/approval.py:238-258 | Each approval of a registered change was given on this very request, for the declared lifetime, by someone who effectively held a declared approver role |
| ChangeControl.ChangesSucceedConfirmed | src/acop/services/tools/dispatcher.py:620-717 | A registered change succeeded exactly when a launch that committed was confirmed |
| LedgerInvariant.AssertExactly | src/acop/services/fact.py:99-170 | Under a clock that does not run backwards an assert is refused by a constraint exactly when its value refers to no asset or it would open a desired state, and keeps the ledger invariant |
| LedgerInvariant.CreateDesiredExactly | src/acop/models/fact.py:184-193 | Declaring a desired state is refused by a constraint exactly when another principal's is live or its value refers to no asset |
| LedgerInvariant.DanglingReferenceIsRefused | src/acop/models/fact.py:74-82 | A reference to an asset that does not exist passes the service and is refused by the foreign key, observed or desired |
| LedgerInvariant.TransitionExactly | src/acop/models/fact.py:144-147 | A trust transition is refused by a constraint exactly when it would take a live desired state off APPROVED |
| LedgerInvariant.SafetyOverRuns | src/acop/models/fact.py:129-193 | Whatever the interleaving, every state keeps intervals of a lineage disjoint, one live claim a lineage and one live authority a claim, with linked supersession; observations that refer to nothing unknown, their transitions and retirements are never refused by a constraint |
| LedgerHistory.NoGapBeforeRetirement | src/acop/services/fact.py:137-163 | From a row's beginning to its asset's retirement a row of its lineage covers every instant |
| LedgerHistory.ExactlyOneClaim | src/acop/models/fact.py:158-166 | At each such instant exactly one row of the lineage holds |
| LedgerHistory.PointerMeaning | src/acop/services/fact.py:137-163 | A pointer names the lineage's previous row, closed where this one begins, and no other row names it |
| LedgerHistory.ChainTilesTime | src/acop/services/fact.py:137-163 | The rows of a supersession chain tile the time from its first row to its last, one for each instant |
| LedgerHistory.ChainsAreLines | src/acop/services/fact.py:199-227 | Supersession chains never merge or fork: two that share a row are one inside the other |
| LedgerHistory.ChainsOverRuns | src/acop/services/fact.py:137-163 | In every reachable state each chain starts with a row that superseded none, is of one lineage and tiles its time, and chains that meet are nested |
| LedgerHistory.AssertUnderAnyClock | src/acop/models/fact.py:148-166 | Whatever the clock did, a new observed value is refused by the database exactly when a row of its lineage is ahead of the clock or it refers to no asset |
| LedgerHistory.TouchChangesOnlyTheSighting | src/acop/services/fact.py:123-135 | An assert touches exactly when some live row of its lineage says the same, and then changes only that row's last_seen_at and confidence |
| LedgerHistory.SecondAssertTouches | src/acop/services/fact.py:68-84 | A repeated assert is accepted and touches, unless the first opened a row whose value does not equal itself: every sighting of NaN opens a row |
| LedgerHistory.RetiredAssetsCanBeClaimedAgain | src/acop/services/fact.py:99-121 | The next assert of an observation about a retired asset is accepted exactly when it refers to nothing unknown, and the asset has a live claim again |
| LedgerHistory.StepHistory | src/acop/services/fact.py:68-84 | One committed step changes a lineage's history only by an assert on it, and then only by a value that does not equal the last, in the sense of the program's comparison |
| LedgerHistory.CompressEncodesRuns | src/acop/services/fact.py:68-84 | A list of values falls into runs that each repeat the value they start with, the next run's start not equalling it, and the compressed list is those starts |
| LedgerHistory.RunsAreMaximal | src/acop/services/fact.py:68-84 | For a symmetric and transitive comparison those runs are the maximal stretches of equal neighbours |
| LedgerHistory.HistoryIsRunLengthEncoding | src/acop/services/fact.py:123-170 | Over any run without retirement a lineage's accepted values fall into runs of equal values and its rows carry exactly the values the runs start with |
| Attestations.StepExplained | src/acop/services/fact.py:341-371 | Each step leaves a log that explains every row's trust if it found one |
| Attestations.ReplayOverRuns | src/acop/services/provenance.py:102-130 | In every reachable state, replaying the log from the source's default gives every row's status and attribution, each entry starting where the one before ended; only STALE by retirement is not in the log |
| Attestations.StaleIsFinal | src/acop/services/asset.py:183-201 | A row whose status the log does not give is closed, and no transition of it is accepted |
| LedgerService.Session.AssertFact | src/acop/services/fact.py:99-170 | Close, flush, insert, flush: the rows become the specified next state, or are what they were |
| LedgerService.Session.CreateDesired | src/acop/services/fact.py:172-243 | The declared row, its predecessor closed and its attestation, or nothing |
| LedgerService.Session.Transition | src/acop/services/fact.py:245-371 | Guards in order, then status, attribution and log together, or nothing |
| LedgerService.Session.CloseClaims | src/acop/services/asset.py:183-201 | The loop closes exactly the asset's live rows, makes stale those no person stood behind, and counts them |
| LedgerAnswers.AssertRecordsTheClaim | src/acop/services/fact.py:117-170 | An accepted assert leaves a new row with the claim's predicate, kind, value, unit, source, confidence, the class and first status of that source and all times now, the live row it replaces closed, or else touches the live row that says the same; every other row stays |
| LedgerAnswers.ObservationAccepted | src/acop/services/fact.py:99-170 | An observation is accepted exactly when its asset exists, the screen lets it through and its reference, if any, names an asset |
| LedgerAnswers.DesireRecordsTheDeclaration | src/acop/services/fact.py:172-243 | An accepted declaration leaves the principal's own approved row, the declarer's live one closed, and the attestation; every other row stays |
| LedgerAnswers.TransitionAcceptedExactly | src/acop/services/fact.py:245-340 | A trust transition is accepted exactly on a live row, a revocation of trust, or else of what no model said while nothing else about the same thing is trusted, and of a desired state only an approval |
| LedgerAnswers.TransitionRecordsTheAct | src/acop/services/provenance.py:102-130 | It writes the status, the action's own attribution or none after a revocation, and one attestation; nothing else |
| LedgerAnswers.EveryRowWasClaimed | src/acop/services/fact.py:99-243 | Over every run each row was opened by one accepted assert or declaration and still says what that claimed, of what, by which source and since when |
| Retirement.RetireExactly | src/acop/services/asset.py:170-221 | Retiring an asset is refused exactly when it is unknown, retired or merged, never by a constraint; otherwise one transaction ends its live claims and edges, relabelling claims no person stood behind, counts them, and leaves everything else as it was |
| Retirement.RetirementOverRuns | src/acop/services/asset.py:170-221 | Over every run of claims, edges, trust, updates and retirements both parts keep their invariants on one asset table, and a retirement is never refused by a constraint |
| AssetService.AssetService.Retire | src/acop/services/asset.py:170-221 | Claims closed by one loop, edges by another, the asset row and one flush: the specified retirement of all three tables, or everything as it was |
| Effective.FilterCommutesWithSort | src/acop/services/fact.py:376-391 | Reading one predicate's rows in order, or all rows in order and then grouping, gives the same list |
| Effective.SummariesAgreeExactly | src/acop/services/fact.py:59-65 | Two claims read alike exactly when their renderings are equal, or agree in what the summary keeps of long ones |
| Effective.EffectiveMeaning | src/acop/services/fact.py:436-488 | The one authoritative claim decides; else the value all claims but the inferences share; else nothing; never an inference; the conflict flag says whether two claims read differently |
| Effective.DissentersExactly | src/acop/services/fact.py:450-488 | Who dissents in each case, and when only inferences were left |
| Effective.EffectiveIsNeverInference | src/acop/services/provenance.py:56-99 | In every reachable state the effective value of anything was opened by an assert whose source was no model, or by a declaration |
| Effective.InferenceCannotSway | src/acop/services/fact.py:464-480 | Two live claim sets that differ only in inferences are decided on the same basis with the same fact whenever another claim is live |
| Effective.GroupRows | src/acop/services/fact.py:418-420 | The grouping loop lists each row once, under its predicate and kind, in order |
| Effective.Conflicts | src/acop/services/fact.py:411-434 | The listing loop gives the disagreeing groups in the order of their keys |
| Effective.ListingAgreesWithEffective | src/acop/services/fact.py:411-488 | The listing names exactly the pairs whose effective value reports a conflict, each once, in order, with all claims of the group |
| Identity.OneHolderMatches | src/acop/services/identity_resolver.py:128-172 | With one holder of the presented unique identifiers the request matches it; a constraint refuses exactly when two presented identifiers coincide after normalisation and the asset carried neither |
| Identity.NoHolderCreates | src/acop/services/identity_resolver.py:174-189 | With no holder a new asset is created where allowed, refused by a constraint under the same condition only |
| Identity.ManyHoldersRefuse | src/acop/services/identity_resolver.py:147-163 | With several holders nothing is written and the refusal names every one |
| Identity.NormalisedExactly | src/acop/services/identity_resolver.py:54-82 | A request is normalised exactly when no value becomes empty, item by item, each with its namespace and that namespace's uniqueness |
| IdentityAnswers.EmptyValueRefuses | src/acop/services/identity_resolver.py:66-71 | A request is refused for its vocabulary exactly when some presented value normalises to nothing |
| IdentityAnswers.RequestMatches | src/acop/services/identity_resolver.py:143-172 | With one asset live under a presented unique identifier the request matches it, names the matching namespaces, sights what it had and adds everything else presented, refused only when two presented identifiers are one and new to it |
| IdentityAnswers.RequestCreates | src/acop/services/identity_resolver.py:174-189 | With none it creates an asset carrying all that was presented, where allowed, refused only for the same reason |
| IdentityAnswers.RequestConflicts | src/acop/services/identity_resolver.py:147-163 | With several it writes nothing and names exactly them |
| IdentityAnswers.AttachAnswersExactly | src/acop/services/asset.py:223-284 | One identifier is sighted where the asset has it, refused where another has it and it identifies, and otherwise added |
| Identity.AttachMissingExactly | src/acop/services/identity_resolver.py:191-233 | The indexes take what an attach inserts exactly when nothing presented collides with itself |
| Identity.AttachNeverTrips | src/acop/services/asset.py:223-284 | Attaching a single identifier is never refused by a constraint |
| Identity.RetireNeverTrips | src/acop/services/asset.py:286-294 | Retiring an identifier is never refused by a constraint |
| Identity.RunKeeps | src/acop/models/asset.py:164-182 | Over any run the indexes hold and no identifier ever changes asset, key or comes back to life |
| Identity.OneHolder | src/acop/models/asset.py:164-171 | In every reachable state a unique identifier has at most one live holder |
| IdentityAnswers.IdentityIsStable | src/acop/services/identity_resolver.py:93-189 | Whatever happens in between, a request whose unique identifiers were an asset's and are still live resolves to that asset |
| IdentityAnswers.ResolvesAlike | src/acop/services/identity_resolver.py:128-189 | Once a request resolved to an asset, a later one with a nonempty part of its still live unique identifiers resolves to the same |
| Identity.Resolver.FindMatches | src/acop/services/identity_resolver.py:93-126 | The loop maps each matching asset to the namespaces that matched |
| Identity.Resolver.AttachMissing | src/acop/services/identity_resolver.py:191-233 | The loop touches what the asset carried and inserts the rest, looking the carried ones up once |
| Identity.Resolver.Resolve | src/acop/services/identity_resolver.py:128-189 | Resolution as specified, or the tables as they were |
| Identity.Resolver.AttachIdentifier | src/acop/services/asset.py:223-284 | The identifier touched, refused as attached elsewhere, or inserted, or the table as it was |
| Identity.Resolver.Retire | src/acop/services/asset.py:286-294 | The identifier retired once, or the table as it was |
| Pagination.PageExactly | src/acop/services/asset.py:86-152 | A page is the ordered visible rows after its cursor up to the one it hands on, all of them when it hands on none, full when it does |
| Pagination.PagesUnderChange | src/acop/services/asset.py:98-103 | Whatever changes between pages: strictly ascending, no row twice, no row that was not there, every row present throughout exactly once |
| Pagination.PagesOfOneTable | src/acop/services/asset.py:137-152 | Over an unchanged table the pages are the sorted filtered list |
| Pagination.PagesEnd | src/acop/services/asset.py:146-152 | When finitely many rows ever match, next_cursor becomes null |
| Pagination.CursorRoundTrip | src/acop/services/asset.py:29-40 | A cursor decodes to the row it was made from |
| Relationships.EdgesOverRuns | src/acop/models/relationship.py:74-118 | Over every run no assertion or retirement is refused by a constraint, each source has one live row for an edge whatever the qualifier, endpoints are permitted and symmetric edges stored in order |
| Relationships.OneLive | src/acop/services/relationship.py:75-90 | At most one live row for (source, type, target, source_id) |
| Relationships.SwapStaysPermitted | src/acop/services/relationship.py:66-72 | The endpoints stored after the swap are still a permitted pair |
| Relationships.EitherDirectionIsOneEdge | src/acop/services/relationship.py:65-119 | Asserting a symmetric edge from either end leaves the same table and the same row |
| RelationshipAnswers.AssertRefusedExactly | src/acop/services/relationship.py:42-72 | An assertion is refused exactly for an edge to itself, an unknown asset, or a pair of types its type does not join |
| RelationshipAnswers.AssertRecordsTheEdge | src/acop/services/relationship.py:65-119 | An accepted one touches the live row with the same qualifier, or adds a row with the claim's type, stored ends, qualifier, source, confidence, class and first status, after closing the live row with another qualifier; every other row stays |
| RelationshipAnswers.RetireAnswersExactly | src/acop/services/relationship.py:121-129 | Closing is refused for what is unknown or closed, and else only ends the row |
| Relationships.NeighboursExactly | src/acop/services/relationship.py:159-212 | A neighbourhood is exactly the asset's live edges, once each, sorted |
| Relationships.EachEdgeIsSeenTwice | src/acop/services/relationship.py:184-210 | A live edge is one outbound line at its source under its label, one inbound line at its target under the inverse, and nowhere else |
| Relationships.RelationshipService.AssertRelationship | src/acop/services/relationship.py:32-119 | The edge touched, replaced or created as specified, or the table as it was |
| Relationships.RelationshipService.Retire | src/acop/services/relationship.py:121-129 | The edge closed, or the table as it was |
| Relationships.RelationshipService.CloseEdges | src/acop/services/asset.py:203-216 | The loop closes exactly the live edges at either end of the asset and counts them |
| Relationships.RelationshipService.ListNeighbours | src/acop/services/relationship.py:159-212 | The appending loop and the sort compute the neighbourhood |
| Redaction.RedactionHidesExactly | src/acop/core/redaction.py:53-74 | Two trees redact alike exactly when they agree outside sensitive keys and above depth 12 |
| Redaction.RedactedAgrees | src/acop/core/redaction.py:53-74 | The redacted tree is the original wherever it is neither under a sensitive key nor too deep |
| Redaction.SensitiveExactly | src/acop/core/redaction.py:47-50 | A key is sensitive exactly when a fragment stands somewhere in its lower case |
| Redaction.RedactIsIdempotent | src/acop/core/redaction.py:53-74 | Redacting twice redacts no more |
| Redaction.CollectedExactly | src/acop/services/value_screen.py:100-114 | The collector reports exactly the sensitive keys of objects at depth 12 or above |
| Redaction.MaskedAboveTheLimit | src/acop/core/redaction.py:53-66 | A sensitive key is masked where it stands exactly when that is above depth 12 |
| Redaction.ReportCoversMask | src/acop/services/value_screen.py:164-175 | Every masked key is reported; what is reported besides stands in objects at depth exactly 12 |
| Redaction.RedactedIsClean | src/acop/core/redaction.py:53-74 | No path into a redacted tree meets anything but the mask under a sensitive key |
| Redaction.StoredValuesAreClean | src/acop/services/value_screen.py:120-180 | What the screen accepts is stored redacted once and for all, and whatever was masked is named |
| Redaction.ScreenRefusesExactly | src/acop/services/value_screen.py:120-161 | The screen refuses exactly a predicate not known to be safe that has a secret-naming component between its dots, a text or a document that is too large |
| Redaction.ScreenStoresExactly | src/acop/services/value_screen.py:163-180 | A document let through is stored unchanged wherever redaction lets see, and the report lists its sensitive keys down to depth 12 in ascending order |
| Redaction.ComponentsOfJoin | src/acop/services/value_screen.py:71-86 | Splitting a dotted predicate gives back its components |
| Redaction.ComponentsExactly | src/acop/services/value_screen.py:71-86 | The components of a predicate are exactly the stretches without a dot that stand between dots or its ends |
| Redaction.CollectRedactedKeys | src/acop/services/value_screen.py:100-114 | The recursive loops collect the specified names |

## Left out

- SHA-256, base64, ISO timestamps and UUID texts are abstract: a collision-free function, and renderings with an inverse.
- Pydantic validation appears as its outcome, a value of the input model's type; validators that narrow or rewrite values are not modelled, nor what a computed field computes beyond its type. A model is its fields by attribute, alias and type: tuples, discriminators, restricted dict keys, titles, defaults and `required` in the generated schema are left out, and a type with a custom serializer is a free type. An excluded field is one that is not written.
- str.lower() and the digits of a regular expression are parameters; of several forbidden fields, which one an error names is not modelled.
- How far back a worker's gate read the binding, the lifecycle and the approvals is not bounded: a disable that commits between that read and the adapter call is not seen by the launch, as in the source.
- Equality of stored and incoming JSON is a parameter, `Ledger.Equality`: it stands for the JSONB round trip and Python's comparison of dicts, for which 1, 1.0 and true are equal. What text, timestamps and numbers a column cannot store (a NUL character, NaN inside a JSON document) is not modelled.
- What a JSONB column gives back for the input and target an invocation stored is a parameter of `ChangeControl.TermsOf`; that it is what was stored is a condition of `ChangeControl.FinalGateExactly`, not an assumption.
- json.dumps on values it raises TypeError for, dicts with keys that are not strings, and lone surrogates.
- Row ids are positions or given numbers instead of random UUIDs; last_seen columns that no other rule reads are kept only where a step's report depends on them.
- A desired fact's derived_from_fact_id is not kept.
- A fact's typed value columns and their discriminator are one sum type, so the value_exclusive and value_type_matches CHECKs hold by construction; predicate, namespace and length patterns are not modelled, nor the width of integer columns.
- The rendering `str()` that conflict summaries use is a parameter; a fact's unit plays no part in value equality, as in the source.
- Text is compared code point by code point where PostgreSQL would use its collation.
- `Retirement` joins the facts' and the edges' part of retiring an asset; merging assets, and identifiers, are not part of it.
- The services of `InvocationService` are functions on values; the row and log they write are updated in place by the methods of `InvocationMachine.Store`.
- One reading of the clock stands for the several a single call may take; approval rows are stamped with the decision's.
- Edges carry no verified or approved attribution, since no service of these parts writes it.
- Tuples count as lists and sets inside redacted values are not modelled; str.lower() is a parameter of key matching.
- The identifier filter of the asset listing, the prefix search and the other filters are one arbitrary predicate on rows.
- Identifier normalisers are one arbitrary function; that they are idempotent is not claimed, and does not hold for host names such as `a. .`.
- A dispatch that raises, is cancelled at its deadline or dies with its worker is one that does not commit: that it launched is counted, what its adapter had done by then is outside the model. A worker that dies before its dispatch does not appear.
- What makes the reaper and the sweeper pick a candidate: they may try at any time, on any state and lease they once read.
- Adapter retries within one dispatch, timeouts and validation probes are the outcome a dispatch reports.
- Who may cancel or reconcile; approval justifications, audit records, log lines, HTTP routes, sessions' plumbing, settings, health probes, the model client and knowledge ingestion.
- An invocation's foreign keys and target CHECKs, idempotency replay and its unique index.
- Launches.AtMostOneLaunch: takes it that no two dispatches share a lease id, because the id is drawn anew for each claim and the claim's worker dispatches once.
- InvocationMachine.ProtocolOverRuns: chains the events that move the row, because a gate note or the event of a lost transition may name an older state; when the whole log chains is InvocationMachine.LogChainsExactly.
