# Control-plane protocols: a Dafny model

This project models the database-backed protocols of the platform orchestrator's control plane and
proves what every run of them keeps. Each transaction is one or more atomic steps over an explicit
store; a run is any sequence of steps; main results quantify over all runs, all
states reachable by them, or all inputs.

- **Extension resource journal.** Writers append events under a per-organization head cursor,
  subscription changes pause and restart journaling with a gap cursor, readers page by cursor,
  acknowledgements move forward, pruning removes an old prefix. `ExtensionJournal.dfy` holds
  the state machine with the history of *all* committed changes, journaled or not; `JournalStore.dfy` the
  rows as the statements change them; `JournalGroups.dfy` the grouping of a flush;
  `JournalLocks.dfy` the interleaving of whole transactions with their locks, which refines the
  atomic machine and has no deadlock; `JournalTransactions.dfy` the transaction wrapper; `JournalAnswers.dfy` what each
  operation answers and writes, said of the stored rows alone.
- **Observation and redeployment admission.** `ObservationAdmission.dfy` is the intent-then-effect
  protocol with processes that interleave, crash and lose their sessions, and with a log of
  everything sent; `ObservationHandlers.dfy` the two transactions of each handler, shown to be runs of it from any store;
  `ObservationGrants.dfy` grant commands, receipts and the target index; `ObservationAnswers.dfy` what each transaction decides and
  where every stored answer comes from.
- **Deployment admission, epochs and Pins.** `AdmissionRequests.dfy` (canonical form and validation),
  `AdmissionDecision.dfy` (the lifecycle walk), `DeploymentAdmission.dfy` (guards, epochs, Pins,
  dispatches, Environments as one state machine with an inductive invariant), `AdmissionRuns.dfy` (what
  holds over every run), `AdmissionStore.dfy` (the tables as the transactions change them), `AdmissionAnswers.dfy` (each step by the
  fields it reads and writes, and what precedes a destroy), and `EnvironmentDeletion.dfy` (the guarded row update and its handlers).
- **Self-contained cores.** `Cbor.dfy`, `Entitlements.dfy` and `KeySelection.dfy` (offline
  entitlements), `ReleaseContent.dfy` (gzip and tar splitting) and `ReleaseGrammar.dfy` (the same formats stated from outside the
  scanners), `RuleSelection.dfy` (Module rules).

`Base.dfy` holds result types, bytes and their order. `dafny verify dfyconfig.toml` checks everything.

## Findings

Four promises are not met by the code as written. Each is given with a run or an input that shows it, and with the
exact condition under which it does hold.

- A request can still be sent for an admission whose closure has committed. The admission lock is a transaction-level
  advisory lock; the database releases it when the session that holds it is lost, and a process that loses its session between
  its last check and its call does not notice. `ObservationAdmission.LostSessionSendsLate` is such a run;
  `ObservationAdmission.LateSendExactly` says that a late send is possible exactly if such a process exists. "Not started" without an
  original actor is true even then.
- The guarded UPDATE of an environment row does not by itself tie force to the deleting status
  (`EnvironmentDeletion.BarePolicyBreaksForce`); it does exactly for patches that leave a forced row deleting
  (`EnvironmentDeletion.UpdateKeepsExactly`), which every handler's patch does.
- Recovery of a withdrawn dispatch takes no barrier, so a dispatch can be unresolved beside an unresolved admission:
  `AdmissionRuns.RecoveryCrosses` is a run from the empty tables. `AdmissionRuns.RunCrossesExactly` says that a run passes through
  such a state if and only if one of its steps recovers an unrecorded dispatch while an admission is unresolved there;
  by `AdmissionRuns.OneUnresolved` the dispatch is then withdrawn, never open.
- The epoch is to precede all remote evidence for restoring protection (internal/model/environment_admission.go:61), but the restore and
  reconcile handlers read their Deployment before it (internal/api/module_version_management.go:1388, 1404).
  `AdmissionRuns.RestoreMissesAdmission` is a run in which an admission starts and finishes between the two reads and the Pin is
  restored; `AdmissionRuns.EarlyEvidenceExactly` says that an admission goes unseen exactly if it was inserted before the epoch was
  read. The snapshot that the handlers read afterwards is inside the window.

One promise rests on an order that the code leaves to its caller: registering a plugin locks the journals of its organizations in the
order of the list it is given (internal/model/plugin_manager.go:661-665), a writer in byte order. `JournalLocks.DeadlockExactly` says that a change over
the two organizations of a writer can deadlock with it if and only if it takes them in the other order.

## Model

| member | source | states |
|---|---|---|
| `ExtensionJournal.StepInv` | internal/model/extension_events.go:111-275 | every step, from writer commits to prunes, keeps the invariant that ties head, gap, boundary and stored rows to the history of all changes |
| `ExtensionJournal.RunInv` | internal/model/extension_events.go:111-275 | the same over every run |
| `ExtensionJournal.GapSound` | internal/model/extension_events.go:169-223 | while an organization journals, no change after a cursor at or above its horizon went unjournaled |
| `ExtensionJournal.FreshStartHasNoReaders` | internal/model/extension_events.go:198-223 | a start without a gap cursor happens only where no read ever succeeded, so no cursor was issued that it could invalidate |
| `ExtensionJournal.PageExact` | internal/model/extension_events.go:290-370 | a page is exactly the in-scope changes of the history, journaled or not, between its start and its next cursor, where the start is the given cursor or else the greater of the boundary and the gap; a page that is not full reaches the end |
| `ExtensionJournal.JournalComplete` | internal/model/extension_events.go:290-370 | whatever runs between them, a chain of successful reads receives exactly the in-scope changes committed from its first start, the given cursor or else the greater of the boundary and the gap then, to its last cursor, in commit order, none missing and none twice |
| `ExtensionJournal.RunContinues` | internal/model/extension_events.go:260-275 | history is only appended to, and a cursor once issued keeps its position |
| `ExtensionJournal.PruneExact` | internal/model/extension_events.go:519-576 | a prune removes a prefix of at most the batch, as long as it can be, and stored entries are again exactly the journaled ones above the boundary |
| `ExtensionJournal.RetentionSafe` | internal/model/extension_events.go:519-576 | whatever runs between reading the acknowledgements and deleting, each removed entry is older than the window and strictly below every counted consumer's acknowledgement |
| `ExtensionJournal.AcknowledgementKept` | internal/model/extension_events.go:479-487 | an acknowledgement at or above the boundary stays so in every run whose prunes start while its plugin is subscribed and its operation reconciles |
| `ExtensionJournal.AcksWithinHead` | internal/model/extension_events.go:387-404 | no run acknowledges a cursor that was never issued |
| `JournalAnswers.PageContents` | internal/model/extension_events.go:290-370 | a page said of the stored rows: after the given cursor, or without one after the gap, it holds exactly the stored entries up to its next cursor that concern the scope, in order; full and ending at its last entry, or ending at the head |
| `JournalAnswers.FreshReadComplete` | internal/model/extension_events.go:355-370 | a fresh read that is not full holds every stored entry of its scope if and only if none lies at or below the gap |
| `JournalAnswers.ReadErrors` | internal/model/extension_events.go:290-370 | each error of a read by its condition, and success exactly where none holds |
| `JournalAnswers.ScopeExactly` | internal/model/extension_events.go:315-353 | an event concerns a scope exactly if it names an Environment or a Module and only ones of the scope |
| `JournalAnswers.AcknowledgedExactly` | internal/model/extension_events.go:387-404 | an accepted acknowledgement is recorded unless a later one is; no other consumer changes |
| `JournalAnswers.SubscriptionDecides` | internal/model/extension_events.go:169-223 | after a subscription change journaling is on exactly if somebody is subscribed; a restart takes the next cursor as its gap, a pause keeps the gap |
| `JournalAnswers.StartupDecides` | internal/model/extension_events.go:229-258 | the same for start-up with and without a plugin host |
| `JournalAnswers.CommitWrites` | internal/model/extension_events.go:127-147 | a commit while journaling writes one row per event in order, with the next cursor, the event and its time; otherwise none |
| `JournalAnswers.BoundExactly` | internal/model/extension_events.go:519-576 | the retention bound is at most the acknowledgement of every consumer whose plugin is subscribed and whose operation reads events and is not released, or was within the window |
| `JournalAnswers.BoundWitness` | internal/model/extension_events.go:519-576 | and it is the acknowledgement of one of them; without one there is no bound |
| `JournalAnswers.PruneTakesInputs` | internal/model/extension_events.go:519-576 | a prune removes only entries older than the window and strictly below that bound |
| `JournalStore.OrganizationJournal.constructor` | internal/model/extension_events.go:198-223 | an organization nobody subscribed to satisfies the invariant |
| `JournalStore.OrganizationJournal.AdvanceHead` | internal/model/extension_events.go:260-275 | the next cursor, one above the last, becomes the head |
| `JournalStore.OrganizationJournal.JournalEvent` | internal/model/extension_events.go:260-275 | one event takes the next cursor and one row |
| `JournalStore.OrganizationJournal.FlushEntries` | internal/model/extension_events.go:127-147 | an organization's events are all journaled in order, or none is |
| `JournalStore.OrganizationJournal.PauseJournal` | internal/model/extension_events.go:185-192 | pausing keeps a gap row for an organization that has a head |
| `JournalStore.OrganizationJournal.StartJournal` | internal/model/extension_events.go:198-223 | starting takes a gap cursor unless the organization has neither a row nor a head |
| `JournalStore.OrganizationJournal.SyncJournal` | internal/model/extension_events.go:169-181 | journaling follows the subscriptions |
| `JournalStore.OrganizationJournal.ChangeSubscription` | internal/model/extension_events.go:169-181 | a subscription change is the state machine's step |
| `JournalStore.OrganizationJournal.Reconcile` | internal/model/extension_events.go:229-258 | start-up is the state machine's step, with and without a plugin host |
| `JournalStore.OrganizationJournal.Acknowledge` | internal/model/extension_events.go:387-404 | an acknowledgement only moves forward and never beyond the head |
| `JournalStore.OrganizationJournal.ReadPage` | internal/model/extension_events.go:290-353 | the scan with LIMIT returns the state machine's page, with its errors |
| `JournalStore.ScanPage` | internal/model/extension_events.go:315-353 | a scan that stops at the limit yields the first matching rows and the cursor of the last |
| `JournalStore.MatchingIsPageRows` | internal/model/extension_events.go:315-353 | the rows the query selects are those of the abstract page |
| `JournalStore.OrganizationJournal.LowestAck` | internal/model/extension_events.go:519-576 | the bound is the least acknowledgement of the counted consumers, if there is one |
| `JournalStore.ScanPrunable` | internal/model/extension_events.go:519-576 | the window over the first candidates is the longest prunable prefix within the batch |
| `JournalStore.OrganizationJournal.PruneOrganization` | internal/model/extension_events.go:519-576 | an uninterrupted prune is a begin and a finish step |
| `JournalGroups.SortStableIsStable` | internal/model/extension_events.go:111-122 | the sort orders by organization and keeps each organization's event order |
| `JournalGroups.JournalOrganizations` | internal/model/extension_events.go:111-122 | the groups are in strictly increasing organization order and partition the events, each with its organization's events in order |
| `JournalLocks.InstallIsStep` | internal/model/extension_events.go:127-147 | what a transaction decided under its locks, installed at commit, is one atomic step |
| `JournalLocks.MoveKeepsLocks` | internal/model/extension_events.go:155-162 | every move keeps: no two transactions hold conflicting locks, and what each decided still follows from the committed rows |
| `JournalLocks.InterleavingsAreRuns` | internal/model/extension_events.go:127-162 | however transactions interleave, block, crash and commit, each organization's rows are the outcome of a run of atomic steps |
| `JournalLocks.SnapshotContiguous` | internal/model/extension_events.go:260-275 | a snapshot with a head holds every cursor up to it that is not pruned, as an entry or as a gap mark |
| `JournalLocks.OutboxWithJournal` | internal/model/databaser.go:253-292 | a commit adds its outbox messages and, to every organization's history, exactly the journal events among them in order; any other move adds to neither |
| `JournalLocks.BlockedOrEnabled` | internal/model/extension_events.go:155-162 | a transaction can move exactly when no other holds the lock it asks for |
| `JournalLocks.NoDeadlock` | internal/model/extension_events.go:111-162 | if every transaction works in increasing organization order the wait graph has no cycle |
| `JournalLocks.SomeoneMoves` | internal/model/extension_events.go:111-162 | and while any transaction is open, some transaction can move |
| `JournalLocks.GroupsInOrder` | internal/model/extension_events.go:111-147 | a flushing writer works in that order and writes exactly its messages' journal events |
| `JournalLocks.OppositeOrdersDeadlock` | internal/model/plugin_manager.go:661-665 | from any committed rows a writer over any two organizations and a subscription change that takes them in the other order reach a state in which each waits for the other |
| `JournalLocks.DeadlockExactly` | internal/model/extension_events.go:155-181 | a subscription change over a writer's two organizations can deadlock with it, in some interleaving, if and only if it takes them in decreasing order |
| `JournalLocks.OrderedNeverFace` | internal/model/extension_events.go:111-162 | two transactions in increasing order never block each other |
| `JournalTransactions.FlushJournal` | internal/model/extension_events.go:127-147 | the flush changes each organization by exactly its own events |
| `JournalTransactions.JournalTransaction.constructor` | internal/model/databaser.go:245-251 | a new transaction keeps back no journal entries |
| `JournalTransactions.JournalTransaction.InsertPendingEventMessages` | internal/model/databaser.go:253-265 | what is kept back is the journal events of the staged messages; a finalized transaction refuses |
| `JournalTransactions.JournalTransaction.Commit` | internal/model/databaser.go:267-281 | outbox rows and journal entries become visible together, or on any failure neither does |
| `JournalTransactions.JournalTransaction.Rollback` | internal/model/databaser.go:283-292 | a transaction is finalized once |
| `ObservationAdmission.MoveKeeps` | internal/api/plugin_observations.go:144-250 | every move of every process keeps the invariant on locks, rows, closures, grants and the log |
| `ObservationAdmission.RunKeeps` | internal/api/plugin_observations.go:144-250 | the same over every run |
| `ObservationAdmission.KeepGrant` | internal/model/environment_observation.go:74-174 | a grant command, which needs the grant's row, cannot change what any transaction in flight was authorized by |
| `ObservationAdmission.SendNow` | internal/api/plugin_observations.go:144-250 | a request started now is the committed row's in digest, actor and grant revision, or run and observed request; with a live session the admission lock is held, the admission is neither closed nor answered, and an observation's grant has as its latest command a selection of the exact target, under the request's revision, by its actor, not expired at the last check |
| `ObservationAdmission.AuthorizedExactly` | internal/model/environment_observation_authority.go:20-38 | an observation is authorized exactly while the latest command of its grant issued its revision, selects its target, is by its actor and has not expired |
| `ObservationAdmission.SendDiscipline` | internal/api/plugin_observations.go:452-494 | in every run each send follows the one committed row of its id with its digest and actor, and unless its session was lost no closure and no stored response of that id precedes it |
| `ObservationAdmission.NotStartedIsTrue` | internal/api/plugin_observation_recovery.go:68-154 | a closure without original actor is true of the whole run, crashes and lost sessions included: nothing was or will be sent for its id, no request is ever recorded, and its answer never changes |
| `ObservationAdmission.NeverStranded` | internal/api/plugin_observation_recovery.go:129-154 | a closure without an answer always names the actor and digest of a recorded request |
| `ObservationAdmission.RunExtends` | internal/model/environment_observation_recovery.go:67-96 | no run takes back a row, a stored response, a closure's identity or its answer |
| `ObservationAdmission.LateSendExactly` | internal/model/migrations/000053_observation_recovery.sql:36-46 | for a closed or answered admission something can still be sent if and only if a process is between its last check and its call, and such a process has lost its session |
| `ObservationAdmission.LostSessionSendsLate` | internal/model/environment_observation_recovery.go:28-49 | a concrete run that sends after its closure committed |
| `ObservationAnswers.IntentDecides` | internal/model/environment_observation.go:220-235 | an intent is recorded exactly for an open admission, under current authority, and unless its id names another request in some identifying field |
| `ObservationAnswers.CallDecides` | internal/api/plugin_observations.go:212-228 | the call is made exactly for a recorded, open, unanswered admission under authority that is current again |
| `ObservationAnswers.CloseDecides` | internal/api/plugin_observation_recovery.go:75-128 | a closing goes ahead exactly for the stored closure or else the stored request of the same digest and run; with neither only within scope |
| `ObservationAnswers.AnswersAreGiven` | internal/model/environment_observation.go:237-240 | in every run a stored response was brought to its own id by a call, an accepted ruling or a look-up, and the log carries that response and no other |
| `ObservationAnswers.FirstAnswerStays` | internal/model/environment_observation.go:237-240 | what is first given to an unanswered observation is what it answers at the end of every run |
| `ObservationAnswers.ReplayAnswersSame` | internal/api/plugin_observations.go:223-245 | once a call was answered r the stored response is r whatever happens afterwards, and no later call of that request is made |
| `ObservationAnswers.SettlementsAreGiven` | internal/model/environment_observation_recovery.go:90-96 | in every run an answered closure was settled by one move: locally as not started while nothing was recorded, or by a ruling whose acceptance is its state |
| `ObservationAnswers.SettlementStays` | internal/model/environment_observation_recovery.go:90-96 | and that settlement is there at the end of every run |
| `ObservationHandlers.IntentRuns` | internal/api/plugin_observations.go:196-215 | the intent transaction, from any store in which its locks are free, is a run of its process's moves, and a refusal leaves nothing |
| `ObservationHandlers.CallRuns` | internal/api/plugin_observations.go:217-249 | so is the effect transaction, whatever happened since the intent committed |
| `ObservationHandlers.ClosingRuns` | internal/api/plugin_observation_recovery.go:68-135 | so is the closing transaction |
| `ObservationHandlers.RulingRuns` | internal/api/plugin_observation_recovery.go:137-191 | so is the resolving transaction |
| `ObservationHandlers.AdmissionStore.constructor` | internal/model/environment_observation_recovery.go:28-96 | an empty store |
| `ObservationHandlers.AdmissionStore.RecordIntent` | internal/model/environment_observation.go:220-275 | the row is inserted once, under current authority and an open admission; another request under its id is refused; nothing else changes |
| `ObservationHandlers.AdmissionStore.CallDataPlane` | internal/api/plugin_observations.go:217-249 | the admission, the authority and the row are checked again as they are now; the call is made exactly if they pass and no response is stored, and is logged before any answer; the answer returned is the one stored on the observation's row, and no other row changes |
| `ObservationHandlers.AdmissionStore.CommitClosure` | internal/api/plugin_observation_recovery.go:75-128 | the closure takes the stored request's actor, or is settled at once with the local answer where there is none; out of scope nothing is closed that is not recorded |
| `ObservationHandlers.AdmissionStore.ResolveClosure` | internal/api/plugin_observation_recovery.go:137-262 | the stored answer is returned, or the ruling's own response and verdict are stored on the closure and, if accepted, on an unanswered observation; without a ruling it is unavailable only for a recorded request whose actor it names |
| `ObservationGrants.DoKeeps` | internal/model/environment_observation.go:74-174 | every command, accepted, refused or replayed, keeps grants, index and receipts consistent |
| `ObservationGrants.RunKeeps` | internal/model/environment_observation.go:74-174 | the same over every run; receipts stay and revisions only grow |
| `ObservationGrants.IndexAgrees` | internal/model/environment_observation_authority.go:22-38 | in every reachable store the indexed check equals the check on the full list, for every grant, revision, target and time, except exactly on the nil pair under a current revision |
| `ObservationGrants.IndexedExactly` | internal/model/environment_observation_authority.go:20-38 | in every reachable store the indexed check passes if and only if the latest command of the grant issued that revision, is a selection naming the target, and has not expired |
| `ObservationGrants.GrantIsLatestCommand` | internal/model/environment_observation.go:142-152 | in every reachable store a grant is field by field what the command with the greatest revision asked for |
| `ObservationGrants.DecideExactly` | internal/model/environment_observation.go:74-141 | a command is accepted exactly if well formed and either answered before as itself, or new with the current revision, distinct targets in their own Projects and a request its actor has not used; and the two errors that are no conflict |
| `ObservationGrants.CommandApplied` | internal/model/environment_observation.go:142-173 | a new accepted command raises the revision by one, indexes exactly its targets, and leaves every other grant, receipt and entry |
| `ObservationGrants.IndexIsHistory` | internal/model/environment_observation_authority.go:20-32 | a target is indexed under a revision if and only if the command that issued that revision selected it, whatever happened since |
| `ObservationGrants.RevisionsIssuedOnce` | internal/model/environment_observation.go:110-145 | the revisions of a grant are 1 up to the current one, each issued by exactly one command |
| `ObservationGrants.ReplayChangesNothing` | internal/model/environment_observation.go:92-111 | an answered command is answered the same in every later store where it is acceptable, changes nothing and revives no superseded revision |
| `ObservationGrants.SupersededForever` | internal/model/environment_observation.go:176-189 | a revision that is not current never is again |
| `ObservationGrants.GrantStore.constructor` | internal/model/environment_observation.go:74-174 | an empty store |
| `ObservationGrants.GrantStore.CheckTargets` | internal/model/environment_observation.go:118-128 | the scan with a set of seen Environments accepts exactly non-nil targets of distinct Environments |
| `ObservationGrants.GrantStore.CountTargets` | internal/model/environment_observation.go:129-141 | some target is missing, or has moved to another Project, exactly if its count is positive |
| `ObservationGrants.GrantStore.ResolveTargets` | internal/model/environment_observation.go:118-141 | the first failing check on the targets |
| `ObservationGrants.GrantStore.RecordCommand` | internal/model/environment_observation.go:142-173 | grant, index and receipt are written together or, if the actor used this request identity before, not at all |
| `ObservationGrants.GrantStore.ApplyCommand` | internal/model/environment_observation.go:74-174 | the handler decides and writes as the specification does, and keeps the invariant |
| `AdmissionRequests.Sort` | internal/model/environment_admission.go:158-165 | sorted, and the same confirmations with the same multiplicity |
| `AdmissionRequests.SortedIsUnique` | internal/model/environment_admission.go:158-165 | two sorted lists of the same confirmations are equal |
| `AdmissionRequests.CanonicalExactly` | internal/model/environment_admission.go:145-166 | two requests have one canonical form if and only if they differ at most in confirmation order and nil versus empty collections |
| `AdmissionRequests.CanonicalIdempotent` | internal/model/environment_admission.go:145-166 | a stored intent is its own canonical form |
| `AdmissionRequests.Validate` | internal/model/environment_admission.go:102-143 | the loops over maps and confirmations accept exactly the valid requests |
| `AdmissionRequests.ValidityOfIntent` | internal/model/environment_admission.go:102-166 | validity does not depend on confirmation order or on nil versus empty |
| `AdmissionDecision.WalkExactly` | internal/model/environment_admission.go:252-315 | the loop that deletes confirmations passes, in any order, if and only if every Module is permitted by itself and every Defective target confirmed, and leaves the confirmations that name none |
| `AdmissionDecision.VerdictExactly` | internal/model/environment_admission.go:246-318 | the decision passes if and only if every Module is permitted and the confirmations are exactly the Defective published targets |
| `AdmissionDecision.VerdictMeans` | internal/model/environment_admission.go:256-315 | what a passed decision implies for Defective, Deprecated and archived targets and for draft tests |
| `AdmissionDecision.CheckLifecycle` | internal/model/environment_admission.go:252-318 | the loop over the sorted Modules returns that decision, with the error of the first failing Module |
| `DeploymentAdmission.DoKeeps` | internal/model/environment_admission.go:176-439 | every step on guards, epochs, Pins, dispatches, Environments and catalogue keeps the invariant |
| `DeploymentAdmission.KeepSetPin` | internal/model/module_version_pins.go:183-269 | a Pin may become protected only past the barrier on a free Module; one that is protected keeps its Module and Version |
| `DeploymentAdmission.KeepInsertGuard` | internal/model/environment_admission.go:322-336 | a new guard past the barrier that preserves the Pins keeps all invariants; a sealed one needs neither |
| `DeploymentAdmission.RunKeeps` | internal/model/environment_admission.go:176-439 | the invariant holds over every run |
| `AdmissionRuns.OneUnresolved` | internal/model/external_operation_dispatch.go:190-205 | at most one unresolved admission per Environment, with no open dispatch beside it |
| `AdmissionRuns.StepCrossesExactly` | internal/model/external_dispatch_recovery.go:69-88 | one step leaves a dispatch unresolved beside an unresolved admission, where there was none, if and only if it recovers an unrecorded dispatch there |
| `AdmissionRuns.RunCrossesExactly` | internal/model/external_dispatch_recovery.go:69-88 | a run from the empty tables passes through such a state if and only if one of its steps is such a recovery |
| `AdmissionRuns.RecoveryCrosses` | internal/model/external_dispatch_recovery.go:69-88 | a run from the empty tables that does |
| `AdmissionRuns.IdentityKept` | internal/model/environment_admission.go:346-439 | each id keeps its intent, its epoch, which no other guard of its Environment shares, and its outcome |
| `AdmissionRuns.SettledIsFinal` | internal/model/environment_admission.go:343-439 | a settled or sealed id is refused in every later state, whatever request uses it, and only its own outcome can be settled or sealed again |
| `AdmissionRuns.ReplayOnly` | internal/model/environment_admission.go:200-211 | in every later state a request with an authorized id is answered only if it is the same intent, with the same receipt and epoch and no change |
| `AdmissionRuns.AuthorizedExactly` | internal/model/environment_admission.go:184-318 | an authorization succeeds if and only if the request is valid, new past the barrier or the same unresolved intent, its Environment is a row of its Project, a destroy finds that row deleting with a policy without force, the Pins are preserved, only permitted Modules occur and exactly the Defective targets are confirmed |
| `AdmissionRuns.ReceiptsAreGuards` | internal/model/environment_admission.go:168-174 | every receipt of authorize, settle and seal states the guard as stored after it |
| `AdmissionRuns.VersionUsedUp` | internal/model/module_version_pins.go:206-216 | once a Pin moved, no step that expects the version it had can change anything in any later state |
| `AdmissionRuns.EpochTells` | internal/model/environment_admission.go:95-100 | an epoch is the same at two points of a run if and only if no admission and no dispatch was inserted between them |
| `AdmissionRuns.EpochWindow` | internal/model/environment_admission.go:61-93 | checking an epoch read earlier succeeds if and only if nothing was inserted since, finished or not, and nothing is unresolved |
| `AdmissionRuns.PinProtectionHolds` | internal/model/environment_admission.go:231-245 | in every reachable state an unresolved non-destroy admission maps the Module of every active or override-pending Pin of its Environment to its Version, and no Module has two such Pins |
| `AdmissionRuns.PinsRestOnEvidence` | internal/api/module_version_management.go:1004-1034 | a Pin created or restored on an epoch read before its snapshot saw no admission inserted in between and none unresolved |
| `AdmissionRuns.EarlyEvidenceExactly` | internal/api/module_version_management.go:1388-1420 | evidence read before the epoch: where the check passes, an admission inserted since that evidence went unseen if and only if it was inserted before the epoch was read, that is if the epoch differs between the two reads |
| `AdmissionRuns.RestoreMissesAdmission` | internal/api/module_version_management.go:1388-1420 | a run from the empty tables in which an admission starts and finishes between the two reads and the Pin is restored |
| `AdmissionRuns.AuthorizedLifecycle` | internal/model/environment_admission.go:246-318 | a successful authorization confirmed exactly the Defective targets; each Defective or Deprecated one is actively pinned here or a rollback, and each retained draft test succeeded in an earlier admission here |
| `AdmissionRuns.ForcedNeverDestroys` | internal/model/environment_admission.go:220-230 | once force is recorded no destroy of that Environment, new or replayed, is ever authorized |
| `AdmissionAnswers.DestroyFollowsDeletion` | internal/model/environment_admission.go:220-230 | in every run an unresolved destroy was authorized after an accepted deletion of its Environment without force |
| `AdmissionAnswers.ValidExactly` | internal/model/environment_admission.go:102-143 | a request is valid exactly under these conditions on its own fields |
| `AdmissionAnswers.ModulePermittedExactly` | internal/model/environment_admission.go:252-315 | a Module is permitted exactly by existence, archiving, lifecycle, Pin, rollback, carrying and policy as listed, and is not found exactly so |
| `AdmissionAnswers.ExecutedExactly` | internal/model/environment_admission.go:270-285 | a draft test counts as executed exactly if a succeeded admission of this Environment ran it |
| `AdmissionAnswers.ActivePinsExactly` | internal/model/environment_admission.go:246-251 | a Module counts as pinned to a Version exactly if an active Pin of this Environment says so |
| `AdmissionAnswers.RefusalsMean` | internal/model/environment_admission.go:184-245 | what each refusal before the lifecycle decision says about guards, barrier, Environment and Pins |
| `AdmissionAnswers.SettledExactly` | internal/model/environment_admission.go:346-382 | a settlement is accepted exactly for the stored project, Environment and digest and no other outcome, and stores the outcome given on that guard alone |
| `AdmissionAnswers.SealedExactly` | internal/model/environment_admission.go:387-439 | sealing is accepted exactly for a new id or the same intent without another outcome, and records absence alone |
| `AdmissionAnswers.EpochErrors` | internal/model/environment_admission.go:78-93 | each error of an epoch check by its condition |
| `AdmissionAnswers.PinCreatedExactly` | internal/model/module_version_pins.go:131-181 | a Pin is created exactly on the epoch read before, past the barrier, for an existing Version that is not Defective without confirmation, on a Module without a protected Pin; and what it then says |
| `AdmissionAnswers.PinMovedMeans` | internal/model/module_version_pins.go:183-269 | an accepted move had the expected version, a legal transition, the owning operation and its evidence, and wrote exactly that |
| `AdmissionAnswers.PinMoves` | internal/model/module_version_pins.go:183-269 | and a move with all of these is accepted unless another Pin of the Module is protected |
| `AdmissionAnswers.DispatchesExactly` | internal/model/external_operation_dispatch.go:166-183 | what recording, recovering, withdrawing and completing leave of a dispatch |
| `AdmissionAnswers.EnvironmentChanges` | internal/api/envs.go:476-552 | removing an Environment ends every Pin of it and no other; other changes of an Environment leave Pins, guards, epochs and dispatches alone |
| `AdmissionStore.Tables.constructor` | internal/model/migrations/000036_environment_admission_guards.sql:2-21 | empty tables satisfy the invariant |
| `AdmissionStore.Tables.CheckPins` | internal/model/environment_admission.go:231-245 | the scan that stops at the first Pin decides whether all are preserved |
| `AdmissionStore.Tables.CollectActivePins` | internal/model/environment_admission.go:246-251 | the map built Pin by Pin is that of the active Pins |
| `AdmissionStore.Tables.AdvanceEpoch` | internal/model/environment_admission.go:95-100 | the epoch grows by one from zero |
| `AdmissionStore.Tables.Decide` | internal/model/environment_admission.go:184-318 | the statements find the first failing check of the specification |
| `AdmissionStore.Tables.AuthorizeAdmission` | internal/model/environment_admission.go:176-341 | receipt, error and new tables are those of the authorize step |
| `AdmissionStore.Tables.SettleAdmission` | internal/model/environment_admission.go:346-382 | receipt, error and new tables are those of the settle step |
| `AdmissionStore.Tables.SealAdmission` | internal/model/environment_admission.go:387-439 | receipt, error and new tables are those of the seal step |
| `AdmissionStore.Tables.CreatePin` | internal/model/module_version_pins.go:131-181 | the epoch check, the barrier and the unique index decide as the step does, and the invariant stays |
| `AdmissionStore.Tables.MovePin` | internal/model/module_version_pins.go:183-269 | begin, reconcile, restore and removal are this one transition, with its errors, and the invariant stays |
| `EnvironmentDeletion.UpdateKeepsExactly` | internal/model/envs.go:346-366 | the guarded UPDATE keeps "force implies deleting" if and only if a patch that asks for force leaves the row deleting |
| `EnvironmentDeletion.BarePolicyBreaksForce` | internal/model/envs.go:346-366 | a patch with force and no status breaks it |
| `EnvironmentDeletion.RunKeeps` | internal/api/envs.go:208-268 | over every run of handlers force implies deleting, the two flags are set together and never unset or lowered, and no identity returns |
| `EnvironmentDeletion.ForceIsFinal` | internal/api/envs.go:231-246 | once force is recorded the row is deleting for as long as it exists |
| `EnvironmentDeletion.DeleteRecords` | internal/api/envs.go:208-268 | a delete is accepted exactly on an existing row without a pending override; it leaves the row deleting, with each flag set exactly if it asked for it or it was set before, and changes nothing else |
| `EnvironmentDeletion.ReportRecords` | internal/api/envs.go:555-606 | a report is refused exactly for an unknown status, a missing row, or another status than deleting on a forced row; and what it writes |
| `EnvironmentDeletion.OtherRecords` | internal/model/envs.go:346-366 | creating, renaming and changing the runner change that alone |
| `EnvironmentDeletion.RemoveRecords` | internal/api/envs.go:506-552 | a row is removed exactly with a recorded policy, or while active on a call that does not name the exact row, and without a pending override |
| `EnvironmentDeletion.FlagsOfStep` | internal/api/envs.go:208-268 | every accepted step but a delete of the row leaves both its flags as they were |
| `EnvironmentDeletion.ForceRecordedExactly` | internal/api/envs.go:231-246 | over every run force is recorded on a row if and only if some accepted delete of it asked for force |
| `EnvironmentDeletion.EnvironmentTable.constructor` | internal/model/migrations/000054_environment_deletion_policy.sql:2-3 | an empty table |
| `EnvironmentDeletion.EnvironmentTable.UpdateEnvironment` | internal/model/envs.go:328-374 | one row changes as the statement says, or an error says why not |
| `EnvironmentDeletion.EnvironmentTable.DeleteEnvironment` | internal/api/envs.go:208-268 | the handler's step, with the invariant kept |
| `EnvironmentDeletion.EnvironmentTable.ReportStatus` | internal/api/envs.go:555-606 | the handler's step, with the invariant kept |
| `Cbor.HeadRoundTrip` | internal/entitlements/verifier.go:125-142 | the shortest head reads back as its type and argument, whatever follows |
| `Cbor.RoundTrip` | internal/entitlements/verifier.go:125-142 | decoding undoes deterministic encoding of every item, whatever follows |
| `Cbor.EncodeInjective` | internal/entitlements/verifier.go:125-142 | different items have different encodings |
| `Cbor.EncodeShortest` | internal/entitlements/verifier.go:137-140 | the deterministic encoding is the unique shortest: every document that decodes to an item is longer, or is that encoding |
| `Cbor.AppendixA` | internal/entitlements/verifier.go:137-140 | examples of appendix A of RFC 8949: integers, byte and text strings |
| `Cbor.AppendixALists` | internal/entitlements/verifier.go:137-140 | more of them: an array and a map |
| `Cbor.LongHeadIsRead` | internal/entitlements/verifier.go:303-308 | the decoder alone accepts more than one spelling, so the comparison is needed |
| `Cbor.LabelsRoundTrip` | internal/entitlements/verifier.go:310-328 | fields of ascending labels read back to exactly their values |
| `Entitlements.GrantRoundTrip` | internal/entitlements/verifier.go:338-442 | decoding the encoding of any valid grant gives it back |
| `Entitlements.GrantAcceptedExactly` | internal/entitlements/verifier.go:338-442 | a payload is accepted with some claims if and only if they are valid and it is their deterministic encoding |
| `Entitlements.GrantsUnique` | internal/entitlements/verifier.go:429-441 | two accepted payloads are byte-identical exactly when their claims are equal |
| `Entitlements.GrantsMean` | internal/entitlements/verifier.go:338-442 | some payload is accepted with these claims exactly if issuer, identities, plugin, features, limit and times are as listed, without the regular expressions and adjacent comparisons of the decoder |
| `Entitlements.PluginIdExactly` | internal/entitlements/verifier.go:120-123 | a plugin identifier is two or more words joined by dots, in at most 255 bytes |
| `Entitlements.FirstClaims` | internal/entitlements/verifier.go:429-440 | which claim stands under each of the labels 1 to 8 |
| `Entitlements.LastClaims` | internal/entitlements/verifier.go:429-440 | and under 9 to 15 |
| `Entitlements.RevocationsAcceptedExactly` | internal/entitlements/verifier.go:444-495 | the same for revocation snapshots, with sorted unique identities up to the array bound |
| `Entitlements.RevocationsMean` | internal/entitlements/verifier.go:444-511 | some snapshot is accepted with these claims exactly if they are as listed, with up to 4096 distinct identities in order |
| `Entitlements.KeysDeterministic` | internal/entitlements/verifier.go:429-440 | the labels are in the bytewise order of their encodings |
| `Entitlements.EnvelopeAcceptedExactly` | internal/entitlements/verifier.go:244-290 | an envelope is accepted if and only if it is the deterministic encoding of key identifier, payload and signature within the size bound |
| `Entitlements.EnvelopeLayout` | internal/entitlements/verifier.go:276-283 | the bytes of an envelope and of its protected header |
| `Entitlements.EnvelopesMean` | internal/entitlements/verifier.go:244-290 | some envelope is accepted with these parts exactly if identifier and signature have their sizes and the whole is within the bound |
| `KeySelection.SelectKey` | internal/entitlements/verifier.go:542-571 | a key is selected exactly if the trust class is the mode's, every entry of the issuer allows the plugin, and the one candidate in all of them is usable |
| `KeySelection.SelectsExactly` | internal/entitlements/verifier.go:542-571 | a key is selected exactly if every entry of the issuer lists the plugin, no other place of the issuer carries the identifier, and it is a whole public key for the purpose at the signing time |
| `KeySelection.SelectionUnique` | internal/entitlements/verifier.go:546-570 | at most one key can be selected |
| `ReleaseContent.SplitPartitions` | scripts/release_content.py:16-86 | padding, headers, bodies and trailers partition the input exactly, in order; padding is zero and none precedes the first member |
| `ReleaseContent.MetadataIsTheRest` | scripts/release_content.py:23-28 | metadata is everything but the bodies |
| `ReleaseContent.Find` | scripts/release_content.py:56-62 | the bounded search finds the first zero byte or none that would fit |
| `ReleaseContent.ReadHeader` | scripts/release_content.py:44-67 | the bounded header scan finds the header's length, or there is none within the room left |
| `ReleaseContent.ReadMember` | scripts/release_content.py:68-78 | a limit of one more than the room left, so at least one, accepts exactly the whole members that fit |
| `ReleaseContent.ReadPart` | scripts/release_content.py:30-83 | one turn of the loop refuses, ends or passes one member, as the format and the bounds say |
| `ReleaseContent.DecodeGzipMembers` | scripts/release_content.py:16-86 | an input is accepted if and only if it splits into members with all three totals within bounds; outputs and metadata are those of the split; the loop terminates |
| `ReleaseGrammar.HeaderExactly` | scripts/release_content.py:44-67 | a header of some length is found exactly if the input starts with a well-formed member header of that length |
| `ReleaseGrammar.FlagsAre` | scripts/release_content.py:48-64 | each flag is its own binary digit |
| `ReleaseGrammar.ParseExactly` | scripts/release_content.py:30-83 | a split is found exactly if it is the input in order, each part a member where it stands, with zero padding that is never first; and then no other is |
| `ReleaseGrammar.AcceptsExactly` | scripts/release_content.py:16-86 | an input is accepted exactly if it has such a split of at least one member within the three bounds |
| `ReleaseGrammar.TotalsAre` | scripts/release_content.py:23-28 | outputs and metadata are those of the parts, one after another |
| `ReleaseGrammar.InOrderExactly` | scripts/release_content.py:330-365 | tar entries are in order exactly if sizes are not negative, bodies lie inside the stream one after another, and no name repeats |
| `ReleaseGrammar.FilesAre` | scripts/release_content.py:345-365 | the files are the entries that are regular files and not the root, in order |
| `ReleaseContent.WalkTar` | scripts/release_content.py:320-371 | entries are accepted if and only if sizes, names and offsets are in order; each body is where its entry says, each chunk is what lies between two bodies, and woven together they are the stream |
| `RuleSelection.CalculateSpecificity` | internal/api/catalogue.go:66-75 | the bits as a binary number |
| `RuleSelection.SpecificityIsLexicographic` | internal/api/catalogue.go:117-121 | a greater number means more specific in Environment, then Project, then Environment type |
| `RuleSelection.OnePerKind` | internal/api/catalogue.go:127-143 | exactly one rule is chosen per resource kind that has one, and no rule of its kind is more specific |
| `RuleSelection.FilteredRecordsWin` | internal/api/catalogue.go:96-143 | filtering the streamed records by the final maxima leaves the earliest rule of greatest specificity of each kind, in stream order |
| `RuleSelection.SelectMaximal` | internal/api/catalogue.go:130-143 | the filter and the set of definitions of what it keeps |
| `RuleSelection.SelectRules` | internal/api/catalogue.go:78-145 | for any page boundaries the result is exactly those rules, their definitions and the archived versions carried forward; it fails exactly if a rule names a missing Module or an archived one with several effective versions, with the error of the first such rule |
| `RuleSelection.ArchivedCarryForward` | internal/api/catalogue.go:147-160 | whatever the visiting order, the one effective version, none, or a conflict if there are several |
| `RuleSelection.CarryForwardUnique` | internal/api/catalogue.go:147-160 | exactly one outcome fits |
| `RuleSelection.EffectiveExactly` | internal/api/catalogue.go:147-160 | a version is effective exactly if the coordinate that joins it to the Module by its first "@" is active |
| `RuleSelection.EligibleExactly` | internal/api/catalogue.go:96-116 | a rule takes part exactly if its Module exists and is not archived, or is archived with one effective version; it fails exactly if its Module is missing, or archived with two |
| `RuleSelection.SelectedExactly` | internal/api/catalogue.go:78-145 | said of the stream itself: a rule is returned exactly if it is eligible, no eligible rule of its kind is more specific in Environment, Project and Environment type, and every earlier one is less so |
| `RuleSelection.PagesAreStream` | internal/api/catalogue.go:78-95 | pages only cut the stream |

## Left out

- PostgreSQL itself: row locks, advisory locks, snapshot reads and unique indexes behave as documented; distinct advisory keys do not collide.
- 64-bit overflow of cursors, epochs, revisions and sequences: they are unbounded here.
- HTTP handlers, error texts, IAM, entitlement guards, NATS and telemetry: authorization outside Core's own rows is a parameter or a step that may fail.
- JSON, SHA-256 and Ed25519: a digest identifies its body, and stored JSON reads back as written.
- Text formats checked by regular expressions or length (`formatted` in requests and commands) outside the entitlement claims.
- The journal of a server without a plugin host is an organization whose journaling is paused.
- ExtensionJournal.RetentionSafe: times are those a prune and the writers pass; clocks are not modelled.
- JournalLocks.SomeoneMoves: progress of the whole system, not fairness towards each transaction.
- ObservationAdmission.SendNow: expiry is as of the last check of the transaction, since time passes before the call; a redeployment's fresh proof and membership are checked outside Core's rows, so its authority is not in the state.
- ObservationHandlers.AdmissionStore.ResolveClosure: the Data Plane's resolution arrives validated against the stored receipt.
- AdmissionRequests.Validate: the spelling of the digest, the mode and the module keys is one flag.
- Legacy triggers that reject inserts of older servers after a closure.
- Completion receipts of external dispatches, operation grants and the validation of a dispatch's own Pins: only phases, barrier and epoch are modelled.
- AdmissionStore.Tables.CreatePin: the Environment snapshot read from the Data Plane is the evidence whose window the epoch guards, not itself a state.
- Bulk Pin operations: they are sequences of the modelled Pin steps.
- Entitlements.GrantAcceptedExactly: the decoder's nesting and map-size limits are not modelled, since a payload beyond them is refused by type anyway; signature verification is out.
- Validity periods, clock skew and binding checks of entitlements: single comparisons.
- ReleaseContent.DecodeGzipMembers: DEFLATE is a parameter with the stated promise of a bounded decompressor.
- ReleaseContent.WalkTar: header parsing, whiteouts and path checks of the archive library are not modelled.
- Pinned and draft definitions, providers and the rest of the catalogue response.
