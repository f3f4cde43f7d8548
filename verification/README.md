# Verified model of the execution control plane

This project models the protocols of AI Execution OS that must never repeat an external effect, and proves what they
keep over every run: duplicate commands, crashes, restarts, and lossy or repeated delivery included.

| part | files | modelled from |
|---|---|---|
| canonical event store | `EventStore`, `EventStoreLaws` | the SQLite event store, its application-facing subclass and its schema |
| persistent provider attempt claims | `ProviderClaims`, `ClaimGate`, `ClaimProtocol`, `ClaimTheorems`, `ClaimExecution` | the claim gate and the execution outcome module |
| sync mirror and sync source | `SyncMirror`, `SyncSource`, `SyncPush`, `SyncProtocol` | envelopes, the project-owned mirror, the compile and push loops |
| plan, task and merge-order graphs | `Acyclicity`, `GraphValidation` | the three validators that share one depth-first search |
| mission orchestration | `Mission`, `MissionControl`, `MissionProgress`, `MissionCompletion` | the orchestrator and the S2 application service |
| execution kernel | `ResourceLocks`, `Kernel`, `KernelRejections`, `Coordination` | lock manager, human gates, coordinator, S1 application service |
| scheduling | `SchedulingPolicy`, `SchedulingLoop`, `SchedulingMissions` | aging and ranking, the capacity-consuming loop, and both over real missions |
| delegation between two instances | `DelegationExchange`, `Delegation`, `DelegationRuns`, `DelegationSystem` | the shared exchange, inbox pull, gates, binding, receipts, consumption |
| canonical digest | `CanonicalDigest` (with `TextOrder`) | the canonical form that seals checkpoints |
| process closure | `ProcessTracking` (with `Lists`) | the recovery probe's process table loop and browser roots |
| redaction | `Redaction` | the cycle-safe and the plain redactor of the operator panels |

How to read it. Objects that the source changes in place are classes (`EventStore.Store`, `ClaimGate.Gate`,
`SyncMirror.SourceMirror`, `SyncSource.Service`, `MissionProgress.Evaluator`, `ResourceLocks.LockManager`,
`Coordination.Coordinator`, `SchedulingLoop.Scheduler`, `DelegationExchange.SharedDelegationExchange`,
`Redaction.Redactor`, `Acyclicity.CycleCheck`). Their methods are proved equal to functions on values, and the
theorems are about those functions. A protocol is a function `Next(state, action)`, with one action for each durable
read or write and one for a crash, so that a list of actions is an interleaving with crashes anywhere; an action that
is not enabled leaves the state alone. A main theorem then ranges over every list of actions from the initial state.

Where the code does not keep a property that its documentation or tests suggest, the model follows the code, reaches a
state that shows it from the initial state by listed actions, and proves exactly when the property holds:

- Retry evidence of a provider attempt is compared with the attempt it names, not with the store (`SuccessIsRetried`).
  In every run the attempts form a chain throughout exactly when each commit of a retry under a free key finds its prior
  recorded as uncertain (`ChainRunIff`); runs whose evidence an execution delivered are such runs
  (`HonestRunIsFounded`). The exactly-once theorems need no such condition.
- A repeated append is a duplicate only while its projection row still has the version written then; later it is a
  collision (`LaterVersionCollides`). Either way nothing is written (`ReplayAfterRun`).
- A used idempotency key with a changed projection is compared with the table, not with what the event recorded, so it
  can be acknowledged as a duplicate (`ChangedProjectionIsAcknowledged`). After any run every changed projection of the
  recorded row is refused exactly while the row has the version written then, and every other projection of whatever row
  exactly if, besides, no other row belongs to the workspace (`ChangedProjectionAfterRun`).
- A crash between saving a sync envelope and saving its cursor can put the mirror ahead of the produced cursor
  (`CutOffRuns`). The next push keeps acknowledged, mirrored and produced in order exactly when compiling finds a
  changed record (`OrderAfterCrashIff`), and makes them equal exactly when the first one is the orphan's
  (`PushAfterCrashIff`). Over whole runs the order holds, whatever is delivered, exactly when at no point a chain was
  sent that carries the mirror's log beyond the produced cursor (`OrderRunIff`).
- The mirror lives in memory. After it restarts empty, the next push recovers exactly when nothing had been
  acknowledged (`PushAfterMirrorLossIff`).
- A push with nothing new is silent exactly when no record occurs with two payloads in one compilation
  (`RecompileIsQuietIff`, `TwoPayloadsAreNoisy`).
- A reviewed retry of a superseded attempt may overwrite a later, completed attempt. Then a completed step can be left
  without its dependency (`StaleRetryBreaksClosure`), or a step already under way can finish without it
  (`EarlyFinishBreaksClosure`). In every run completed steps are closed under dependencies throughout exactly when no
  retry undoes a step that another completed step depends on and no step is finished ahead of another one it depends on
  (`ClosedRunIff`).
- The coordinator alone resubmits a run after a failed execution (`FailureSubmitsTwice`); the application service refuses
  exactly the runs that carry a recovery reason, and with it no run is submitted twice (`ResubmissionIff`,
  `SubmittedOnce`).
- A crash between deciding a rejection and cancelling the run strands the run with its resources, for ever
  (`CrashStrands`, `StrandedForEver`). In every run a rejection cancels its run exactly when no crash cut it short
  (`RejectionCancelsIff`).
- An earlier candidate with no worse a priority can rank behind a later one that reuses a session (`LaterOverEarlier`,
  `EarlierIsBehindIff`).
- The scheduling loop can stop while its own run has eligible work, and it looks steps up by id across runs
  (`StopsWithOwnWork`, `WrongWorkerExample`; exactly when: `LeavesOwnWorkIff`, `AttemptsChosenIff`).
- A crash between completing a delegated step and recording the consumption, or a reviewed retry, leaves a completed step
  without a consumption (`CrashRun`, `RetryRun`; exactly when, in every run: `AccountedIff`). Without a bound source
  step, two completed receipts are both consumed (`TwoConsumptionsRun`, `SecondConsumptionIff`).
- Browser roots cover every matching process exactly when no matching processes parent each other in a cycle
  (`MutualParentsHideRoots`, `RootsCoverIff`).
- Checkpoint rows are sorted by a locale comparison that treats some different ids as equal, and such rows keep their
  order, so that their order shows in the digest (`TiedIdsAreNotReordered`). Rows with different ids may be listed in any
  order exactly when no two of the ids share a collation key (`AnyOrderIff`).

Digests are modelled by a hash parameter or by the digested content itself; where a theorem needs it, the hash is
required to be injective. Times are integers. Network calls and runtimes are single steps with an outcome.

## Model

| member | source | states |
|---|---|---|
| `EventStore.Lookup` | src/storage/sqlite-event-store.cjs:269-272 | An event is found under a key exactly when the log has one with that key |
| `EventStore.Store.constructor` | src/storage/sqlite-event-store.cjs:137-153 | A new store is empty |
| `EventStore.Store.AppendWithProjection` | src/storage/index.cjs:43-57 | Result and whole new state of an append on the mutable tables, with the log rolled back when the projection is refused, equal the functional store |
| `EventStore.Store.ImportEvents` | src/storage/index.cjs:59-109 | The import loop over the mutable log, rolled back at the first failure, equals the functional import |
| `EventStoreLaws.RunExtends` | migrations/001-s1-canonical-events.sql:1-32 | Over every run of appends and imports: keys and ids unique, no event lost, projection rows keep workspace, never go back in version and change data only with a version |
| `EventStoreLaws.AppendRefinesKeyMap` | src/storage/index.cjs:43-57 | An append is one step of a write-once map from idempotency key to event; a used key changes nothing and is acknowledged exactly for the body it stands for and, if a projection comes with it, for one the table holds at this moment; every error leaves the state intact |
| `EventStoreLaws.FreeKeyAnswers` | src/storage/sqlite-event-store.cjs:191-260 | An append under a free key is refused exactly for a used id or for a projection of another workspace, of an older version, or of the same version with other data; otherwise the event stands at the end of the log and the projection, with its number, in the row |
| `EventStoreLaws.UsedKeyIff` | src/storage/index.cjs:43-57 | An append under a used key writes nothing and is acknowledged exactly for the same body with no projection or one that the table holds; otherwise the error says which comparison failed |
| `EventStoreLaws.ReplayAfterRun` | src/storage/index.cjs:43-57 | Repeating a recorded append after any run writes nothing, and is a duplicate or a collision exactly according to the row version |
| `EventStoreLaws.ChangedProjectionAfterRun` | tests/s1-storage-projection-idempotency.test.cjs:20-33 | After any further run, a recorded key with a changed projection of its row is refused with the state intact exactly while the row has the version written then; and every other projection, of whatever row, exactly if no other row belongs to the workspace |
| `EventStoreLaws.ChangedProjectionIff` | src/storage/index.cjs:43-57 | The same condition for any state that holds the event and its row |
| `EventStoreLaws.LaterVersionCollides` | src/storage/index.cjs:43-57 | From the empty store: two appends to one row, after which repeating the first is answered with a collision |
| `EventStoreLaws.ChangedProjectionIsAcknowledged` | src/storage/index.cjs:43-57 | From the empty store: two appends, to one row or to two, after which the key of the first with the projection of the second is acknowledged as a duplicate |
| `EventStoreLaws.ImportIsAtomic` | src/storage/index.cjs:59-109 | Import is all or nothing: it fails exactly when some id or key repeats within the log and the file, and leaves the state intact; a file that was imported before is answered so; otherwise every event is added in order, the number is returned and noted in the journal |
| `EventStoreLaws.InsertAllFailsIff` | migrations/001-s1-canonical-events.sql:1-18 | Inserting fails exactly when the id or the key of some draft stands in the log or in an earlier draft |
| `EventStoreLaws.ImportIsIdempotent` | src/storage/index.cjs:63-64 | Importing a file again, after any further run, changes nothing |
| `EventStoreLaws.RebuildEqualsTable` | src/storage/sqlite-event-store.cjs:299-327 | After any run of appends whose events carry their projection, replaying the log gives the projection table |
| `ProviderClaims.OwnerOf` | src/integrations/provider-runtime/persistent-attempt-claim.cjs:102-117 | The event under a claim key names a well-formed attempt with that key, and an attempt has a row exactly when it is the one named |
| `ProviderClaims.CommitClaimLaw` | src/integrations/provider-runtime/persistent-attempt-claim.cjs:157-205 | Committing a claim succeeds exactly when the key is still free, writes event and version 1 row together, and otherwise writes nothing |
| `ProviderClaims.AcquireAnswers` | src/integrations/provider-runtime/persistent-attempt-claim.cjs:157-205 | Claiming is refused as invalid exactly for an ill-formed attempt or one of another plan; with a free key the new claim becomes a row and is acquired; with this very attempt under the key, in this workspace, the stored claim is returned as a duplicate; with anything else under the key it is a collision; only the second case writes |
| `ProviderClaims.AskedAgain` | tests/provider-runtime-persistent-attempt-claim.test.cjs:342-358 | Two requests in a row under one key: the second is answered with the first one's claim exactly for the same attempt in the same workspace, and with a collision otherwise |
| `ProviderClaims.WriteOutcomeLaw` | src/integrations/provider-runtime/persistent-attempt-claim.cjs:217-278 | An outcome for a claim read earlier is written exactly when the claim is still open; afterwards only the same outcome is acknowledged |
| `ProviderClaims.RecordAnswers` | src/integrations/provider-runtime/persistent-attempt-claim.cjs:217-278 | Recording succeeds exactly for an outcome of this attempt whose claim, in this workspace, is open or closed with it; an open one is closed with the fields of the outcome under the next version, a repetition writes nothing, and every refusal says why |
| `ProviderClaims.BuiltOutcomeIsRecorded` | src/integrations/provider-runtime/execution-outcome.cjs:241-290 | A claim closed with the outcome its execution built demands a reviewed retry, and admits that the effect may have occurred, exactly for an uncertain outcome |
| `ProviderClaims.BuiltEvidenceIff` | src/integrations/provider-runtime/execution-outcome.cjs:150-215 | The outcome of one attempt admits another exactly if it is uncertain and the other is a reviewed retry of that attempt for the same request and plan under another key; without evidence exactly initial attempts are admitted |
| `ProviderClaims.WriteRecoveryLaw` | src/integrations/provider-runtime/persistent-attempt-claim.cjs:280-331 | Recovery of a claim read earlier takes effect exactly when the claim is still open |
| `ClaimGate.Gate.constructor` | src/integrations/provider-runtime/persistent-attempt-claim.cjs:135-145 | Gates share the store they are given |
| `ClaimGate.Gate.Acquire` | src/integrations/provider-runtime/persistent-attempt-claim.cjs:157-205 | On the shared mutable store: invalid exactly for an ill-formed or mismatched attempt; with a free key acquired, with the new claim in its row; with an event under the key that claims this attempt in this workspace the stored claim; with any other event a collision; nothing is written in the last cases or when invalid |
| `ClaimGate.Gate.RecordOutcome` | src/integrations/provider-runtime/persistent-attempt-claim.cjs:217-278 | Succeeds exactly for a matching outcome of a claim of this workspace that is open or closed with this outcome; the row then holds every field of the outcome; a repetition or refusal writes nothing |
| `ClaimGate.Gate.RecoverOne` | src/integrations/provider-runtime/persistent-attempt-claim.cjs:283-329 | One turn of recovery closes an open claim as recovery-required, with a reviewed retry demanded and the effect possible, and leaves a closed one untouched |
| `ClaimGate.Gate.RecoverNext` | src/integrations/provider-runtime/persistent-attempt-claim.cjs:283-329 | One turn of the recovery loop: the claim is closed and returned exactly if it was open, and no other row changes |
| `ClaimGate.Gate.RecoverUnfinishedClaims` | src/integrations/provider-runtime/persistent-attempt-claim.cjs:280-331 | Every unfinished claim in scope is closed as recovery-required, exactly those are returned, each once, and no other row changes |
| `ClaimProtocol.NextKeepsInv` | src/integrations/provider-runtime/persistent-attempt-claim.cjs:334-364 | Every read, write, effect and crash of any process keeps the invariant, loses no claim and reopens none |
| `ClaimProtocol.RunKeepsInv` | src/integrations/provider-runtime/persistent-attempt-claim.cjs:334-364 | The same over every run |
| `ClaimTheorems.ClaimKeyIsExclusive` | src/integrations/provider-runtime/persistent-attempt-claim.cjs:66-72 | Two claimed attempts with one claim key are one attempt |
| `ClaimTheorems.EffectsAreExclusive` | tests/provider-runtime-persistent-attempt-claim.test.cjs:280-358 | Over every interleaving of any number of processes, each attempt calls the network at most once, and never two initial attempts of one request or two retries of one attempt |
| `ClaimTheorems.EffectsAreCounted` | tests/provider-runtime-persistent-attempt-claim.test.cjs:448-513 | Calls for one request digest never exceed one initial claim plus its claimed reviewed retries |
| `ClaimTheorems.ClosedIsFinal` | src/integrations/provider-runtime/persistent-attempt-claim.cjs:217-331 | A closed claim keeps its record through every further run, stale writers included |
| `ClaimTheorems.HonestEvidence` | src/integrations/provider-runtime/execution-outcome.cjs:197-215 | Retry evidence that was delivered by an execution is what the prior claim recorded |
| `ClaimTheorems.AttemptsFormOneChain` | tests/provider-runtime-execution-outcome.test.cjs:351-415 | In every founded run, and so in every run with delivered evidence, attempts of one request form one linear chain: all but the last uncertain, keys change at each link, an attempt that ended otherwise has no successor |
| `ClaimTheorems.CommitKeepsChainIff` | src/integrations/provider-runtime/execution-outcome.cjs:197-215 | Without a condition on evidence, a commit keeps the chain exactly when its claim key is already taken or its prior is recorded as uncertain |
| `ClaimTheorems.ChainRunIff` | src/integrations/provider-runtime/execution-outcome.cjs:197-215 | In every run, whatever evidence it brings, claimed retries follow uncertain attempts throughout exactly when every commit of a retry under a free key finds its prior recorded as uncertain |
| `ClaimTheorems.HonestRunIsFounded` | src/integrations/provider-runtime/execution-outcome.cjs:197-215 | Every commit of a run whose evidence an execution delivered meets that condition |
| `ClaimTheorems.UnrecordedEvidenceIsAccepted` | src/integrations/provider-runtime/execution-outcome.cjs:150-172 | Evidence is not compared with the store: a state in which an uncertain outcome that nobody recorded is admitted |
| `ClaimTheorems.FirstSucceeds` | src/integrations/provider-runtime/persistent-attempt-claim.cjs:334-345 | Seven actions from the empty system claim, call the network once and record a success |
| `ClaimTheorems.SuccessIsRetried` | src/integrations/provider-runtime/execution-outcome.cjs:197-215 | Eleven actions from the empty system: the request that succeeded is called again on evidence that nobody recorded |
| `ClaimExecution.BeginIff` | src/integrations/provider-runtime/persistent-attempt-claim.cjs:334-345 | A process begins exactly when it is idle, the attempt belongs to the plan, and evidence comes with a retry and only then, and justifies it |
| `ClaimExecution.LookIff` | src/integrations/provider-runtime/persistent-attempt-claim.cjs:157-167 | The look at the key lets the execution go on exactly when the key is free |
| `ClaimExecution.LateCommitLeaves` | src/integrations/provider-runtime/persistent-attempt-claim.cjs:171-205 | A key taken since the look ends the execution with the store intact |
| `ClaimExecution.ExecutionCompletes` | src/integrations/provider-runtime/persistent-attempt-claim.cjs:334-364 | From any reachable state: an admitted attempt with a free key, undisturbed, calls the network exactly once, its claim is closed with its outcome, the outcome is delivered, and no other claim changes |
| `ClaimExecution.CrashedExecutionIsRecovered` | src/integrations/provider-runtime/persistent-attempt-claim.cjs:280-331 | From any reachable state: a process that dies after its call leaves an open claim, which one recovery closes as recovery-required without a call |
| `ClaimExecution.ClosedClaimIsReported` | src/integrations/provider-runtime/persistent-attempt-claim.cjs:228-246 | A process that finds its claim closed hands over its outcome exactly if that is the one recorded |
| `ClaimExecution.EarlyOutcomeIsRefused` | src/integrations/provider-runtime/execution-outcome.cjs:241-245 | An outcome dated before its attempt is refused: nothing is recorded or delivered |
| `SyncMirror.BatchKeepsChain` | src/sync/transport/mirror.cjs:46-88 | Whatever arrives, the log stays one contiguous digest-linked chain with distinct ids, only grows, takes only what arrived, and acknowledgements are truthful |
| `SyncMirror.MirrorAgreesWithClassify` | src/sync/envelope/index.cjs:161-180 | The mirror accepts, repeats and refuses exactly as the pure classification says, for the same reason |
| `SyncMirror.ReceiveAnswers` | src/sync/transport/mirror.cjs:46-88 | From the chain held: accepted exactly for an admissible envelope under a new id with the next cursor and the last digest; duplicate exactly for one held with its digest, under the cursor it has in the log; every other one is refused for the first check that fails, and nothing is stored |
| `SyncMirror.EqualDigestsEqualLogs` | src/sync/envelope/index.cjs:115-139 | Two chains of sealed envelopes with the same last digest are equal |
| `SyncMirror.UnsealedIsAccepted` | src/sync/transport/mirror.cjs:46-88 | The mirror does not recompute digests, so sealing is a needed condition of the previous row |
| `SyncMirror.LogIsPrefixOfProduced` | tests/s7-sync-envelope.test.cjs:81-118 | Under lossy, repeated, reordered delivery of produced envelopes the log is a prefix of what was produced |
| `SyncMirror.CatchUp` | src/sync/transport/mirror.cjs:46-88 | A stretch of the chain that starts within the log is acknowledged in order and brings the log up to its end |
| `SyncMirror.ViewIsHighest` | src/sync/transport/mirror.cjs:95-118 | The record view holds the highest revision of each record, and the first envelope with it |
| `SyncMirror.PositionOf` | src/sync/transport/mirror.cjs:46-88 | The lookup by envelope id finds an envelope exactly when one is stored under the id |
| `SyncMirror.SourceMirror.constructor` | src/sync/transport/mirror.cjs:26-39 | A registered source starts with an empty log |
| `SyncMirror.SourceMirror.Store` | src/sync/transport/mirror.cjs:75-84 | Storing an accepted envelope updates log, cursor, digest and record view together |
| `SyncMirror.SourceMirror.AppendEnvelopes` | src/sync/transport/mirror.cjs:46-88 | A batch is taken up to the first refusal, as the functional fold says; an empty batch is refused |
| `SyncMirror.SourceMirror.ReadMirror` | src/sync/transport/mirror.cjs:95-118 | Exactly the records whose accepted envelope lies beyond the cursor, with the fold of the log as their content |
| `SyncSource.Service.constructor` | src/application/s7-index.cjs:135-150 | A fresh source has produced and acknowledged nothing |
| `SyncSource.Service.CompilePending` | src/application/s7-index.cjs:343-407 | The compile loop over the repository equals its functional form, and returns what lies beyond the acknowledged cursor |
| `SyncSource.Service.RecordAcks` | src/application/s7-index.cjs:438-472 | The acknowledgement loop only moves the acknowledged cursor, forward and up to the produced one |
| `SyncSource.AcknowledgeAnswers` | src/application/s7-index.cjs:445-460 | The acknowledged cursor moves, and nothing else, exactly for a pending envelope named by cursor and digest that is produced and not behind the cursor; otherwise the error says which of these failed |
| `SyncSource.CompileKeepsClean` | src/application/s7-index.cjs:343-407 | Compiling keeps the repository one sealed, linked chain up to the produced cursor, and only appends |
| `SyncSource.CompileOneAppends` | src/application/s7-index.cjs:343-396 | Compiling one record appends nothing exactly when its last envelope has that payload; otherwise one sealed envelope with the next cursor, the last digest and one revision more than the last of the record, or revision one |
| `SyncSource.CompileKeepsNumbered` | src/application/s7-index.cjs:343-396 | Over any compilation the revisions of every record are one, two, three and so on |
| `SyncSource.LatestIsLast` | src/application/s7-index.cjs:343-360 | The latest envelope of a record is the last one stored for it |
| `SyncSource.PendingIsSuffix` | src/application/s7-index.cjs:400-407 | Pending envelopes are exactly the chain beyond the acknowledged cursor |
| `SyncSource.ViewShowsLatest` | src/sync/transport/mirror.cjs:95-118 | A mirror that holds the whole chain shows the last envelope produced for each record |
| `SyncSource.CompiledPayload` | src/application/s7-index.cjs:343-407 | After compiling, the latest payload of a record is that of its last occurrence |
| `SyncSource.RecompileIsQuietIff` | tests/s7-integration-service.test.cjs:99-123 | Compiling the same records again produces nothing exactly when no record occurs with two payloads |
| `SyncSource.TwoPayloadsAreNoisy` | src/application/s7-index.cjs:343-407 | From the empty repository: one record with two payloads makes the second compilation produce again |
| `SyncPush.CleanExchange` | src/application/s7-index.cjs:409-474 | From a clean state an exchange makes acknowledged, mirrored and produced cursors equal and leaves nothing pending |
| `SyncPush.CleanPush` | tests/s7-integration-service.test.cjs:99-123 | An undisturbed push makes the three cursors equal, the mirror shows the last envelope of every record, and the next push with nothing new changes nothing |
| `SyncPush.CompileAfterCrash` | src/application/s7-index.cjs:343-407 | After a crash between the two saves: the first changed record decides whether the orphaned envelope is replaced, doubled or left |
| `SyncPush.OrphanOvertakes` | src/application/s7-index.cjs:409-474 | Sent as it is, the orphan puts the mirror one ahead of the produced cursor |
| `SyncPush.StuckIsRefused` | src/sync/transport/mirror.cjs:46-88 | With two envelopes at one cursor the mirror refuses the batch at the second, so the cursor is never acknowledged |
| `SyncPush.PushAfterCrashIff` | src/application/s7-index.cjs:409-474 | The push after such a crash makes the cursors equal exactly when its first changed record is the orphan's |
| `SyncPush.PushKeepsOrderIff` | src/application/s7-index.cjs:409-474 | After a crash between the two saves, the push leaves the mirror at or behind the produced cursor exactly when compiling finds a changed record |
| `SyncPush.PushAfterMirrorLossIff` | src/sync/transport/mirror.cjs:26-45 | When the in-memory mirror restarts empty, the next push makes the cursors equal exactly when nothing had been acknowledged; otherwise the mirror stays empty |
| `SyncProtocol.CursorsAreOrdered` | tests/s7-sync-envelope.test.cjs:120-129 | In every run with crashes anywhere: acknowledged at most mirrored, mirrored at most produced plus one, and the mirror holds a sealed linked chain |
| `SyncProtocol.SettledSendsKeepOrder` | tests/s7-sync-envelope.test.cjs:120-129 | Crashes anywhere: acknowledged, mirrored and produced are in order in every run that never sends while an envelope is stored beyond the produced cursor |
| `SyncProtocol.OvertakenIff` | src/sync/transport/mirror.cjs:46-88 | In every run with crashes anywhere: while the cursors are in order, some delivery of what was sent breaks the order exactly when envelopes were sent that carry the log, link by link, one beyond the produced cursor |
| `SyncProtocol.OrderRunIff` | tests/s7-sync-envelope.test.cjs:120-129 | For whole runs: acknowledged, mirrored and produced are in order throughout, whatever is delivered next at any point, exactly when no such chain was sent at any point |
| `SyncProtocol.SendAfterCutOvertakes` | src/application/s7-index.cjs:372-396 | After an orderly run cut off in the window, a send before anything new is compiled sends such a chain |
| `SyncProtocol.OrderAfterCrashIff` | src/application/s7-index.cjs:372-396 | In every run that was orderly up to a crash between the two saves, the next push keeps that order exactly when compiling finds a changed record |
| `SyncProtocol.OrderlyCursors` | tests/s7-integration-service.test.cjs:208-239 | Without a crash between the two saves: acknowledged, mirrored and produced are in order, and the mirror holds a prefix of the stored chain |
| `SyncProtocol.PushIsRun` | src/application/s7-index.cjs:343-474 | Six actions of the protocol push one changed record: the world is level again, with the record's new envelope at the end of the chain on both sides |
| `SyncProtocol.CrashLeavesOrphan` | src/application/s7-index.cjs:372-396 | A crash between the two saves leaves exactly the orphan state |
| `SyncProtocol.CutOffLeavesOrphan` | src/application/s7-index.cjs:372-396 | Three actions from the start reach an orphan |
| `SyncProtocol.CutOffRuns` | src/application/s7-index.cjs:409-474 | From there one push puts the mirror one ahead of the produced cursor, and another has its batch refused with nothing acknowledged |
| `Acyclicity.OrderExcludesCycle` | src/domain/plan-model.cjs:27-38 | A graph with a topological order has no cycle |
| `Acyclicity.CycleCheck.constructor` | src/domain/plan-model.cjs:27-38 | The search starts with nothing visiting and nothing visited |
| `Acyclicity.CycleCheck.Visit` | src/domain/plan-model.cjs:27-38 | The recursive visit with its two mutable sets: success finishes the node after all its successors, failure means a real cycle; it terminates on every graph |
| `Acyclicity.IsAcyclic` | tests/s1-domain-contracts.test.cjs:96-108 | Accepts exactly the graphs with a topological order, which are exactly those without a cycle |
| `GraphValidation.CanSchedule` | src/domain/plan-model.cjs:27-38 | The cycle check of a plan passes exactly when its steps can be scheduled after their dependencies |
| `GraphValidation.ValidateExecutionPlan` | src/domain/plan-model.cjs:27-38 | A plan passes exactly when no problem exists, problems are reported in source order, and an accepted plan has a schedule |
| `GraphValidation.ProblemMeans` | src/domain/plan-model.cjs:10-38 | Every error of a plan names a fault that is there: a repeated id, a missing or own dependency, no possible schedule, no terminal, an unknown one, or one that something depends on |
| `GraphValidation.AssertMergeOrderAcyclic` | src/domain/github-delivery-model.cjs:72-90 | Merge-order constraints pass exactly when the active ones contain no cycle |
| `GraphValidation.EmptyAdjacency` | src/domain/execution-graph-model.cjs:64-70 | Task ids are indexed exactly when no id repeats |
| `GraphValidation.ValidateExecutionGraph` | src/domain/execution-graph-model.cjs:61-89 | A task graph passes exactly when ids are unique, edges join different known tasks and no cycle exists |
| `GraphValidation.GraphProblemMeans` | src/domain/execution-graph-model.cjs:61-89 | Every error of a task graph names a fault that is there: a repeated task, an edge to itself or to an unknown task, a cycle |
| `Mission.ReadyIff` | src/orchestration/mission-orchestrator.cjs:26-52 | A step is ready exactly when the run is running, it was never attempted, no resource conflicts, all dependencies are completed and all inputs recorded |
| `Mission.InvStepIff` | src/application/s2-application-service.cjs:413-425 | Any action on a state in which attempted steps have their dependencies completed and completed steps their evidence keeps this exactly when it undoes no step that an attempted step depends on |
| `Mission.RunInvIff` | src/application/s2-application-service.cjs:211-465 | In every run: attempted steps have their dependencies completed and completed steps their evidence, throughout, exactly when no retry undoes a step that an attempted step depends on |
| `Mission.CompletedIsClosed` | src/orchestration/mission-orchestrator.cjs:26-108 | In every run a mission judged complete has its terminal steps completed with evidence; in the runs of `ClosedRunIff` a completed step has every ancestor completed, and so has every terminal step of such a mission |
| `Mission.CompletionIsKept` | src/application/s2-application-service.cjs:413-425 | Any action but an unsafe retry keeps every completed step completed |
| `Mission.CompletedAfter` | src/orchestration/mission-orchestrator.cjs:59-90 | Exactly which steps are completed after an action: those before it, but for the one an accepted unsafe retry undoes, and the one it finishes |
| `Mission.RetryKeepsCompletedIff` | src/application/s2-index.cjs:7-19 | A reviewed retry keeps all completed steps completed exactly when it follows the latest attempt or overwrites one that was not completed |
| `Mission.ClosedStepIff` | src/orchestration/mission-orchestrator.cjs:84-90 | Any action on any state whose completed steps are closed under dependencies keeps them closed exactly when it neither undoes a step that another completed step depends on nor finishes a step ahead of another one it depends on |
| `Mission.ClosedRunIff` | tests/s2-orchestration-core.test.cjs:20-39 | In every run completed steps are closed under dependencies throughout exactly when no action does either |
| `Mission.StaleRetryBreaksClosure` | src/orchestration/mission-orchestrator.cjs:84-90 | Sixteen actions from the start end with a completed step whose dependency a retry has undone |
| `Mission.EarlyFinishBreaksClosure` | src/application/s2-application-service.cjs:335-364 | The same actions with the retry while an approval is in flight: no action undoes what a completed step depends on, every state but the last is closed, and the last step is finished ahead of its dependency |
| `Mission.BarriersHold` | tests/s2-orchestration-core.test.cjs:41-52 | Paused and cancelled runs start nothing; cancellation is final and only resuming leaves a pause |
| `Mission.CancelledForever` | src/application/s2-application-service.cjs:392-411 | After cancellation no run adds an attempt or an external start |
| `Mission.AttemptsFollowTable` | src/orchestration/mission-orchestrator.cjs:59-90 | Every attempt state written is allowed by the transition table, an external start, a failed approval, a recovery or a retry |
| `MissionControl.PauseEffect` | src/application/s2-application-service.cjs:377-382 | Pausing makes a running mission paused and changes nothing else; any other mission stays as it is |
| `MissionControl.ResumeEffect` | src/application/s2-application-service.cjs:384-390 | Resuming makes a created, paused or recovering mission running, and changes no other |
| `MissionControl.CancelEffect` | src/application/s2-application-service.cjs:392-411 | Cancelling makes a created, running, paused or recovering mission cancelled, and changes no other |
| `MissionControl.StartEffect` | src/application/s2-application-service.cjs:194-209 | Only a created mission is started, and only a running one is put under recovery |
| `MissionControl.CompleteEffect` | src/orchestration/mission-orchestrator.cjs:97-108 | A mission becomes completed exactly when it runs and every terminal step is completed with evidence |
| `MissionControl.PauseIsUndone` | tests/s2-orchestration-core.test.cjs:41-46 | While paused no step is ready; pausing and resuming a running mission is the identity, and every step is judged as before |
| `MissionControl.CancelledMissionStops` | src/application/s2-application-service.cjs:392-411 | Cancelling with its attempts: the mission ends cancelled, active attempts are contained, attempts not begun are withdrawn, ended ones stay, and no further run adds an attempt or an approval |
| `MissionControl.CancelAttemptEffect` | src/application/s2-application-service.cjs:392-411 | Cancelling an attempt contains active work and withdraws what has not begun; nothing else of the mission changes |
| `MissionControl.RecoverAttemptEffect` | src/application/s2-application-service.cjs:504-513 | After a restart exactly active attempts are contained |
| `MissionControl.CreateAttemptEffect` | src/application/s2-application-service.cjs:211-237 | An attempt is begun exactly for a step that was never attempted and has its dependencies and inputs in a running mission, as the first of its step, ready and not started |
| `MissionControl.ScheduleEffect` | src/application/s2-application-service.cjs:239-280 | An external attempt waits for its gate or is blocked, a local one starts, as far as the table allows; the other attempts stay |
| `MissionControl.ApprovalEffect` | src/application/s2-application-service.cjs:336-350 | An approval goes out exactly outside pause and cancellation for an attempt that is not contained |
| `MissionControl.ResultEffect` | src/application/s2-application-service.cjs:350-374 | A result starts an attempt that has not begun, once; a failure contains whatever is not completed |
| `MissionControl.RejectGateEffect` | src/application/s2-application-service.cjs:324-334 | A rejected gate withdraws exactly the attempt that waited for it |
| `MissionControl.RetryEffect` | src/application/s2-index.cjs:7-19 | A reviewed retry is accepted exactly in a running or recovering mission after a failed, cancelled or contained attempt; it puts a fresh attempt next to it and sets the mission running |
| `MissionControl.FinishEffect` | src/application/s2-application-service.cjs:282-303 | Evidence is recorded for active attempts only, and exactly active attempts with evidence are completed |
| `MissionControl.HandoffEffect` | src/application/s2-application-service.cjs:305-321 | The outputs of a completed step are handed to exactly the inputs that name them in steps that depend on it |
| `MissionControl.AttemptTable` | src/orchestration/mission-orchestrator.cjs:59-68 | For each state of an attempt, exactly the states from which it can be reached |
| `MissionControl.RunTable` | src/orchestration/mission-orchestrator.cjs:92-96 | The same for the states of a mission |
| `MissionControl.SettledIff` | src/orchestration/mission-orchestrator.cjs:26-52 | A step is passed over exactly when it is completed or its latest attempt is open |
| `MissionControl.BlockersAre` | src/orchestration/mission-orchestrator.cjs:26-52 | A step that has to wait is told exactly the reasons that hold: an earlier attempt, the state of the mission, each open dependency, each missing input, a resource conflict |
| `MissionProgress.SomeStepMoves` | tests/s2-orchestration-core.test.cjs:20-39 | Progress: a running mission with an open step, no contained attempt and recorded handoffs has a ready or live step |
| `MissionProgress.StepOnceIsRun` | src/application/s2-application-service.cjs:239-304 | Attempting a step is a run of the mission's own actions |
| `MissionProgress.Evaluator.constructor` | src/application/s2-application-service.cjs:194-209 | A run starts without attempts |
| `MissionProgress.Evaluator.DeriveReady` | src/orchestration/mission-orchestrator.cjs:26-52 | The derivation loop returns exactly the ready steps, each once |
| `MissionProgress.Evaluator.AttemptStep` | src/application/s2-application-service.cjs:220-233 | The whole new state after attempting one step |
| `MissionProgress.Evaluator.Pass` | src/application/s2-application-service.cjs:215-235 | A pass touches no existing attempt, progresses only by attempting a new step, and a pass without progress leaves nothing enabled |
| `MissionProgress.Evaluator.EvaluateRun` | src/application/s2-application-service.cjs:211-237 | Evaluation ends, touches no existing attempt, leaves no step enabled, and completes the mission exactly when it is done |
| `MissionCompletion.RoundLaw` | src/application/s2-application-service.cjs:239-375 | A round completes its step and touches no other |
| `MissionCompletion.RoundIsRun` | src/application/s2-application-service.cjs:239-375 | A round, local or external, gated or not, fresh or under way, is a run of the mission's own actions |
| `MissionCompletion.RoundsCount` | tests/s2-orchestration-core.test.cjs:20-39 | Whatever steps are chosen, every round closes exactly one open step |
| `MissionCompletion.OpenPlanMoves` | src/orchestration/mission-orchestrator.cjs:26-52 | While a step of an unhindered supplied plan is open, some step is ready or can be completed |
| `MissionCompletion.StuckPlanIff` | src/orchestration/mission-orchestrator.cjs:26-52 | Where no step can move, every step is completed exactly when every declared input is supplied by a dependency |
| `MissionCompletion.EveryPlayFinishesIff` | docs/architecture/003-s2-durable-mission-orchestrator.md:46-61 | Any choice of movable steps ends within as many rounds as the plan has steps, and has completed the plan exactly when every input is supplied |
| `MissionCompletion.PlanFinishes` | docs/architecture/003-s2-durable-mission-orchestrator.md:46-61 | From a running unhindered state, as many rounds as there are open steps complete every step and then the mission, as a run of its actions |
| `MissionCompletion.RunIsTraced` | src/application/s2-application-service.cjs:211-425 | In every run, crashes and unsafe retries included: attempted steps have their inputs, completed ones their evidence, waiting attempts no mark of external work, and handoffs come from declared outputs |
| `MissionCompletion.MissionFinishes` | tests/s2-orchestration-core.test.cjs:20-39 | After any run: a running mission without contained or blocked attempts and without missing handoffs is finished within the size of its plan |
| `MissionCompletion.LocalPlanFinishesIff` | src/application/s2-application-service.cjs:211-237 | Once nothing is enabled, a plan of local steps has completed every step exactly when every input is supplied by a dependency |
| `ResourceLocks.LockManager.constructor` | src/main/resource-lock/resource-lock-manager.cjs:20-22 | The table starts empty |
| `ResourceLocks.LockManager.AcquireAll` | src/main/resource-lock/resource-lock-manager.cjs:31-55 | All resources or none: refused exactly for invalid, repeated or foreign-held resources, and then the table is unchanged |
| `ResourceLocks.LockManager.ReleaseAll` | src/main/resource-lock/resource-lock-manager.cjs:57-65 | Releases exactly the locks of the run |
| `ResourceLocks.AcquireLaw` | src/main/resource-lock/resource-lock-manager.cjs:31-55 | Acquiring takes no lock from anyone, gives the run all it asked for and adds nothing else |
| `ResourceLocks.AcquireThenRelease` | src/main/resource-lock/resource-lock-manager.cjs:31-65 | Acquire then release is the identity on a table without locks of the run |
| `ResourceLocks.FileKeyIff` | src/main/resource-lock/resource-lock-manager.cjs:31-55 | Two resources whose kinds hold no colon share a lock exactly when they are equal |
| `ResourceLocks.ColonsCollide` | src/main/resource-lock/resource-lock-manager.cjs:31-55 | With a colon in a kind two different resources can share one |
| `ResourceLocks.RefusalMeans` | src/main/resource-lock/resource-lock-manager.cjs:31-55 | Every refusal names a fault that is there, and what is not refused repeats nothing and meets no foreign lock |
| `Kernel.RunKeepsInv` | src/main/scheduler/execution-coordinator.cjs:18-141 | The kernel invariant over every run, crashes between any two saves included |
| `Kernel.RehydrateHolds` | src/application/s1-application-service.cjs:271-285 | Rebuilding the lock table from events gives every reservation in force its resources and nothing else |
| `Kernel.NoRehydrateConflict` | src/application/s1-application-service.cjs:271-285 | Rehydration never meets a conflict |
| `Kernel.ResourcesAreExclusive` | tests/s1-scheduler-core.test.cjs:91-169 | In every run active executions hold what they asked for and never share a resource |
| `Kernel.FinishedHoldsNothing` | tests/s1-scheduler-core.test.cjs:91-169 | In every run a cancelled or result-observed run that is not just being released holds no lock |
| `Kernel.SubmittedOnce` | tests/s1-application-idempotency.test.cjs:45-58 | Through repeated approval, runtime failure and restart no run is submitted twice |
| `Kernel.ResubmissionIff` | src/main/scheduler/execution-coordinator.cjs:94-130 | An approval that the coordinator alone lets through submits its run, twice exactly when it was submitted before; every such run carries a recovery reason, which is exactly what the application guard refuses |
| `Kernel.FailureThenApproval` | src/application/s1-application-service.cjs:207-235 | After a failed execution a second approval submits again through the coordinator and not through the application service |
| `Kernel.RejectionLostInCrash` | src/main/scheduler/execution-coordinator.cjs:82-92 | A crash inside a rejection leaves a waiting run that holds its resources, and repeating the rejection changes nothing |
| `KernelRejections.RunKeepsRejectInv` | src/main/scheduler/execution-coordinator.cjs:82-92 | In every run a run behind a rejected gate is cancelled, or waits without a recovery reason, alone or about to be cancelled |
| `KernelRejections.StrandedIff` | src/main/scheduler/execution-coordinator.cjs:82-92 | In every run a rejected run is left waiting exactly when some crash fell between the decision and the cancellation |
| `KernelRejections.RejectionCancelsIff` | tests/s1-scheduler-core.test.cjs:103-115 | In every run a rejection that is no longer in progress has cancelled its run, which then holds no lock, exactly when no crash cut it short |
| `KernelRejections.StrandedForEver` | src/main/scheduler/execution-coordinator.cjs:82-141 | A run stranded in this way stays so through every further run and keeps its resources |
| `KernelRejections.CrashStrands` | src/main/scheduler/execution-coordinator.cjs:82-92 | Five actions from the empty kernel strand a run |
| `KernelRejections.FailureSubmitsTwice` | src/main/scheduler/execution-coordinator.cjs:94-130 | Ten actions from the empty kernel submit one run twice through the coordinator alone |
| `Coordination.ExecuteOutcome` | src/main/scheduler/execution-coordinator.cjs:94-130 | The whole effect of an approval that goes through, for each way the runtime can end |
| `Coordination.Coordinator.constructor` | src/application/s1-application-service.cjs:35-67 | A new service over an empty store |
| `Coordination.Coordinator.Request` | src/main/scheduler/execution-coordinator.cjs:18-80 | On the mutable repositories: a known run, an invalid or a repeated resource changes nothing and is answered so; a run that is not ready, or meets a held resource, is saved blocked with locks, gates and reservations as they were; any other run waits for a decision, holds all its resources and no one loses any, is reserved, and asks for its gate |
| `Coordination.RequestIsRun` | src/main/scheduler/execution-coordinator.cjs:18-80 | That outcome is the kernel run of saving, reserving and asking |
| `Coordination.Coordinator.DecideGate` | src/main/human-gate/human-gate-service.cjs:39-48 | A gate is decided once; the same decision again changes nothing and another is refused |
| `Coordination.Coordinator.Approve` | src/main/scheduler/execution-coordinator.cjs:94-130 | Goes through exactly when the run may be approved; the effect is submitted once exactly when the runtime reaches it; success releases all its locks |
| `Coordination.ApprovalLeaves` | src/main/scheduler/execution-coordinator.cjs:94-130 | The kernel run of an approval goes through exactly for a known gate that is open or approved, a valid provider, and a run that waits and, with the application guard, carries no recovery reason; and it leaves runs, locks, gates and submissions as stated for each way the runtime ends |
| `Coordination.Coordinator.Execute` | src/main/scheduler/execution-coordinator.cjs:110-129 | Each way the runtime can end changes runs, submissions and locks as stated, and nothing else |
| `Coordination.Coordinator.Reject` | src/main/scheduler/execution-coordinator.cjs:82-92 | Changes anything exactly for an undecided gate, and then cancels the run and frees its locks |
| `Coordination.RejectionLeaves` | src/main/scheduler/execution-coordinator.cjs:82-92 | The kernel run of an undisturbed rejection cancels the run, decides the gate and frees exactly the locks of the run |
| `Coordination.Coordinator.RecoverUncertain` | src/main/scheduler/execution-coordinator.cjs:132-141 | Exactly the active runs go back to waiting, with a recovery reason |
| `Coordination.Coordinator.Restart` | src/application/s1-application-service.cjs:262-285 | Rebuilding locks and containing active runs is the kernel's restart |
| `Coordination.RestartLeaves` | src/application/s1-application-service.cjs:262-285 | A restart contains active runs and keeps gates, reservations, releases and submissions |
| `Coordination.ReviewedReleaseLeaves` | src/main/scheduler/execution-coordinator.cjs:132-141 | A reviewed release ends exactly a run that is cancelled or awaits review, and frees its resources |
| `SchedulingPolicy.AgingIsBoundedAndMonotone` | src/scheduling/policy/index.cjs:94-113 | The boost grows with age, never passes the configured steps, and lifts a candidate by at most that many ranks |
| `SchedulingPolicy.BoostIsCounted` | src/scheduling/policy/index.cjs:94-113 | A candidate that has waited k whole intervals is lifted by k ranks, up to the configured steps and the top, and stands in age bucket k |
| `SchedulingPolicy.LessIff` | src/scheduling/policy/index.cjs:131-148 | The comparison of ranking tuples is, on candidates: lower effective rank first; then the older age bucket; then session reuse; then the earlier ready time; then the id |
| `SchedulingPolicy.RankedPrecede` | src/scheduling/policy/index.cjs:115-148 | Any sorted list of entries stands in that order |
| `SchedulingPolicy.KeysAreTotallyOrdered` | src/scheduling/policy/index.cjs:142-148 | The comparison is a strict total order on candidates with distinct ids |
| `Lists.IndexOf` | src/scheduling/policy/index.cjs:94-101 | The rank of a priority class is its place in the policy's order |
| `SchedulingPolicy.RankCandidates` | src/scheduling/policy/index.cjs:115-161 | Ranking succeeds exactly when the policy is active and no candidate is refused, and otherwise reports the fault of a candidate; the result is a permutation of the input in which effective rank decides first, then age bucket, session reuse, ready time and id |
| `TextOrder.StringLessIff` | src/checkpoint/mission-checkpoint.cjs:14 | The text comparison is by the first code unit that differs, a proper prefix first |
| `SchedulingPolicy.SortedIsUnique` | src/scheduling/policy/index.cjs:142-148 | Two sorted lists with the same elements are equal |
| `SchedulingPolicy.RankingIsCanonical` | tests/s6-scheduling-policy.test.cjs:63-86 | Every permutation of the input is ranked the same way |
| `SchedulingPolicy.RankedIsTheRanking` | src/scheduling/policy/index.cjs:115-161 | The ranking as a function: sorted, the same entries, and equal to whatever sorted list the ranking returns |
| `SchedulingPolicy.EarlierIsBehindIff` | tests/s6-scheduling-policy.test.cjs:52-75 | An earlier candidate of no worse a priority is behind a later one exactly when they tie and only the later one reuses a session |
| `SchedulingPolicy.LaterOverEarlier` | src/scheduling/policy/index.cjs:94-148 | Two candidates one second apart, of which the later one is ranked first |
| `SchedulingPolicy.FullyAgedBeatsNewcomer` | tests/s6-scheduling-policy.test.cjs:52-75 | A fully aged candidate is ahead of any newcomer whose priority is better by no more than the boost |
| `SchedulingLoop.FirstWorker` | src/scheduling/capacity/index.cjs:136-189 | The chosen worker is the first compatible one, and none is chosen exactly when none is compatible |
| `SchedulingLoop.FirstEligible` | src/scheduling/orchestration/index.cjs:102-150 | The decision is the first eligible candidate in rank order |
| `SchedulingLoop.EligibleIff` | src/scheduling/capacity/index.cjs:136-189 | A candidate is eligible exactly when both limits leave room, its provider has capacity and some worker can take it: available, not reserved, the one and on the channel that is asked for, if any, and nothing the step needs locked |
| `SchedulingLoop.FirstIsBest` | src/scheduling/orchestration/index.cjs:102-150 | The chosen candidate precedes every other eligible one in the ranking order |
| `SchedulingLoop.Scheduler.constructor` | src/application/s6-scheduler-service.cjs:24-27 | The loop starts from the given reservations and attempts |
| `SchedulingLoop.Scheduler.AssignNext` | src/application/s6-scheduler-service.cjs:152-205 | One pass does what the decision function says: it stops with the state unchanged, or reserves a free worker for the first eligible candidate within all limits |
| `SchedulingLoop.Scheduler.EvaluateRun` | tests/s6-scheduler-consumption-repair.test.cjs:90-159 | The loop ends after the passes the decision function prescribes, exceeds no limit, never reassigns a held worker, attempts no step twice and always takes the first eligible candidate |
| `SchedulingLoop.AssignedWorkerCanTake` | src/scheduling/capacity/index.cjs:136-189 | Every assignment gives the chosen step to the first worker, in the order of their ids, that can take it |
| `SchedulingLoop.PassesAgree` | src/application/s6-scheduler-service.cjs:152-205 | The loop has one outcome: two traces of it from one state agree |
| `SchedulingLoop.LeavesOwnWorkIff` | src/application/s6-scheduler-service.cjs:152-205 | With eligible work of its own the loop stops exactly when the first eligible candidate names a step not ready in this run |
| `SchedulingLoop.AloneStopsWhenNothingEligible` | src/application/s6-scheduler-service.cjs:152-205 | When all candidates belong to this run it stops only when none is eligible |
| `SchedulingLoop.AttemptsChosenIff` | src/application/s6-scheduler-service.cjs:152-205 | The attempt made is the chosen candidate's own exactly when that candidate belongs to this run |
| `SchedulingLoop.WrongWorkerExample` | src/application/s6-scheduler-service.cjs:152-205 | The whole loop over two runs with one step id: the step is attempted on a worker chosen for the other run, with which it is not compatible |
| `SchedulingLoop.StopsWithOwnWork` | src/application/s6-scheduler-service.cjs:152-205 | A loop that stops at once although a ready step of its own run is eligible |
| `SchedulingMissions.ReadyAtIsJudged` | src/application/s6-index.cjs:301-314 | The ready steps the loop works with are those the orchestrator judges ready in the mission at that moment |
| `SchedulingMissions.AttemptReflects` | src/application/s6-scheduler-service.cjs:152-205 | A mission moved on by its own attempt of a ready step stays what the loop reckons with |
| `SchedulingMissions.AssignmentReflects` | src/application/s6-scheduler-service.cjs:152-205 | The same for every mission of the workspace after an assignment of the loop |
| `SchedulingMissions.QueuedIsOffered` | src/scheduling/orchestration/index.cjs:73-90 | Whatever stands in the queue is a ready, admitted step of a running mission, under the key the policy gives it |
| `SchedulingMissions.OfferedIsQueued` | src/scheduling/orchestration/index.cjs:73-90 | Every ready, admitted step of the workspace stands in the queue |
| `SchedulingMissions.QueueIsRanked` | src/scheduling/orchestration/index.cjs:73-90 | The queue stands in the order of the policy, and each entry asks for the worker, channel and resources of its own step |
| `SchedulingMissions.QueueHoldsIff` | src/scheduling/orchestration/index.cjs:73-90 | A step of the workspace stands in the queue exactly when the orchestrator judges it ready in its mission and it is admitted |
| `SchedulingMissions.LoopAsksMission` | src/application/s6-index.cjs:301-314 | The ready set and the locality that the loop asks for are those of its own mission |
| `SchedulingMissions.MissionsAreSound` | src/application/s6-index.cjs:337-358 | Real missions and the real ranking meet what the scheduling loop asks of its inputs |
| `SchedulingMissions.AssignmentIsFirst` | tests/s6-scheduling-orchestration.test.cjs:71-102 | Every assignment goes to a step that is judged ready and that the policy ranks before every other offered and eligible step of the workspace |
| `DelegationExchange.PositionOf` | tests/s8-integration-service.test.cjs:37-43 | The first request under an id, found exactly when there is one |
| `DelegationExchange.SharedDelegationExchange.constructor` | tests/s8-integration-service.test.cjs:31-36 | Three empty lists and no calls |
| `DelegationExchange.SharedDelegationExchange.SubmitRequest` | tests/s8-integration-service.test.cjs:37-43 | Stored exactly when the id is new; otherwise duplicate exactly for the same digest, and divergent |
| `DelegationExchange.SharedDelegationExchange.ReadInbox` | tests/s8-integration-service.test.cjs:44-47 | The requests addressed to the reader, in order |
| `DelegationExchange.SharedDelegationExchange.AcknowledgeRequest` | tests/s8-integration-service.test.cjs:48 | Only the call is noted |
| `DelegationExchange.SharedDelegationExchange.SubmitReceipt` | tests/s8-integration-service.test.cjs:49-54 | One receipt per request and revision: the first |
| `DelegationExchange.SharedDelegationExchange.ReadReceipts` | tests/s8-integration-service.test.cjs:55-58 | The receipts of the reader, in order |
| `DelegationExchange.SharedDelegationExchange.SubmitCancellation` | tests/s8-integration-service.test.cjs:59-65 | Refused exactly for an unknown request; stored once, with the request's destination and sequence |
| `DelegationExchange.SharedDelegationExchange.ReadCancellations` | tests/s8-integration-service.test.cjs:66-69 | The cancellations addressed to the reader, in order |
| `DelegationExchange.InboundIsPrefix` | src/delegation/policy/index.cjs:152-175 | Rows from the source in any order and number leave a prefix of what the source created |
| `DelegationExchange.PullKeepsLinked` | tests/s8-delegation-policy.test.cjs:98-120 | Whatever rows arrive, accepted requests stay contiguous, digest-linked and unique |
| `DelegationExchange.ClassifyIff` | src/delegation/policy/index.cjs:152-175 | Of a request, from the chain held: taken exactly when its id is new, its number the next and its predecessor the last digest; repeated exactly when held with its digest; a gap exactly when new with a number ahead; diverged exactly in the three remaining cases |
| `DelegationExchange.PullCatchesUp` | src/delegation/policy/index.cjs:152-175 | A stretch of the source's chain that begins no later than what is held brings the destination to its end, repetitions included |
| `DelegationExchange.InOrderIsTaken` | tests/s8-delegation-policy.test.cjs:98-120 | Delivered in order, every request is taken |
| `Delegation.RunKeepsInv` | src/application/s8-index.cjs:299-617 | The invariant of both parties and the receipts between them over every run |
| `Delegation.EvidenceIsComplete` | tests/s8-source-handoff-integration.test.cjs:127-197 | In every run what was consumed or completed a step is a completed receipt of the one binding, whose run has an observed result approved at both gates; a bound step consumes at most one |
| `Delegation.AccountIsKeptIff` | src/application/s8-source-handoff-service.cjs:165-277 | A source action keeps completed steps accounted for exactly when it is neither a crash before the consumption is saved nor a reviewed retry |
| `Delegation.CompletedStepHasItsEvidence` | tests/s8-integration-service.test.cjs:136-214 | In runs of such actions a completed source step at rest has exactly one consumption, with the full chain of evidence |
| `Delegation.AccountedIff` | src/application/s8-source-handoff-service.cjs:165-277 | In every run of a bound request the completed step is accounted for exactly when no action was a crash in the window or a reviewed retry |
| `Delegation.NeverConsumedLater` | src/application/s8-source-handoff-service.cjs:165-277 | A completed step without a consumption never gets one |
| `Delegation.CrashLosesConsumption` | src/application/s8-source-handoff-service.cjs:235-277 | The crash window: completed, and never consumed |
| `Delegation.RetryBypassesReceipt` | src/application/s2-application-service.cjs:413-425 | A reviewed retry completes a delegated step without a receipt |
| `Delegation.RepeatedApprovalPublishesAgain` | src/application/s8-index.cjs:550-556 | Approving a finished action again publishes a second, different completed receipt |
| `Delegation.PublishedReceipt` | src/application/s8-index.cjs:509-548 | A receipt carries the next revision and reports the run as it stands: completed exactly for an observed result, cancelled exactly for a cancelled run, uncertain exactly under recovery, else running |
| `Delegation.TurnedDownForEver` | src/application/s8-index.cjs:462-476 | A proposal turned down at any point is never bound afterwards, and no receipt is published for it |
| `Delegation.RejectedIsNeverConsumed` | src/application/s8-index.cjs:462-476 | In every run in which the proposal is turned down at some point, no step is completed by a receipt and nothing is consumed |
| `Delegation.IntakeEffects` | src/application/s8-index.cjs:299-373 | A submitted request is received once, becomes one proposal, and is admitted to its gate or found inadmissible |
| `Delegation.RefusalEffects` | src/application/s8-index.cjs:428-476 | Rejection, withdrawal and a lost admission turn the proposal down, each from exactly the states the code allows |
| `Delegation.AcceptanceEffects` | src/application/s8-index.cjs:380-460 | An accepted proposal is bound once, to one local run |
| `Delegation.ActionEffects` | src/application/s8-index.cjs:550-556 | Approving the local action of a waiting run starts it, approved before or not; rejecting it cancels the run, once |
| `Delegation.RunEffects` | src/application/s8-index.cjs:509-532 | A running run ends with a result or comes under recovery; a review then cancels it |
| `Delegation.PullIff` | src/application/s8-index.cjs:558-587 | The source mirrors exactly the first receipt of each revision |
| `Delegation.SendIff` | tests/s8-integration-service.test.cjs:49-54 | The exchange takes exactly the first published receipt of each revision |
| `Delegation.ReceiptsAreOneEach` | src/application/s8-index.cjs:534-587 | In every run the exchange and the source's mirror hold at most one receipt of each revision, the exchange loses none, and the mirror holds only what the exchange holds |
| `Delegation.BeginConsumeIff` | src/application/s8-source-handoff-service.cjs:165-234 | A receipt is taken for a bound step exactly while the mission runs, the step waits, nothing else is being consumed, and the receipt is completed, mirrored and not consumed yet |
| `Delegation.ReceiptIsConsumed` | src/application/s8-source-handoff-service.cjs:235-277 | Undisturbed, the step is then completed by that receipt and the consumption recorded |
| `Delegation.SecondConsumptionIff` | src/application/s8-index.cjs:589-617 | A second completed receipt is consumed exactly when the request has no bound source step |
| `DelegationRuns.TwoReceiptsAreReached` | src/application/s8-index.cjs:550-556 | Sixteen actions from the start put two completed receipts of one action on the exchange |
| `DelegationRuns.CrashRun` | src/application/s8-source-handoff-service.cjs:235-277 | A run from the start that completes its step with a receipt and never records the consumption |
| `DelegationRuns.RetryRun` | src/application/s2-application-service.cjs:413-425 | A run from the start that completes its step without any receipt |
| `DelegationRuns.TwoConsumptionsRun` | src/application/s8-index.cjs:589-617 | A run from the start, without a source step, that consumes both receipts |
| `DelegationSystem.RunKeepsBindings` | src/application/s8-source-handoff-service.cjs:35-41 | With any number of requests: every bound step names an existing request, and no request has two steps |
| `DelegationSystem.CaseIsRun` | src/application/s8-index.cjs:148-180 | In every run with many requests, each request has gone through a run of the two-party protocol |
| `DelegationSystem.EveryConsumptionHasEvidence` | tests/s8-integration-service.test.cjs:136-214 | In every run with many requests, whatever any request consumed carries the chain of evidence of its own destination run |
| `DelegationSystem.StepIsFedOnce` | tests/s8-source-handoff-integration.test.cjs:127-197 | In every run a source step is fed by at most one receipt of at most one request |
| `DelegationSystem.BindingIsForEver` | src/application/s8-source-handoff-service.cjs:35-41 | Once delegated, a step is never delegated again or freed |
| `DelegationSystem.CutCreationIsUnbound` | src/application/s8-source-handoff-service.cjs:43-88 | A crash between the two saves of a creation leaves a request that is never bound to its step |
| `DelegationSystem.CreateEffect` | src/application/s8-source-handoff-service.cjs:35-88 | A request is created exactly for a new id and a step not delegated yet, and bound unless a crash comes between the saves |
| `DelegationSystem.CrashEffect` | src/application/s8-source-handoff-service.cjs:35-88 | A crash of an instance hits every request of it; any other action touches one request |
| `CanonicalDigest.SortedByGroups` | src/checkpoint/mission-checkpoint.cjs:5-17 | A sorted list is determined by the values under each key |
| `CanonicalDigest.SortsEqualIff` | src/checkpoint/mission-checkpoint.cjs:5-17 | Two lists sort to the same list exactly when each entry has a twin in the other |
| `CanonicalDigest.IdIsKept` | src/checkpoint/mission-checkpoint.cjs:5-17 | Canonicalising keeps the id that decides whether a row is stable |
| `CanonicalDigest.CanonDecides` | src/checkpoint/mission-checkpoint.cjs:5-17 | Two values have one canonical form exactly when they differ only in object key order and in the order of rows whose ids have different collation keys |
| `CanonicalDigest.CanonIsFixed` | src/checkpoint/mission-checkpoint.cjs:5-17 | The canonical form is equivalent to the value and is its own canonical form |
| `CanonicalDigest.CanonStandsInOrder` | src/checkpoint/mission-checkpoint.cjs:5-17 | In it object keys stand in code-unit order, and rows with string ids in the order of the collation keys of their ids |
| `CanonicalDigest.IdOfIff` | src/checkpoint/mission-checkpoint.cjs:5-17 | The id of a value is the string under its one "id" key, and there is none otherwise |
| `CanonicalDigest.DigestDecides` | src/checkpoint/mission-checkpoint.cjs:19-21 | With a hash that never collides, equal digests mean exactly that |
| `CanonicalDigest.SwapIsInvisibleIff` | src/checkpoint/mission-checkpoint.cjs:8-10 | Swapping any two positions of an array of any length is invisible exactly when the elements are equivalent, or all rows have string ids, the collation keys of the two ids differ, and rows between them under either key repeat that one |
| `CanonicalDigest.AnyOrderIff` | tests/s2-checkpoint-integration-hardening.test.cjs:7-35 | Rows with different ids can be listed in any order with one canonical form exactly when no two ids share a collation key |
| `CanonicalDigest.TiedIdsAreNotReordered` | src/checkpoint/mission-checkpoint.cjs:9 | Under any collation that ties a composed and a decomposed accented id, two rows with these ids change the canonical form when swapped |
| `ProcessTracking.TrackDescendants` | scripts/s0-runtime-recovery-matrix-probe.cjs:126-138 | The loop ends and tracks exactly the processes that descend from a seed through the table |
| `ProcessTracking.DescendantsAreLeast` | scripts/s0-runtime-recovery-matrix-probe.cjs:126-138 | That set is the least one that holds the seeds and is closed from parent to child |
| `ProcessTracking.RowOrderIsIrrelevant` | scripts/s0-runtime-recovery-matrix-probe.cjs:126-138 | The order of the table rows does not matter |
| `ProcessTracking.RelevantProcesses` | scripts/s0-runtime-recovery-matrix-probe.cjs:126-144 | Returned rows are, in table order, the descendants and the commands that name the probe's directories |
| `ProcessTracking.BrowserRoots` | scripts/s0-runtime-recovery-matrix-probe.cjs:182-187 | Roots are the matching rows whose parent does not match |
| `ProcessTracking.Matching` | scripts/s0-runtime-recovery-matrix-probe.cjs:182-187 | The matching rows are those whose command names the profile |
| `ProcessTracking.RootsCoverIff` | scripts/s0-runtime-recovery-matrix-probe.cjs:182-187 | Every matching process descends through matching ones from a root exactly when matching processes form no parent cycle |
| `ProcessTracking.MutualParentsHideRoots` | scripts/s0-runtime-recovery-matrix-probe.cjs:182-187 | Two matching processes that name each other as parent: no root |
| `Redaction.Redactor.constructor` | src/renderer/s7-integrated.js:10 | The set of entered objects starts empty |
| `Redaction.Redactor.Visit` | src/renderer/s7-integrated.js:10-22 | The recursion over the mutable set ends on every finite graph, restores the set and returns the specified value |
| `Redaction.Redactor.VisitItems` | src/renderer/s7-integrated.js:17-18 | Array elements are visited in order under the empty key, and the set is restored |
| `Redaction.Redactor.VisitEntries` | src/renderer/s7-integrated.js:19 | Object entries are visited in order under their own keys, and the set is restored |
| `Redaction.AgreesWithPlain` | src/renderer/s6-integrated.js:10-17 | On a value with a finite unfolding, shared objects included, the result is that of the plain recursion |
| `Redaction.PlainKeepsTheRest` | src/renderer/s6-integrated.js:10-17 | Along every path that passes no sensitive key, the redacted value has the shape, keys and values of the original in the same places |
| `Redaction.SafeKeepsTheRest` | src/renderer/s7-integrated.js:10-22 | The same with cycles: the marker stands exactly where a path leads back to an object that it has passed |
| `Redaction.MarkedIff` | src/renderer/s7-integrated.js:15-21 | The circular marker reaches the result exactly when some walk through visible objects returns to an object, which is exactly when the visible value is not finite |
| `Redaction.SafeIsClean` | src/renderer/s7-integrated.js:11-13 | No value under a sensitive key and no sensitive string remains |
| `Redaction.FixedIffClean` | src/renderer/s6-integrated.js:10-17 | The plain recursion leaves a value alone exactly when it is clean |
| `Redaction.SafeIsIdempotent` | src/renderer/s7-integrated.js:10-22 | Redacting a redacted value returns it unchanged |
| `Redaction.WeakerRulesFindNothing` | src/renderer/s6-integrated.js:8-17 | The older panel, with fewer sensitive keys and strings, has nothing left to redact |

## Left out

- Electron, IPC, preload scripts, DOM rendering, Playwright, HTTP clients and servers, MCP transport, endpoint checks.
- Manifest compilers, publication readiness, supplier verification, federation links, GitHub observation, cockpit views: field validation and thin projections.
- Execution authorization and credential resolution: the claim model starts after they succeeded.
- SHA-256, JSON encoding, date parsing and regular expressions: digests are a parameter or the content itself, times are integers in milliseconds, sensitivity is a pair of predicates.
- The search for secrets in event payloads and the checks of single required fields of events, attempts and envelopes, except those a theorem uses.
- The mirror's registry of sources: `SourceMirror` is one registered source of one workspace. The loss of its memory is no action of `SyncProtocol`; `PushAfterMirrorLossIff` says what the next push does, once the source is registered again.
- Unregistered sources, the pull direction of sync and memberships: `SyncProtocol` follows one producer and its mirror.
- Status fields of envelopes and cursors, which repeat what the cursors say; the clock is read once per compilation.
- Step bindings, workspace scope checks and capability checks of missions; a self dependency and a missing dependency are one error in `GraphValidation.Problem`.
- Resource conflicts inside one mission run: `Mission.Next` judges readiness without a conflict, and `SchedulingLoop` and `Kernel` model the conflicts. Only the receipt of a delegated step takes a blocked attempt back to ready, so `MissionFinishes` asks that none is blocked.
- Checkpoints beyond their canonical digest, and the comparison of a checkpoint with its event sequence.
- `CanonicalDigest`: the locale comparison is an order on collation keys, and the key of a text is a parameter: the Unicode collation tables are not modelled. Nor is the position that JavaScript gives to integer-like keys; objects may repeat a key, which is more general.
- Delegation policy allow-lists, admission reason codes and peer binding states: admission is one boolean.
- `Delegation` is a machine on values for one request, because its crash points fall inside the service methods; `DelegationSystem` runs any number of them side by side. Saves that are adjacent in the code and between which no other modelled state is read are one action, and `RetryStep` stands for a reviewed retry that runs the step locally to completion.
- Cancellation of a delegation beyond the proposal state; requests of several peers in `InboundIsPrefix`, which follows one source.
- `ClaimProtocol`, `Kernel` and `SyncProtocol` are machines on values for the same reason; the classes of `ClaimGate`, `Coordination` and `SyncSource` are the undisturbed calls in place.
- `Coordination`: gate contents beyond run and state (a second request under one gate id with other contents is an error in the code), task and evidence records of the application service, and the expired gate state.
- Provider capacity arithmetic and worker compatibility keys: they enter `SchedulingLoop` as a boolean and as the requested worker, browser and locks; proposals and their revalidation are not modelled.
- Ranking input is one workspace at a time, so that the count of active work is one number; `SchedulingMissions` takes the checks of authority and resources during candidate derivation as one boolean per step.
- RebuildEqualsTable: a rebuild with another reducer than the one that takes the latest projection an event carries is the caller's fold and is not modelled.
- AttemptsFormOneChain: for founded runs, with evidence that an execution delivered as a special case; `ChainRunIff` says that these are exactly the runs that keep the chain.
- CompletedIsClosed: ancestors are completed in the runs of `ClosedRunIff`, which are exactly those that stay closed.
- OrderlyCursors: for runs without a crash between the two saves; `OrderRunIff` and `OrderAfterCrashIff` say exactly what holds with one.
- CursorsAreOrdered: bounds the mirror by the produced cursor plus one, which is what holds in every run; `OrderRunIff` is the exact condition of the bound without the one.
- SettledSendsKeepOrder: a condition on sends that is enough; `OrderRunIff` is the exact one.
- `SyncSource.Source`: two envelopes with one cursor, which only a crash can leave, stand in order of saving; after a restart the store lists them by projection id (src/storage/sqlite-event-store.cjs:294-296), an order that is not modelled.
- EqualDigestsEqualLogs: for sealed envelopes, which the mirror does not enforce; `UnsealedIsAccepted` shows that this is needed.
- RootsCoverIff: takes the process ids of one table as unique, as the operating system keeps them; the other results about process tables do not.
- `Redaction`: array holes, symbol keys, getters and class instances.
