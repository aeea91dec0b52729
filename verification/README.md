# Verified models of capture, alignment, evidence, profiles, candidates and advice

These Dafny modules model the stateful core of the experience library and prove what its code promises over every input, every
run and every crash point. They follow the program's own structure: a component whose methods update rows or fields is a class,
a loop is a loop, and each such method is proved to compute a specification function; the promises are then proved about those
functions and about state machines built from them.

| Files | What they model |
|---|---|
| `CaptureRecords`, `SpoolTables`, `ClaimFacts`, `CaptureSpool` | the durable capture spool: its tables, each transaction as a function of the tables, and the class that performs it statement by statement |
| `SpoolRuns`, `SpoolBounds`, `SpoolUpkeep` | every interleaving of hooks, live and stale drainers, and recovery tools over one spool; what its tables keep and forget |
| `SpoolEffects` | what each transaction achieves for its delivery: when it is handed out, held, woken, committed or recovered |
| `DrainRuns`, `DrainFinite`, `StrandedWaiter`, `RefusedContext` | one drainer at a time with a crash between any two transactions; runs outside of the scope of its guarantee |
| `DrainEffects`, `DrainLoop` | where each claimed delivery ends and what the store then has; the loop that does it |
| `Recovery`, `RecoveryPlanning`, `RecoveryApply`, `RecoveryRuns` | selecting, paging, applying and resuming recovery plans; any number of calls among everything else that happens |
| `Alignment`, `AlignmentSafety` | the journaled publication of managed files, stopped at any write, and its recovery |
| `RelationGraph`, `EvidenceImport`, `EvidenceRuns` | the import of typed annotations: cycle rejection, the pending fixpoint, the growing tables |
| `Ordering`, `Intervals`, `Reconstruction`, `Reconstructor`, `ReconstructionFacts`, `ReconstructionOutcomes` | the reconstruction of a session from its observations, and what its report says |
| `Profiles`, `ProfileResolver`, `ProfileLayers` | profile inheritance, its memoised resolver, serialized registries, layered selection |
| `Candidates`, `CandidateRuns`, `CandidateEffects` | candidates, reviews and supersession, and the evidence that each review asks for |
| `AdviceUsage`, `AdviceRuns`, `AdviceExposure`, `ExposureRuns`, `ExposureStories` | the usage log with its ordered fold, and the exposure monitor: what it reports, and what it never misses |

Every SQL transaction and every rename is one atomic step. Times are integers and arguments. Digests and keyed hashes are the
values they are taken of, so they are injective. Texts compare by code units where the source uses a locale or an ISO timestamp;
any total order would do.

What the proofs found in the code, each with a concrete input or run in the model:

* A record that inserts an awaited session without releasing the key under which it is awaited strands the waiter: a technical
  record that carries its session, or the start of a session with the same id at another source
  (`StrandedWaiter.WakeupIsLost`, `StrandedWaiter.ScopeIsNeeded`). A request is persisted in two transactions; if the second
  refuses its context, what waits for the request is stranded as well (`RefusedContext.ContextIsRefused`).
  `DrainRuns.WakeupsAreKeptExactly` says of every run exactly when no wake-up is lost; `DrainRuns.NoLostWakeup` names runs that
  never lose one.
* A rollback that is stopped between two files leaves a mixture that neither direction accepts any more
  (`AlignmentSafety.RollbackCanStrand`). `AlignmentSafety.CallKeeps` says exactly where a call may stop; an apply may stop anywhere.
* The exposure monitor takes an empty string for an absent id. A thread start with an empty id is not counted, and an item with an
  empty id can complete in the place of the echo that is reported (`ExposureRuns.UnnamedItemFoolsTheMonitor`).
  `ExposureRuns.ReportsAreSound` is sound for streams that name their completed items, and `ExposureRuns.EchoEndsExactly` says
  of every reported stream exactly when the echo completed.
* The ledger of applied recovery plans forgets its oldest entries. A call that resumes a plan is refused if what was requeued
  before has been forgotten (`RecoveryRuns.CannotBeResumed`); `RecoveryApply.Resumable` says exactly when.
* A recovery call checks all selections and then applies each in a transaction of its own. Another call in between can make its
  plan fail half way (`RecoveryRuns.PartlyApplied`); `RecoveryRuns.OnlyOthersSpoil` says that nothing else can, and
  `RecoveryRuns.RequeuedAtMostOnce` that no selection is ever requeued twice.
* A candidate with the word "unkeyed" and an origin for its keys is the candidate without keys of that origin
  (`Candidates.OneCandidate`).
* The listing of verified entries joins reviews by their time, so a candidate that was verified twice at one time is listed twice
  (`CandidateRuns.ListedTwice`); `CandidateRuns.ListedOnce` says exactly when it is listed once.

## Model

| member | source | states |
|---|---|---|
| SpoolStore.CaptureSpool.Admit | src/capture/spool.ts:225-272 | the admission leaves the tables that `SpoolTables.Admit` gives: duplicate, full, key conflict or inserted, with the counters |
| SpoolStore.CaptureSpool.Claim | src/capture/spool.ts:337-379 | leases expire, exhausted deliveries are held, and the first claimable rows in order are handed out or quarantined; the batch is a correct answer of the query |
| SpoolStore.HandedOutTells | src/capture/spool.ts:355-371 | what is handed out has the record, the attempts and the admission time of its row after the claim, and every claimed row that parses is handed out |
| SpoolStore.CaptureSpool.QuarantineRow | src/capture/spool.ts:627-634 | one row moves to the quarantine table, which keeps an earlier copy and only its newest rows |
| SpoolStore.CaptureSpool.Acknowledge | src/capture/spool.ts:381-396 | only a claimed row is committed and removed, and the history is pruned at every 256th commit |
| SpoolStore.CaptureSpool.PruneRecoveryHistory | src/capture/spool.ts:601-604 | the recovery rows of deliveries in the spool and the newest of the others remain |
| SpoolStore.CaptureSpool.Retry | src/capture/spool.ts:412-436 | only a claimed row goes back, after the capped exponential delay, held when its budget is used up |
| SpoolStore.CaptureSpool.WaitForDependency | src/capture/spool.ts:438-448 | an eligible delivery waits under its key and its claim is given back |
| SpoolStore.CaptureSpool.ReleaseDependency | src/capture/spool.ts:450-463 | the loop over the waiters wakes all of them, in any order, into a new generation with a fresh budget |
| SpoolStore.CaptureSpool.Quarantine | src/capture/spool.ts:479-496 | the row leaves the spool for the quarantine in both state machines |
| SpoolStore.CaptureSpool.HasEligiblePending | src/capture/spool.ts:465-467 | whether some pending delivery is eligible |
| SpoolRuns.Accounting | src/capture/spool.ts:225-272 | in every state of every run admitted plus requeued equals pending plus claimed plus committed plus quarantined; a delivery is in the spool iff it is eligible, waiting or held; claimed implies eligible; committed implies persisted |
| SpoolRuns.StepKeeps | src/capture/spool.ts:337-496 | every transaction keeps both state machines of every delivery, the budgets and the counters in step |
| SpoolRuns.CommittedIsTerminal | src/capture/spool.ts:381-396 | a retained committed delivery stays committed and persisted whatever stale drainers still do |
| SpoolRuns.SecondRequeueBlocked | src/capture/recovery.ts:215-220 | once a selection was requeued it is never current again, even if the ledger forgot it |
| SpoolRuns.ClaimsPerGeneration | src/capture/spool.ts:337-379 | a delivery is handed out at most four times per generation, and its spool attempts never fall below its recovery attempts |
| SpoolRuns.ClaimsApart | src/capture/spool.ts:337-379 | between two claims of one delivery with nothing that frees it in between, some claim saw the lease of the first run out; the clock may run backwards |
| SpoolRuns.ClaimsApartInTime | src/capture/spool.ts:337-379 | with a clock that does not run backwards they are at least a lease apart |
| SpoolBounds.CapacityHolds | src/capture/spool.ts:251-262 | in every run without recovery the spool stays within its limits of records and of bytes |
| SpoolBounds.DuplicatesAreSuppressed | src/capture/spool.ts:233-243 | in every state of every run an admission is a duplicate without effect iff the delivery has a recovery row, and a key conflict never occurs |
| SpoolBounds.ClaimSettles | src/capture/spool.ts:342-348 | after a claim nothing pending is eligible without a budget and no lease has run out |
| SpoolBounds.RetriesBackOff | src/capture/spool.ts:412-424 | a retried delivery is not claimed before its delay is over unless a wake-up or recovery reschedules it |
| SpoolBounds.DelayDoubles | src/capture/spool.ts:416-417 | the delay doubles with every attempt from 100 milliseconds to half a minute |
| SpoolEffects.AdmissionIsDecided | src/capture/spool.ts:225-272 | a delivery without a recovery row is taken in iff it fits within both limits, and is then due at once; otherwise only the failure is counted |
| SpoolEffects.DueIsHandedOut | src/capture/spool.ts:349-371 | a due delivery is handed out under a lease of half a minute, or the batch is full of deliveries that came in before it |
| SpoolEffects.HandedOutWasDue | src/capture/spool.ts:349-356 | only eligible deliveries that are due and have budget left are handed out, pending ones or ones whose lease ran out |
| SpoolEffects.DueIsHandedOutInRuns | src/capture/spool.ts:337-379 | in every run, as long as nothing disturbs it, a due delivery is handed out by the first claim with room at or after its due time |
| SpoolEffects.LapsedIsHandedOut | src/capture/spool.ts:342-371 | a claim past the lease of a delivery with budget left hands it out again |
| SpoolEffects.LeasedIsLeftAlone | src/capture/spool.ts:342-371 | a claim leaves a delivery whose lease has not run out as it is |
| SpoolEffects.RetriedComesBack | src/capture/spool.ts:412-436 | a retried delivery with fewer than four attempts is pending, eligible and due after its delay; with four it is held |
| SpoolEffects.RetriedIsHandedOut | src/capture/spool.ts:412-436 | in every run, it is handed out by the first claim with room after its delay |
| SpoolEffects.HeldAfterFour | src/capture/spool.ts:425-427 | in every run, a retry holds a delivery iff it was handed out exactly four times since its generation began |
| SpoolEffects.StaleRetryDoesNothing | src/capture/spool.ts:412-415 | a retry of a delivery that is not claimed any more changes nothing |
| SpoolEffects.WaiterWaits | src/capture/spool.ts:438-448 | a claimed delivery waits under its key, for its reason, without a lease; no other delivery is touched |
| SpoolEffects.WaiterIsNotHandedOut | src/capture/spool.ts:349-356 | a waiting or held delivery is in no batch |
| SpoolEffects.ReleaseWakes | src/capture/spool.ts:450-463 | exactly the deliveries that wait for the key become eligible, due after a tenth of a second, in a new generation, with no attempts |
| SpoolEffects.AcknowledgeCommits | src/capture/spool.ts:381-396 | a claimed delivery leaves the spool as committed; nothing else in the spool changes |
| SpoolEffects.StaleAcknowledgeDoesNothing | src/capture/spool.ts:381-386 | an acknowledgement of a delivery that is not claimed any more changes nothing |
| SpoolEffects.QuarantineEnds | src/capture/spool.ts:479-496 | the delivery leaves the spool as quarantined for the reason; nothing else in the spool changes |
| SpoolUpkeep.TablesAreTidy | src/capture/spool.ts:225-496 | in every state of every run exactly the claimed rows have a lease, sizes are those of the payloads, keys belong to who waits, rows are numbered without repetition, and at most a thousand copies are kept |
| SpoolUpkeep.UnreadableIsCopied | src/capture/spool.ts:357-364 | a row that does not parse is quarantined when it is claimed: as malformed with a corrupt copy in the current version, as unsupported in any other |
| SpoolUpkeep.CopyIsKept | src/capture/spool.ts:627-632 | a quarantined delivery has its copy, an earlier one unchanged; another copy is dropped only if it is the oldest of a thousand |
| SpoolUpkeep.ForgetsExactly | src/capture/spool.ts:601-604 | a step forgets a recovery row iff it makes a counter a multiple of 256, the delivery is out of the spool, and ten thousand rows are newer |
| DrainRuns.WakeupsAreKeptExactly | src/capture/spool-drain.ts:45-67 | of every run with crashes: in all its states each delivery that waits for something the store has is backed by a stored, unacknowledged provider that has not passed its release, iff no persist of the run inserts an awaited session whose key neither it nor such a provider releases, and no rejection takes away the only provider of a waiter |
| DrainRuns.WakeupsKeptExactly | src/capture/spool-drain.ts:140-182 | one step from a state without a lost wake-up leads to such a state iff it is neither such a persist nor such a rejection |
| DrainRuns.NoLostWakeup | src/capture/spool-drain.ts:45-67 | runs whose technical records carry no session, in which a session id determines its source and no context is refused, never lose one |
| DrainRuns.ProviderStaysUntilItReleases | src/capture/spool-drain.ts:174-182 | whatever the records, a provider stays until it releases its key, and then nobody waits for the key any more; one that is not persisted is also lost if its context is refused |
| DrainRuns.MoveKept | src/capture/spool-drain.ts:140-182 | every step of hooks, recovery, drainer and crash keeps what the drainer knows of its claims and why each waiter waits |
| StrandedWaiter.ScopeIsNeeded | src/capture/passive-service.ts:78-81 | a record with an embedded session, and a second source of one session id, each lose a wake-up in a run that keeps the other condition |
| StrandedWaiter.WakeupIsLost | src/capture/spool-drain.ts:174-182 | for every record that inserts an awaited session without releasing its key, a run from the empty spool ends with a met dependency and no provider |
| RefusedContext.ContextIsRefused | src/capture/passive-service.ts:78-92 | a run within the conditions on records refuses the context of a request in the second transaction of its persist, and the result of the request is never woken |
| DrainFinite.DrainingIsFinite | src/capture/spool-drain.ts:39-73 | after any run, a drain without new admissions, recovery or crashes claims only finitely often although wake-ups reset budgets, whatever keys the records have |
| DrainFinite.QuietMeasure | src/capture/spool.ts:450-463 | every quiet step keeps or lowers the lexicographic measure of the deliveries still blocked, the attempts of the unblocked and those of the blocked, and every claim of something lowers it |
| DrainLoop.Drainer.Process | src/capture/spool-drain.ts:41-68 | by steps of the state machine, one delivery takes exactly the turn that `DrainEffects.Turn` gives for the tables, the store and the errors that strike |
| DrainLoop.Drainer.DrainBatch | src/capture/spool-drain.ts:40-68 | the first hundred claimable deliveries are claimed and take their turns in order; if no error strikes, each ends committed, waiting or quarantined as the store demands |
| DrainLoop.Drainer.Drain | src/capture/spool-drain.ts:39-73 | the loop is a run of the state machine without a crash, batch after batch, and it ends before its deadline iff nothing pending is eligible any more |
| DrainEffects.DeliveredIsCommitted | src/capture/spool-drain.ts:56-60 | without an error a delivery that lacks and contradicts nothing is in the store and persisted, its row is gone, committed rises by one, who waited for its key is due again, and nobody waits for it |
| DrainEffects.UnmetWaits | src/capture/spool-drain.ts:46-50 | a delivery that lacks something waits for it under its key, whatever errors might strike, and the store is untouched |
| DrainEffects.WrongIsQuarantined | src/capture/spool-drain.ts:51-55 | a delivery that contradicts the store is quarantined for that reason, one that a transaction finds invalid as unknown |
| DrainEffects.StruckComesBack | src/capture/spool-drain.ts:63-66 | a delivery that an error strikes is due again after its delay, or held at its fourth attempt; the store has it unless the store was unavailable |
| DrainEffects.BatchSettles | src/capture/spool-drain.ts:41-68 | if no error strikes, at the end of a batch each of its deliveries is committed, waiting or quarantined according to what the store had at its turn, or was woken again by a later one |
| DrainEffects.WaitsExactly | src/capture/spool-drain.ts:140-158 | a record waits iff its source captures sessions and the store lacks its session, which comes first, or the request of its result |
| DrainEffects.ConflictsExactly | src/capture/spool-drain.ts:160-172 | a start that resumes nothing conflicts with another session of its id, an end with a session of another source, and nothing else conflicts |
| DrainEffects.StoredExactly | src/capture/passive-service.ts:76-92 | the store gains the session that a record brings if it had none of that id, and the request of an action; nothing it had changes |
| DrainEffects.ToldExactly | src/capture/spool-drain.ts:174-182 | a start releases its session and an action its request, for the sources that wait; no other record releases anything |
| DrainEffects.AgainIsHarmless | src/capture/spool-drain.ts:45-60 | delivering a stored record again neither waits nor conflicts and leaves the store as it is |
| DrainLoop.ExperienceStore.AppendIncremental | src/capture/passive-service.ts:76-88 | the store records the event and its session, or changes nothing |
| DrainLoop.ExperienceStore.PreserveContext | src/capture/passive-service.ts:89-91 | the second transaction of a request completes its persist or changes nothing |
| RecoveryPlanning.Query.CreatePage | src/capture/recovery.ts:61-97 | the loop lists the page that the candidates determine, with its cursor, for limits from 1 to 100 only |
| RecoveryPlanning.Query.PageStops | src/capture/recovery.ts:79-88 | a page stops at its two hundredth row, when it is full, or at the last row, whichever comes first |
| RecoveryPlanning.Query.PagingIsComplete | src/capture/recovery.ts:73-95 | for every limit, following the cursors over an unchanged spool lists exactly what one unlimited plan would list, with increasing cursors |
| RecoveryPlanning.Query.EveryRowListed | src/capture/recovery.ts:79-87 | every row in scope is listed as a selection iff it is eligible and as ineligible iff it is not |
| RecoveryPlanning.Query.ListedInOrder | src/capture/recovery.ts:74-87 | nothing else is listed, and nothing twice |
| RecoveryApply.RecoveryDatabase.Apply | src/capture/recovery.ts:99-153 | the two passes compute `ApplyPlan` |
| RecoveryApply.InvalidExactly | src/capture/recovery.ts:196-209 | a plan is invalid, and nothing changes, iff it has more than a hundred selections, names a delivery twice, or selects what is neither held nor quarantined or has no generation |
| RecoveryApply.AppliedStartsAfresh | src/capture/recovery.ts:124-148 | after a call that succeeds each delivery that it requeued is pending and eligible one generation on, due at once, with no attempts in either table; no other delivery changes; it requeued what the plan selects and the ledger did not know |
| RecoveryApply.AppliedIsHandedOut | src/capture/recovery.ts:130-140 | so the next claim with room hands each of them out |
| SpoolEffects.RequeuedIsHandedOut | src/capture/recovery.ts:130-140 | in every run a requeued delivery that parses is handed out by the first claim with room |
| SpoolEffects.IneligibleExactly | src/capture/recovery.ts:166-171 | each of the four reasons against a recovery, for any tables |
| SpoolEffects.RecoverableExactly | src/capture/recovery.ts:166-171 | in reachable states, a delivery is recoverable iff it is held and of the current version, or quarantined with a copy of corrupt text |
| SpoolEffects.ScopeExactly | src/capture/recovery.ts:173-189 | a payload belongs to a repository iff it declares it or its session is recorded there, and the two do not disagree |
| SpoolEffects.CurrentExactly | src/capture/recovery.ts:215-220 | a selection is current iff its delivery is recoverable and in its repository, and payload, state, reason, generation and attempts are as selected |
| RecoveryApply.AllOrNothing | src/capture/recovery.ts:113-151 | for every ledger, a valid plan that nothing disturbs changes nothing if a selection is stale; else it is applied completely, with exactly the ledger that follows, iff no selection is forgotten by its turn, which the ledger tells beforehand; else a part is applied and the call fails |
| RecoveryRuns.OrderHolds | src/capture/recovery.ts:124-151 | however calls for any plans, moves of the spool and moves of the experience database interleave transaction by transaction, the passed selections of a plan are requeued and the others unknown to the ledger |
| RecoveryRuns.RequeuedAtMostOnce | src/capture/recovery.ts:124-148 | in every such interleaving each selection of a plan is requeued at most once |
| RecoveryRuns.OnlyOthersSpoil | src/capture/recovery.ts:113-129 | a call fails at a selection only if since its check an event that is none of its own made that selection stale; the selections before it stay requeued |
| RecoveryRuns.CallThrough | src/capture/recovery.ts:124-151 | a call that got through leaves all selections requeued, and no later call changes anything |
| RecoveryRuns.PartlyApplied | src/capture/recovery.ts:124-129 | a concrete call passes its check, requeues one delivery, is overtaken by a call for the other one and fails |
| RecoveryRuns.CallsAreAllOrNothing | src/capture/recovery.ts:113-151 | at any point of any such interleaving, a call that nothing disturbs applies its plan completely or changes nothing |
| RecoveryRuns.LedgerHasNoRepeats | src/capture/recovery.ts:114-117 | no entry of the ledger is ever repeated |
| RecoveryRuns.TransactionMoves | src/capture/spool.ts:337-496 | every transaction of the spool is such a movement, unless it admits again a delivery whose recovery row was pruned |
| RecoveryApply.BegunStays | src/capture/recovery.ts:124-151 | a call stopped after any number of selections leaves the requeued selections of its plan in front and outgrown, the others unknown to the ledger |
| RecoveryApply.Resumable | src/capture/recovery.ts:124-151 | a call stopped after any number of selections can be resumed iff the ledger still knows what was requeued before; then the result is that of an uninterrupted run and the counts add up to the plan |
| RecoveryRuns.CannotBeResumed | src/capture/recovery.ts:144-146 | a concrete plan, stopped after its second selection, is then refused because its first entry has left the ledger |
| RecoveryRuns.CrowdedIsReal | src/capture/recovery.ts:114-117 | the database of that example keeps every invariant of the spool, and its ledger is full and has no repeated entry |
| RecoveryApply.FinishedIsFinished | src/capture/recovery.ts:113-129 | a plan that was applied completely changes nothing any more, whatever the ledger has forgotten |
| Alignment.Installation.Apply | src/installation/alignment.ts:131-180 | the call with its recovery, publication, exception handling and rollback computes `Run` at every number of writes it lives for |
| AlignmentSafety.FailedApplyIsPutBack | src/installation/alignment.ts:162-178 | an apply that is not stopped, of files that are all before and that others leave alone, fails iff a write fails or a callback throws, and then every file is before and the journal says rolled back; otherwise every file is after and the journal says applied |
| AlignmentSafety.RollbackIsJournaled | src/installation/alignment.ts:152-158 | a rollback of applied files that is not stopped puts every file back and journals it |
| AlignmentSafety.RefusesExactly | src/installation/alignment.ts:144-160 | a call refuses at its start iff the files are neither all before nor all after, or an interrupted publication was edited, or a rollback has no journal; then it changes nothing |
| AlignmentSafety.OthersUntouched | src/installation/alignment.ts:131-180 | a call, wherever it stops, leaves every file alone that the plan does not name |
| Alignment.Installation.PublishFiles | src/installation/alignment.ts:162-171 | the loop publishes the prefix that `Publish` says and stops where it says |
| Alignment.Installation.PutBack | src/installation/alignment.ts:116-124 | files are put back one by one |
| AlignmentSafety.AlignmentIsResumable | src/installation/alignment.ts:131-180 | after any number of applies stopped at any write, of failed ones put back or not, and of rollbacks stopped where they may, the next call that lives long enough finishes: apply with every file after, rollback with every file before |
| AlignmentSafety.CallKeeps | src/installation/alignment.ts:143-177 | a call leaves a recoverable disk iff it is an apply, or a rollback that has nothing to undo, is journaled as interrupted, or stops where it leaves no mixture |
| AlignmentSafety.StoppedRollbackIsStuck | src/installation/alignment.ts:152-158 | where a rollback may not stop, every later call in either direction refuses and changes nothing |
| AlignmentSafety.RollbackCanStrand | src/installation/alignment.ts:155-156 | two new files, an apply and a rollback stopped after one write are such a case |
| AlignmentSafety.CallCompletes | src/installation/alignment.ts:144-178 | from every recoverable disk a call that is not stopped and meets no failure reaches its goal |
| AlignmentSafety.CallIsFinite | src/installation/alignment.ts:131-180 | three writes per file and two for the journal are enough for every call |
| AlignmentSafety.NeverOverwritesOthers | src/installation/alignment.ts:144-177 | whatever others edit before or around publications, every write replaces the before or the after state of a file of the plan |
| RelationGraph.RelationVisitor.Visit | src/evidence/repository.ts:169-178 | the search reports a cycle only if there is one, and otherwise extends an order in which each record follows what it relates to |
| RelationGraph.FindCycle | src/evidence/repository.ts:168-179 | a batch is rejected iff its relations have a closed walk |
| RelationGraph.Propagate | src/evidence/repository.ts:201-212 | the passes terminate, and a row ends pending iff a walk leads from it to a row that began pending |
| EvidenceImport.SeedsAgree | src/evidence/repository.ts:180-198 | looking at siblings' operations first changes nothing: pending means leading to a row without its operation or with an unresolved outside relation |
| EvidenceImport.AnnotationStore.Save | src/evidence/repository.ts:123-265 | an import is rejected with the first fault and no change, or stores each row as resolved iff it leads to no unsettled row; the receipt counts what changed |
| EvidenceImport.AnnotationStore.Store | src/evidence/repository.ts:213-251 | rows are inserted or updated and resolved ones indexed once under the next ordinal |
| EvidenceRuns.SaveKeeps | src/evidence/repository.ts:123-252 | one import keeps the resolved annotations closed, requests of their own session, acyclic and exactly indexed, and loses none |
| EvidenceRuns.ImportsKeepInvariant | src/evidence/repository.ts:123-252 | so does every sequence of imports over growing evidence, although each looks for cycles in its own batch only |
| EvidenceRuns.ResolvedNeverShrinks | src/evidence/repository.ts:218-251 | what any import resolved stays resolved with the same content |
| EvidenceRuns.StoreKeepsIndexed | src/evidence/repository.ts:234-249 | the index holds exactly the resolved annotations, and the ordinals of a session strictly increase |
| EvidenceRuns.IndexedNext | src/evidence/repository.ts:238-249 | a newly indexed annotation gets the number after the highest that its session gave so far, to an operation or to an annotation |
| EvidenceRuns.AcceptedExactly | src/evidence/repository.ts:123-201 | an import is accepted iff its session belongs to its repository, nothing retained contradicts a record, the relations of the batch lead nowhere back, and none names an annotation of another scope |
| EvidenceRuns.FaultsAreExact | src/evidence/repository.ts:132-165 | a record conflicts iff its id is retained with another producer, context or content; else crosses scope iff another session uses its operation and its own does not; else is no request iff its session has the operation as something else |
| EvidenceRuns.ResolvedExactly | src/evidence/repository.ts:183-212 | after an accepted import a record is resolved iff its session retains its operation as a request and everything it relates to is resolved, inside the batch or outside |
| EvidenceRuns.PendingAreCounted | src/evidence/repository.ts:213-218 | the receipt counts the pending records of the batch |
| Intervals.UnionDuration | src/evidence/reconstructor.ts:349-360 | the sweep returns the number of milliseconds that lie in at least one interval |
| Reconstructor.UniqueById | src/evidence/reconstructor.ts:160-169 | the first stage accepts iff all observations are valid and equal ids are equal observations, and keeps each once |
| Reconstructor.UniqueByEvent | src/evidence/reconstructor.ts:170-183 | the second stage accepts iff observations of one source event agree apart from their ids, and keeps the first of each |
| Reconstructor.UniqueObservations | src/evidence/reconstructor.ts:160-184 | together they list the first observation of each source event in order, and the rest are duplicates |
| Reconstructor.GroupByRelatedRequest | src/evidence/reconstructor.ts:333-342 | each group holds, in order, exactly the evidence that names its request |
| Reconstructor.BuildOperations | src/evidence/reconstructor.ts:34-41 | the operations are built request by request, and the collected ids are exactly those that some operation uses |
| Reconstructor.Reconstruct | src/evidence/reconstructor.ts:25-128 | the whole computes a report that is a function of the set of observations and their number, or rejects |
| ReconstructionFacts.OrderDoesNotMatter | src/evidence/reconstructor.ts:160-184 | permuted observations give an equal report, or both are rejected |
| ReconstructionFacts.DuplicateOnlyCounts | src/evidence/reconstructor.ts:163-182 | one more copy of an observation changes the count of duplicates only, unless it exceeds the limit of 10,000 |
| ReconstructionFacts.EvidenceIsAccountedFor | src/evidence/reconstructor.ts:42-68 | kept plus duplicates is the input; a kept result is unmatched iff no request is matched to it; both counts are the numbers of such results |
| ReconstructionFacts.ResultsServeOnce | src/evidence/reconstructor.ts:78-88 | no result serves two operations |
| ReconstructionFacts.OperationNamesItsMatch | src/evidence/reconstructor.ts:85-88 | an operation names a result iff it is the request's only result under the request's execution key |
| ReconstructionFacts.NoTimeIsCountedTwice | src/evidence/reconstructor.ts:141-158 | active and waiting time never exceed the elapsed time of a session that its source ended |
| ReconstructionOutcomes.OutcomeIsExplained | src/evidence/reconstructor.ts:103-112 | an operation is a failed command iff its only qualified result reports failure and is no search without a match; a failed task iff that is not so and a verification failed; a success iff its result reports success and no verification failed; otherwise unknown |
| ReconstructionOutcomes.FieldsAreExplained | src/evidence/reconstructor.ts:95-127 | request, result, provenance, reason, interpretation, times and verifications of an operation, from the kept observations |
| ReconstructionOutcomes.RejectedExactly | src/evidence/reconstructor.ts:186-269 | a session is rejected iff its input is ill-formed, an observation is malformed for its kind or contradicts another, a kept one lies outside of the session, a result precedes its request, or an expected failure is not confirmed |
| ReconstructionOutcomes.LifecycleIsExplained | src/evidence/reconstructor.ts:130-139 | each of the four states of a session, from its end and its reconciliation |
| ReconstructionOutcomes.TimeIsExplained | src/evidence/reconstructor.ts:141-158 | active time counts the milliseconds in which some operation ran, waiting time those of observed waits, elapsed time is end minus start |
| ReconstructionOutcomes.OperationsInOrder | src/evidence/reconstructor.ts:34-41 | operations are in the order of their times and then of their events |
| ReconstructionOutcomes.EveryRequestHasOperation | src/evidence/reconstructor.ts:34-41 | every kept request has its operation |
| ReconstructionOutcomes.FirstIdIsKept | src/evidence/reconstructor.ts:171-176 | of the observations of one source event the one with the first id is kept |
| ReconstructionOutcomes.MissingAreExplained | src/evidence/reconstructor.ts:66-67 | the requests without a matched result are listed in order, and as many results are missing |
| ReconstructionOutcomes.UnmatchedInOrder | src/evidence/reconstructor.ts:42-60 | the results and verifications that no operation uses are listed in order of their ids |
| ProfileResolver.Resolver.Resolve | src/config/runtime-profile.ts:106-137 | the recursion succeeds iff the id has a chain to a built-in profile on which every learning descendant captures; then its memo holds the folds |
| ProfileResolver.DefineRuntimeProfiles | src/config/runtime-profile.ts:89-144 | definitions are accepted iff ids are new and unique and every id is sound, and each profile is the fold along its chain |
| ProfileResolver.ValidateRegistry | src/config/runtime-profile.ts:155-198 | a serialized registry is accepted iff its definitions produce exactly it, and it is returned unchanged |
| ProfileResolver.DefinitionOrderDoesNotMatter | src/config/runtime-profile.ts:139-143 | the order of the definitions decides neither acceptance nor profiles nor lineage |
| ProfileResolver.LearningIsLineage | src/config/runtime-profile.ts:142-152 | the listed learning profiles are those whose chain ends at learning |
| ProfileResolver.LearnersCapture | src/config/runtime-profile.ts:127-131 | each of them captures |
| Profiles.NearestOverrideWins | src/config/runtime-profile.ts:122-126 | each field of a fold, the degraded outcomes among them, has the value of the nearest definition that sets it, or of the built-in profile |
| Profiles.BuiltInsDiffer | src/config/runtime-profile.ts:33-60 | all built-in profiles capture and retrieve; only the normal one blocks hard, only the observing one never warns; degraded outcomes are allow, warn and block |
| ProfileLayers.ResolveTarget | src/config/profile-resolver.ts:140-163 | each field comes from the nearest layer that has it, and a learning profile that would not capture is refused |
| ProfileLayers.NearestLayerWins | src/config/profile-resolver.ts:286-319 | each field has the value of the nearest layer that gives it, by itself or by its profile, or else of the fallback |
| ProfileLayers.RefusedExactly | src/config/profile-resolver.ts:140-163 | a target is refused iff its fallback is no built-in profile, a layer names an unknown one, or the named profile descends from learning and the nearest capture flag is off; otherwise it has the id of the nearest named profile |
| ProfileLayers.ProfileHidesTheRest | src/config/profile-resolver.ts:286-319 | a layer that names a profile hides everything behind it |
| ProfileLayers.SelectWildcard | src/config/profile-resolver.ts:227-249 | the one best match wins, and two equally good ones are ambiguous |
| Candidates.CandidateRepository.Review | src/knowledge/candidate-repository.ts:125-158 | a review is applied, repeated without effect or refused as `Candidates.OutcomeOf` says |
| Candidates.CandidateRepository.Supersede | src/knowledge/candidate-repository.ts:168-203 | a supersession writes successor, predecessor, origin and review together or nothing |
| Candidates.CandidateRepository.InsertCandidate | src/knowledge/candidate-repository.ts:402-420 | a known identity only gains an origin |
| Candidates.OneCandidate | src/knowledge/candidate-identity.ts:16-25 | two registrations are one candidate iff they agree in scope and in both keys, or unkeyed in the origin, or the keys of one are the word "unkeyed" and the origin of the other |
| CandidateRuns.RunsKeepInvariant | src/knowledge/candidate-repository.ts:125-203 | every run keeps rows, reviews and links in agreement |
| CandidateRuns.ReviewsReplay | src/knowledge/candidate-repository.ts:145-155 | the reviews replay to the state; disputed iff contradicted, verified iff dated, superseded iff linked; nothing is rejected or expired |
| CandidateRuns.VerifiedTheLongWay | src/domain/transitions.ts:36-41 | a verified candidate that was never disputed was observed, confirmed and verified once each, the first two from different origins |
| CandidateRuns.ChainsAreLinear | src/knowledge/candidate-repository.ts:189-193 | supersession chains never return and never join |
| CandidateRuns.ChainRises | src/knowledge/candidate-repository.ts:190-191 | each step along a chain raises the revision by one |
| CandidateRuns.LinksAreInverse | src/knowledge/candidate-repository.ts:190-193 | the two links are inverse to each other |
| CandidateRuns.ReviewsAreIdempotent | src/knowledge/candidate-repository.ts:135-140 | the same evidence changes nothing for the same target and is refused for another |
| CandidateRuns.VerifiedIsListed | src/knowledge/candidate-repository.ts:230-250 | a candidate is listed as a verified entry iff it is verified |
| CandidateRuns.ListedOnce | src/knowledge/candidate-repository.ts:232-237 | its last review lists it, and no other does iff no earlier review verified it at the same time |
| CandidateRuns.ListedTwice | src/knowledge/candidate-repository.ts:232-237 | a concrete run verifies a candidate twice at one time, and it is listed twice |
| CandidateEffects.DisputedExactly | src/knowledge/candidate-repository.ts:310-313 | new evidence disputes a candidate iff it is a contradiction and the candidate is active; the review, the row and nothing else change |
| CandidateEffects.ObservedExactly | src/knowledge/candidate-repository.ts:314-318 | it observes a candidate iff it comes from a source and the candidate is new, or disputed and revalidated by name |
| CandidateEffects.ConfirmedExactly | src/knowledge/candidate-repository.ts:319-325 | it confirms an observed or revalidated candidate iff it comes from a source of an origin that did not support it before |
| CandidateEffects.VerifiedExactly | src/knowledge/candidate-repository.ts:327-371 | it verifies a confirmed or revalidated candidate iff it proves what kind of knowledge that is, in its scope and in a witnessed context |
| CandidateEffects.OtherTargetsAreRefused | src/knowledge/candidate-repository.ts:327-327 | no review makes a candidate new, superseded, rejected or expired |
| CandidateEffects.OtherEvidenceIsRefused | src/knowledge/candidate-repository.ts:129-141 | without its evidence, its candidate, or with evidence that the candidate has already, a review changes nothing |
| CandidateEffects.SupersededExactly | src/knowledge/candidate-repository.ts:168-203 | an active candidate is superseded iff new evidence of a change names it and the successor speaks of the same under a new identity; all that then changes |
| CandidateEffects.RegisteredExactly | src/knowledge/candidate-repository.ts:402-420 | a registration adds its origin, and a fresh row iff its identity is unknown |
| CandidateEffects.ReviewsAreJustified | src/knowledge/candidate-repository.ts:125-158 | in every run every review was made by a call whose evidence its target asks for, judged by what the candidate is about now |
| AdviceUsage.QualifiedProgress | src/advice/usage.ts:223-241 | the loop computes the ordered fold |
| AdviceUsage.AdvisoryUsageStore.RecordFact | src/advice/usage.ts:112-162 | a fact is recorded iff `AdviceUsage.MayRecord` allows it, with its outcome, and otherwise nothing changes |
| AdviceUsage.AdvisoryUsageStore.RecordRetrieval | src/advice/usage.ts:68-90 | a bundle is inserted once and retrieved once |
| AdviceUsage.AdvisoryUsageStore.Record | src/advice/usage.ts:92-96 | challenges and checks are refused at the public entry |
| AdviceUsage.AdvisoryUsageStore.RecordHostDelivery | src/advice/usage.ts:98-103 | the trusted entry of host challenges records deliveries only |
| AdviceUsage.AdvisoryUsageStore.RecordDeterministicOutcome | src/advice/usage.ts:105-110 | the trusted entry of checks records a fact with its outcome |
| AdviceRuns.FoldIsMembership | src/advice/usage.ts:223-241 | on a log in which every fact follows its prerequisite, the ordered fold is plain membership |
| AdviceRuns.FoldNeverFalls | src/advice/usage.ts:229-239 | a longer log never reads as a lower stage or as fewer or other applied references |
| AdviceRuns.StageIsMembership | src/advice/usage.ts:223-241 | on every reachable log the fold agrees with membership: stage, first selection, and every applied reference in order |
| AdviceRuns.OutcomesNameAppliedFacts | src/advice/usage.ts:151-158 | every outcome succeeded and names an applied fact before its own fact; every check has an outcome |
| AdviceRuns.OutcomesAreOwn | src/advice/usage.ts:153-158 | along every run the outcome of every check belongs to the bundle of the check iff no check was recorded under the reference of an outcome of another bundle |
| AdviceRuns.WitnessedChecksAreOwn | src/advice/observed-outcome.ts:39-43 | as references are digests of what they witness, that never happens |
| AdviceRuns.StageNeverFalls | src/advice/usage.ts:143-158 | along every run the stage of a bundle never falls and no applied reference is lost or reordered |
| AdviceRuns.NotedExactly | src/advice/usage.ts:112-162 | on every reachable log, an agent or the command line appends a fact iff the bundle is known in its scope, the origin may say so, and the log holds the fact that must come before; a repeated one is not appended |
| AdviceRuns.DeliveredExactly | src/advice/usage.ts:98-103 | a host challenge records a delivery of any known bundle in its scope, under a versioned reference, and nothing else does |
| AdviceRuns.CheckedExactly | src/advice/usage.ts:105-162 | a check is recorded iff its outcome is a success of this bundle and names an applied fact of it; its outcome is kept unless the reference has one |
| AdviceRuns.RetrievedExactly | src/advice/usage.ts:68-90 | the first retrieval makes a bundle known and is its first fact; a later one changes nothing |
| AdviceExposure.CodexAdviceExposureObserver.Consume | src/advice/codex-exposure.ts:159-206 | one event updates the fields as `AdviceExposure.Consumed` says |
| AdviceExposure.DeferredCodexAdviceExposureObserver.Consume | src/advice/codex-exposure.ts:39-59 | the deferred observer creates its monitor at the first thread start and refuses everything else before it |
| ExposureRuns.ReportsAreSound | src/advice/codex-exposure.ts:208-222 | on every stream a report implies the ordered exchange with no turn end before the completion, and a result a later turn end; if completed items have names the completion is that of the reported echo; exactly one thread started iff none started with an empty id |
| ExposureRuns.EchoEndsExactly | src/advice/codex-exposure.ts:186-205 | of every reported stream, the exchange ends with the reported echo iff a completion of its name stands after its start and before the end of a turn |
| ExposureRuns.EmptyThreadIdIsNotCounted | src/advice/codex-exposure.ts:162-166 | a thread start with an empty id in front of any stream changes no report |
| ExposureRuns.UnnamedItemFoolsTheMonitor | src/advice/codex-exposure.ts:177-205 | a concrete stream is reported although the reported echo never completes |
| ExposureRuns.InvalidIsForGood | src/advice/codex-exposure.ts:160-160 | once invalid the monitor reports nothing any more |
| ExposureRuns.ReportNeverChanges | src/advice/codex-exposure.ts:212-222 | a report stays as it is until the monitor becomes invalid |
| ExposureRuns.DeferredReportsAreSound | src/advice/codex-exposure.ts:32-70 | what the deferred observer reports is the exchange of the only thread of the stream, in its own scope; with named completions it ends with the reported echo; a result comes after the end of a turn |
| ExposureRuns.DeferredEchoEndsExactly | src/advice/codex-exposure.ts:32-70 | its echo ends exactly as that of the inner monitor |
| ExposureStories.StoriesAreReported | src/advice/codex-exposure.ts:159-222 | every stream that tells the whole exchange, with nothing in between that speaks against it, is reported with its ids and its response, and as the result of a turn iff a turn ended afterwards |
| ExposureStories.DeferredStoriesAreReported | src/advice/codex-exposure.ts:32-70 | behind noise the deferred observer reports every such exchange that begins with the thread of its scope |
| ExposureStories.AnswersAre | src/advice/codex-exposure.ts:186-199 | what counts as the answer to the retrieval: a success of at most 4096 bytes that offers the bundle and carries a challenge of 32 digits |

## Left out

- SQLite, write-ahead logging, file permissions, process spawning, git and the real clock: a transaction or a rename is one step, and a time is an argument.
- The drain lock, the completion flag, delayed-delivery diagnostics, analysis scheduling and receipts of src/capture/spool.ts and src/capture/spool-drain.ts: a single drainer at a time is assumed where it matters.
- Repository, source and event-class columns of the spool, and the detection of duplicates of migrated legacy rows: runs start from an empty spool.
- The failed-admission counter under an admission with a receipt, which its transaction takes back.
- Writers of the experience store other than the drainer, and an error after a transaction took effect: both transactions of a persist are atomic and idempotent, and only a delivery that never got past one of them is rejected there as invalid.
- DrainRuns.NoLostWakeup: names runs that never lose a wake-up; `DrainRuns.WakeupsAreKeptExactly` says exactly when none is lost, and `StrandedWaiter.ScopeIsNeeded` and `RefusedContext.ContextIsRefused` show that each of its conditions is needed. A provider that stays may still be held after four failures, and then it wakes nobody before it is recovered. Drainers that overlap are not part of the drain model.
- SpoolRuns.CommittedIsTerminal: speaks of retained rows only, because pruning forgets old committed rows.
- SpoolStore.CaptureSpool.Retry: reads the attempts in its transaction; the source reads them before it, so with overlapping drainers the delay can come from an earlier attempt.
- SpoolRuns.SecondRequeueBlocked: speaks of retained rows only, because a delivery whose recovery row was pruned starts again in its first generation.
- RecoveryApply.AllOrNothing: speaks of a call that nothing disturbs; what others do between its transactions is part of `RecoveryRuns`, except that a delivery which the recovery table forgot is not admitted again.
- RecoveryApply.Resumable: speaks of ledgers in which the known selections of the plan come first, which all calls leave (`RecoveryRuns.OrderHolds`); a call for any other ledger is described by `RecoveryApply.AllOrNothing`.
- DrainLoop.Drainer.Drain: the deadline is a given list of passes with their times.
- DrainLoop.ExperienceStore.AppendIncremental: of the experience store, only sessions and requests are described, because nothing else decides who waits.
- Reconstructor.Reconstruct: token usage, transport measurements and coverage classes of the report are left out.
- ProfileLayers.ResolveTarget: the layers are given, so exact selectors, matching and the trace are left out.
- SpoolBounds.CapacityHolds: excludes recovery, which inserts without looking at the capacity.
- The alignment lock, the checks for symbolic links and owned paths, and the check of the previous writer: one process aligns at a time, on a validated plan.
- Build attestation, writer contracts and the digest of a plan: a plan is what it says.
- EvidenceRuns.ImportsKeepInvariant: assumes that retained operations, whether they are requests, and the repositories of sessions are never taken back between imports.
- Parsing and size limits of artifacts, definitions, registrations and events: the models start from parsed values with distinct ids where the parser ensures them.
- Distributions over session reports.
- Selector matching, URL and path normalisation, and the trace of the profile resolution.
- Operational backfill, review-required findings, the acceptance of local entries by applicability, and src/domain/transitions.ts beyond the transition table.
- The trust of witnesses (host child processes, deterministic checkers) and the recording of an exposure after it was observed.
