# Verification of the runtime's state machines

A Dafny model of the parts of the runtime where several things happen at once or where a small
data structure has to keep a subtle promise, with proofs about it. `dafny verify dfyconfig.toml`
checks everything.

- **State persistence of one entity** (`StateCtx`, `Persist`, `PersistWakeup`,
  `PersistRuns`, `PersistRest`, `PersistTheorems`). The worker
  thread's state context; then the single-flight persist loop as interleaved steps of the worker,
  its bounded mailbox, callers that hand dispatch results over, and any number of loops. Every
  remote call may fail, every send may be refused, every snapshot may time out.
- **The manifest writer** (`Manifest`, `ManifestMachine`, `ManifestTheorems`,
  `ManifestCompletion`). One call without
  interference as a class over a content-addressed store; then any number of calls that wait for
  one mutex, hold it across their remote calls, may see each of them fail (a put also after it
  has stored its block) and may be dropped at every await.
- **The kind system** (`Paths`, `KindTree`, `KindResolve`, `KindReload`, `Overlay`,
  `BehaviourText`). Protocol ids and paths, the trie, inheritance, the reload set, the overlay,
  and the source text that the inheritance chain turns into.
- **Schedule registrations** (`ScheduleRegistry`, `Scheduler`, `SchedulerTheorems`,
  `SchedulerCompletion`). The shared
  registry; then registration tasks, firing jobs and shutdown in any interleaving, with epochs
  (the time between two removals of a key) as history.
- **Smaller cores** (`Duration`, `Backoff`, `Deletion`). The duration notation, the Fibonacci
  backoff of outboxes, and the deletion loop over the parent forest.

`Basics` and `Runs` are shared. A state machine is a partial function `Next` from a world and a
step to a world; theorems about runs quantify over all step sequences from an initial world.
Fields of a world that its comment calls history are read by no step.

Results of Kubo calls, Wasm calls, scheduler calls and clocks are parameters of steps and
methods. A dispatch is the list of states its plugin sets, and whether its result arrives.

## Where the code does less than one might expect

Each of these is proved together with the exact condition under which the expectation holds.

- Setting state back to the persisted bytes while other bytes are pending is ignored
  (`RevertIsIgnored`, `LastSetWinsExactly`).
- A persist loop that has cleared its flag may hold a snapshot for so long that its restart saves
  older bytes over newer ones, although every result was handed over at once
  (`StaleRestartOverwrites`). Every completion of a loop started at rest ends in
  agreement exactly when its bytes are not out of date (`StartAgreesExactlyWhenFresh`). A whole
  run whose saves succeed does exactly when, since the last accepted value was accepted or saved,
  no loop was started with other bytes and nothing pending (`QuiescentAgreement`).
- A dispatch that fails after queueing state leaves it pending with nobody to save it
  (`FailedDispatchLosesWakeup`). `StepLosesWakeupExactly` says which steps lose a wakeup, and
  `WakeupHoldsThroughoutExactly` which runs keep it.
- A writer call dropped between moving the root and writing the runtime's stats leaves the stats
  naming the old root (`StatsCanLag`, `DropLeavesStatsBehindExactly`).
- A kind whose `extends` is not written with exactly one leading slash resolves, but is not
  reloaded when its base changes (`UnslashedBaseIsMissed`, `ReloadIsSoundExactly`).
- An overlay protocol below a stored one is reported as changed, and dropped
  (`ChangeTakesEffectExactly`); one above stored protocols drops these
  (`OverlayIsOverrideExactly`).
- Removing a schedule's entry restarts its versions, so a slow registration can act on the entry
  of a later one, and two jobs of one key stay alive (`ReusedVersionDoublesTheJob`,
  `MistakesAreReusedVersions`).
- A duration sum beyond 64 bits panics in a build with overflow checks and wraps around in one
  without (`ResultIsExactSum`).
- Backoff delays saturate from the 94th counted failure on (`DelayIsExactly`), and marking an
  outbox panics when the retry time is past the end of the clock (`MarkPanicsExactly`).

## Model

| member | source | states |
|---|---|---|
| StateCtx.RunKeepsBookkeeping | src/plugin/backend.rs:231-263 | over every sequence of `queue_state` and `mark_saved`, `dirty` holds exactly when something is pending, pending never equals persisted, and pending is the value accepted last |
| StateCtx.PendingExactly | src/plugin/backend.rs:241-262 | over every run, pending is exactly what was accepted last and not saved since |
| StateCtx.PersistedExactly | src/plugin/backend.rs:241-252 | over every run, persisted is what was reported saved last, or the initial state |
| StateCtx.QueueIgnoresExactly | src/plugin/backend.rs:254-262 | a set is ignored for exactly the bytes that are already pending or persisted, and otherwise is pending and moves the generation |
| StateCtx.LastSetWinsExactly | src/plugin/backend.rs:254-262 | a set takes effect exactly when it does not go back to the persisted bytes under other pending ones |
| StateCtx.RevertIsIgnored | src/plugin/backend.rs:254-262 | the family of inputs for which the last set does not win |
| StateCtx.QueueAllEffect | src/plugin/backend.rs:254-262 | any number of sets: generation counts the accepted ones modulo 2^64, pending is the last accepted, persisted stays |
| StateCtx.DispatchReportsExactly | src/plugin/backend.rs:950-985 | a dispatch reports state exactly when the number of accepted sets is not a multiple of 2^64, and then the one accepted last |
| StateCtx.ReportsOncePerChange | src/plugin/backend.rs:225-228 | a dispatch that repeats pending or persisted bytes changes and reports nothing; one that sets anything else reports what is pending in the end |
| StateCtx.StateCell.constructor | src/plugin/backend.rs:232-239 | a fresh context has the loaded bytes persisted and nothing pending |
| StateCtx.StateCell.MarkSavedBytes | src/plugin/backend.rs:241-252 | the in-place `mark_saved` is the function the run theorems are about |
| StateCtx.StateCell.Queue | src/plugin/backend.rs:254-262 | the in-place `queue_state` is the function the run theorems are about |
| StateCtx.StateCell.ExecuteDispatch | src/plugin/backend.rs:950-1030 | what one dispatch leaves in the context and reports, for every sequence of sets, succeeding or not |
| Persist.StepKeeps | src/plugin/mod.rs:742-814 | every step of worker, caller or loop keeps single flight, bookkeeping, mail order and data agreement |
| Persist.ReachableInv | src/plugin/mod.rs:742-814 | the same over every run |
| PersistTheorems.AtMostOneLoop | src/plugin/mod.rs:749-760 | at most one loop is ever between swapping the flag in and storing it back |
| PersistRuns.LoopDrains | src/plugin/mod.rs:792-803 | state that is pending when a loop takes its snapshot is saved by that very loop before it clears the flag |
| PersistRuns.FailedSaveDrains | src/plugin/mod.rs:779-795 | a loop whose add or manifest update fails goes on with the newest pending state |
| PersistRuns.GivesUpRun | src/plugin/mod.rs:797-805 | a loop that cannot get its snapshot saves nothing more, clears the flag and asks once more |
| PersistRuns.LastGiveUpRun | src/plugin/mod.rs:805-813 | a loop that cannot get its last snapshot ends and leaves the flag alone |
| PersistRuns.RefusedReportRun | src/plugin/mod.rs:714-716 | a refused report of a save is dropped and the loop goes on |
| PersistRest.CanComeToRest | src/plugin/mod.rs:742-814 | from every reachable world the protocol can come to rest without further dispatches, with the flag clear; cleanly and with nothing pending if nothing had been refused, lost or timed out |
| PersistRest.MailboxIsBounded | src/plugin/mod.rs:37 | the mailbox never holds more than 64 messages, and a dispatch is refused exactly when it holds that many |
| PersistWakeup.DispatchLosesWakeupExactly | src/plugin/backend.rs:970-985 | after a dispatch somebody attends to pending state exactly when somebody did before, nothing was accepted, or its report arrives |
| PersistWakeup.StepLosesWakeupExactly | src/plugin/mod.rs:742-814 | a step loses the wakeup exactly when it is such a dispatch, or a post-release snapshot is given up, with no other cover |
| PersistWakeup.WakeupHoldsThroughoutExactly | src/plugin/mod.rs:742-814 | pending state is attended to in every world of a run exactly when none of its steps loses the wakeup |
| PersistWakeup.WakeupIsNeverLost | src/plugin/mod.rs:742-814 | whatever else fails, if every dispatch reports what it queued and no post-release snapshot is given up, pending state queued by a dispatch has a result to be handed over, the flag set, or a loop that owes its last snapshot |
| PersistTheorems.QuiescentAgreement | src/plugin/mod.rs:763-814 | at rest nothing is pending and the manifest's state is the persisted one, whatever failed and was retried; it is the value accepted last if no loop was started with other bytes and nothing pending since that value was accepted or saved, and only if when saves succeed |
| PersistTheorems.PromptHandOverIsFresh | src/plugin/mod.rs:742-761 | results handed over before the next dispatch never start a loop with outdated bytes |
| PersistTheorems.PromptAgreement | src/plugin/mod.rs:742-814 | with prompt hand-overs, and post-release restarts that are not out of date, everything agrees at rest |
| PersistTheorems.StartAgreesExactlyWhenFresh | src/plugin/mod.rs:742-814 | from agreement at rest, every completion after a start with given bytes, whatever happens meanwhile, ends in agreement exactly when these bytes are not out of date |
| PersistTheorems.FailedDispatchLosesWakeup | src/plugin/backend.rs:970-985 | for every initial state and every other one a failing dispatch sets, the run that leaves it pending with nobody to save it |
| PersistTheorems.StaleRestartOverwrites | src/plugin/mod.rs:804-808 | a run with prompt hand-overs in which a delayed restart saves the second state over the third |
| Manifest.ManifestWriter.constructor | src/manifest.rs:58-69 | a new writer has a root and no cached manifest |
| Manifest.ManifestWriter.FetchOrCached | src/manifest.rs:89-97 | takes the cached manifest out or fetches the one at the root, and gives the published one either way |
| Manifest.ManifestWriter.PublishManifestUpdate | src/manifest.rs:71-87 | root, cached manifest and stats move together once the manifest is stored, or nothing moves |
| Manifest.ManifestWriter.MutateManifest | src/manifest.rs:109-121 | exactly when it succeeds; then the edit of the published manifest is published, otherwise root, store and stats stay and the cache is gone |
| Manifest.ManifestWriter.UpdateEntityNode | src/manifest.rs:166-195 | exactly when it succeeds; then the node of that fragment alone is what the setter makes of it, or there was nothing to change and the cache is put back |
| Manifest.PutNodeHasEffect | src/manifest.rs:188-194 | storing the updated node and linking to it changes that entity only |
| Manifest.NothingToSetExactly | src/manifest.rs:243-257 | a setter has nothing to do exactly when it sets the reload error that is there |
| Manifest.SettersKeepEachOthersFields | src/manifest.rs:199-257 | after any sequence of the four setters each field is the last one written by a setter of that field, and `initialised` never goes back |
| ManifestMachine.StepKeeps | src/manifest.rs:71-195 | every step, failure or drop keeps cache coherence, the lock discipline, what tasks carry, the commit history and the stats |
| ManifestMachine.ReachableInv | src/manifest.rs:71-195 | the same over every run |
| ManifestMachine.PinnedKeepsHistory | src/manifest.rs:79-84 | publishing extends the chain of commits by the effect of the lock holder's call |
| ManifestMachine.DropKeeps | src/manifest.rs:109-195 | dropping a call at any await keeps all of it |
| ManifestCompletion.MutationCompletes | src/manifest.rs:109-140 | with the lock free, an edit that accepts the published manifest goes through, awaiting or not, when fetch, closure and put succeed; the whole world afterwards |
| ManifestCompletion.UpdateCompletes | src/manifest.rs:166-195 | the same for an update of an entity node |
| ManifestCompletion.IdleUpdateCompletes | src/manifest.rs:183-186 | an update with nothing to change leaves everything but the cached copy |
| ManifestCompletion.AcquireFailsExactly | src/manifest.rs:109-179 | when a call fails as soon as it has the lock |
| ManifestCompletion.ResumeFailsExactly | src/manifest.rs:71-195 | at every other await, a call fails exactly when that fetch, put or closure failed, or the published manifest refuses the call or lacks its node; a failing pin does no harm |
| ManifestCompletion.DroppedCallLeavesNoTrace | src/manifest.rs:109-195 | a call dropped before its root moved leaves nothing but an empty cache, and a free lock |
| ManifestTheorems.CacheIsCoherent | src/manifest.rs:71-97 | in every reachable world a cached manifest is the one stored at the root, and at most one call is past its lock |
| ManifestTheorems.RootMovesOnlyByPublishing | src/manifest.rs:71-87 | a step leaves the root and what is published there alone, or it is the lock holder's and has just its call's effect |
| ManifestTheorems.UnchangedIsUpToDate | src/manifest.rs:183-186 | "nothing to change" is only answered when that is true of the published node |
| ManifestTheorems.CommitsAreSerial | src/manifest.rs:100-140 | the published manifest is the first one with the committed calls applied one by one; each call that returned a new root is among them exactly once and no failed one is |
| ManifestTheorems.CommitsKeepLockOrder | src/manifest.rs:109-121 | a call that still waits for the lock commits after everything committed by then |
| ManifestTheorems.EntityIsFoldOfItsSetters | src/manifest.rs:166-257 | the published node is the first one with all setters committed for it in order, and entities nobody named keep their link |
| ManifestTheorems.SettersDoNotUndoEachOther | src/manifest.rs:199-257 | concurrent state, behaviour, reload-complete and reload-error updates keep each other's fields, and an initialised entity stays so |
| ManifestTheorems.SettersTouchNoOtherField | src/manifest.rs:188-194 | setters change nothing of the manifest but links of entities it already has |
| ManifestTheorems.StatsNameTheRoot | src/manifest.rs:83-86 | with the lock free and no drop the stats name the root |
| ManifestTheorems.DropLeavesStatsBehindExactly | src/manifest.rs:83-86 | a drop leaves the stats behind exactly when it comes between moving the root and writing them, and the commit moved the root to another one |
| ManifestTheorems.StatsCanLag | src/manifest.rs:83-86 | such a run, for every first world and every edit |
| Paths.JoinSplit | src/entity.rs:37-46 | joining the pieces of a split gives the string back |
| Paths.SplitJoin | src/entity.rs:37-46 | splitting a join of slash-free segments gives the segments back |
| Paths.SegmentsAreCanonical | src/entity.rs:37-53 | what an insert, lookup or removal is made with |
| Paths.ReadBackExactly | src/entity.rs:55-67 | looking a printed id up finds its leaf exactly for paths that an insert can produce |
| Paths.IdIsInjective | src/entity.rs:55-67 | different leaves print differently |
| Paths.CanonicalIdIsListed | src/entity.rs:37-67 | every spelling of a protocol is looked up as the id the tree lists |
| Paths.SameSegmentsSameId | src/entity.rs:37-67 | two spellings are the same protocol exactly when they differ in leading slashes only |
| Paths.ParseIsSplit | src/crud/helpers.rs:25-39 | for every string: the path parser needs a leading slash, cuts at every slash, needs a namespace, and drops empty pieces |
| Paths.NonEmptyIsFilter | src/crud/helpers.rs:33-37 | dropping empty pieces keeps exactly the others, in order |
| Paths.TrailingSlashIsIgnored | src/crud/helpers.rs:25-39 | a trailing slash changes nothing |
| Paths.KindsPathRoundTripExactly | src/crud/kinds.rs:56 | the `/kinds` path of a protocol, with any extra slashes, parses and joins back to it exactly when no segment is empty |
| KindTree.GetAfterInsert | src/entity.rs:69-101 | lookup after an insert that is not blocked, for every path |
| KindTree.BlockedMeetsLeaf | src/entity.rs:69-84 | the walk meets a leaf exactly when a stored protocol is a strict prefix |
| KindTree.BlockedInsertIsDropped | src/entity.rs:69-84 | an insert below a stored protocol changes nothing |
| KindTree.InsertedOrDropped | src/entity.rs:69-84 | an insert takes effect exactly when it is not below a stored protocol |
| KindTree.InsertIsUpdateExactly | src/entity.rs:69-84 | insert is map update exactly when no stored protocol is a strict prefix or extension |
| KindTree.GetAfterRemove | src/entity.rs:86-119 | lookup after a removal, for every path |
| KindTree.RemoveIsRemovalExactly | src/entity.rs:103-119 | remove is map removal exactly when no stored protocol strictly extends it |
| KindTree.RemoveAnswersExactly | src/entity.rs:103-119 | the answer is true exactly when something stored at or below the protocol went |
| KindTree.PrefixFree | src/entity.rs:86-101 | no stored protocol is a strict prefix of another |
| KindTree.InsertKeepsTidy | src/entity.rs:69-84 | an insert leaves no empty branch |
| KindTree.RemoveKeepsTidy | src/entity.rs:103-119 | a removal prunes empty branches |
| KindTree.RunsStayWellFormed | src/entity.rs:69-119 | all of this over every run from the empty tree, and every stored protocol can be listed and looked up |
| KindTree.PathsAreDomain | src/entity.rs:121-133 | the leaves met by listing are the domain of lookup |
| KindTree.BeforeByFirstDifference | src/entity.rs:20 | the order of keys: a proper prefix first, or the smaller character where two first differ |
| KindTree.PathBeforeByFirstDifference | src/entity.rs:121-133 | the order of paths that visiting nested sorted maps gives |
| KindTree.CollectIds | src/entity.rs:121-133 | the listing appends the id of every leaf, each once, in the order of the segments |
| KindTree.IdsAreDomain | src/entity.rs:55-67 | the listed ids are exactly the domain, without duplicates, in order |
| KindTree.KindTreeCell.constructor | src/entity.rs:19-20 | the empty tree is well formed |
| KindTree.KindTreeCell.InsertProtocol | src/entity.rs:37-41 | nothing at all below a stored protocol; otherwise every path's link, stored protocols below the inserted one being dropped |
| KindTree.KindTreeCell.GetProtocol | src/entity.rs:43-47 | every spelling finds the same link, and one exactly when the tree lists the protocol |
| KindTree.KindTreeCell.RemoveProtocol | src/entity.rs:49-53 | every path's link afterwards, and what the answer says |
| KindTree.KindTreeCell.ProtocolIds | src/entity.rs:55-60 | exactly the domain, without duplicates, in order |
| KindTree.KindTreeCell.IterProtocols | src/entity.rs:62-67 | every stored protocol with its link, in order: listing and lookup together lose no leaf |
| KindResolve.MergeKindOverBase | src/entity.rs:432-463 | the list-building merge is the algebraic one |
| KindResolve.MergeIsAssociative | src/entity.rs:432-463 | merging is associative |
| KindResolve.MergeLayers | src/entity.rs:441-452 | the behaviour layers of a merge are base's and then the derived kind's |
| KindResolve.UnionAppend | src/entity.rs:433-438 | host functions are united in order |
| KindResolve.UnionAppendsNew | src/entity.rs:433-438 | a union starts with the base's list and appends, in order, what is not yet listed |
| KindResolve.UnionOfUnion | src/entity.rs:433-438 | uniting in two stages drops nothing else |
| KindResolve.LookupIsTreeLookup | src/entity.rs:418-424 | finding a base is the tree's lookup and the fetch |
| KindResolve.ResolveKindExtends | src/entity.rs:403-430 | the hop loop is the recursive resolution |
| KindResolve.ResolveFromIsMergeAll | src/entity.rs:403-430 | resolution merges the chain of bases, or fails as the chain does |
| KindResolve.ResolveIsFold | src/entity.rs:403-430 | resolution succeeds exactly when the chain ends within 8 hops, and is the kind merged over its resolved base |
| KindResolve.ResolvedFields | src/entity.rs:385-463 | nearest binary, behaviour and attributes, base-first behaviour layers, base-first host functions without repetition |
| KindResolve.NearestIsFirst | src/entity.rs:455-457 | what the nearest value of a list of layers is |
| KindResolve.ResolvesWithinEightHops | src/entity.rs:408-424 | a kind resolves exactly when its `extends` can be followed to an end in at most 8 hops; otherwise which error, and which base it names |
| KindResolve.CycleIsError | src/entity.rs:400-430 | a chain that comes back to a base never resolves |
| KindReload.KindDependsOn | src/crud/helpers.rs:188-220 | the loop is the walk the exactness lemmas are about |
| KindReload.DependentsOf | src/crud/helpers.rs:237-242 | the kinds depending on one updated protocol |
| KindReload.AffectedKindProtocolsFor | src/crud/helpers.rs:230-245 | the updated protocols and all kinds depending on one of them |
| KindReload.DependenceIsVisiting | src/entity.rs:403-430 | a change at an id can matter to a kind exactly when its resolution looks that id up |
| KindReload.DependsOnExactly | src/crud/helpers.rs:188-220 | the walk finds exactly the ids visited through plainly written links |
| KindReload.ReloadIsSound | src/crud/helpers.rs:188-245 | kinds outside the reload set resolve to the same node or error before and after |
| KindReload.ReloadIsSoundExactly | src/crud/helpers.rs:188-245 | when leaving a kind out is harmless, whatever the spelling of `extends` |
| KindReload.ReloadSetIsExact | src/crud/helpers.rs:188-245 | no kind is in the set that no update could change |
| KindReload.UnslashedBaseIsMissed | src/crud/helpers.rs:188-220 | a kind that is missed, and then fails to resolve |
| Overlay.InsertOne | src/bootstrap.rs:313-315 | one overlay insert after any others |
| Overlay.InsertFirstIsOverlaid | src/bootstrap.rs:301-336 | what any number of overlay inserts amount to |
| Overlay.OverlayIsOverrideExactly | src/bootstrap.rs:296-338 | the overlay is map override exactly when no overlay protocol is a strict prefix or extension of a stored one |
| Overlay.ChangeTakesEffectExactly | src/bootstrap.rs:326-336 | a reported change took effect exactly when it was not below a stored protocol |
| Overlay.ChangedIsExact | src/bootstrap.rs:326-337 | the reported protocols are exactly those whose link differed, once each and in order |
| Overlay.BuildCandidate | src/bootstrap.rs:301-317 | succeeds exactly when every overlay kind can be fetched and names its own protocol; otherwise the error of the first that does not |
| Overlay.ResolveAll | src/bootstrap.rs:319-324 | succeeds exactly when every overlay kind resolves in the candidate; otherwise the error of the first that does not |
| Overlay.AcceptableExactly | src/bootstrap.rs:303-324 | acceptable means that every overlay kind is found, names the protocol it is stored under, and resolves in the result |
| Overlay.InsertAndCollect | src/bootstrap.rs:326-337 | the manifest becomes the candidate, and what is reported |
| Overlay.ApplyKindsTreeOverlay | src/bootstrap.rs:296-338 | all or nothing, whichever fetch fails: succeeds exactly when the result is acceptable, leaves the manifest alone otherwise |
| ScheduleRegistry.Registry.constructor | src/scheduler_actor.rs:152-156 | no entries at first |
| ScheduleRegistry.Registry.BeginRegistration | src/scheduler_actor.rs:158-174 | hands the previous job out, and leaves only the new version's guard true |
| ScheduleRegistry.Registry.ActiveGuard | src/scheduler_actor.rs:176-183 | a guard holds while the entry has its version |
| ScheduleRegistry.Registry.CommitRegistration | src/scheduler_actor.rs:185-207 | only the guarded attempt becomes active |
| ScheduleRegistry.Registry.RollbackRegistration | src/scheduler_actor.rs:209-217 | only the guarded attempt's entry goes |
| ScheduleRegistry.Registry.DeactivateAll | src/scheduler_actor.rs:219-225 | no guard holds afterwards |
| Scheduler.StepKeeps | src/scheduler_actor.rs:243-356 | every step keeps the meaning of versions and the place of every job |
| Scheduler.ReachableInv | src/scheduler_actor.rs:243-356 | the same over every run |
| SchedulerTheorems.GuardExactly | src/scheduler_actor.rs:158-183 | a guard holds exactly when its place in its epoch is that of the last registration in the current one |
| SchedulerTheorems.LatestWins | src/scheduler_actor.rs:158-217 | within an epoch exactly the last begun registration's guard holds |
| SchedulerTheorems.SupersededChangesNothing | src/scheduler_actor.rs:322-356 | a superseded commit, rollback, one-shot completion or random job changes nothing |
| SchedulerTheorems.SupersededStaysSilent | src/schedule.rs:275-330 | its guard stays false for the rest of the epoch |
| SchedulerTheorems.MistakesAreReusedVersions | src/scheduler_actor.rs:209-217 | exactly when a registration can act on another one's entry |
| SchedulerTheorems.ReusedVersionDoublesTheJob | src/scheduler_actor.rs:209-217 | a run that ends with two live jobs of one key, both guards true |
| SchedulerTheorems.EveryJobIsAccountedFor | src/scheduler_actor.rs:243-356 | per key: every job ever added is tracked by its key's entry, held by exactly one task, or neither and then removed or a one-shot that has fired; a removed job is neither, and a repeating job ends by removal alone |
| SchedulerTheorems.OneLiveJobPerKey | src/scheduler_actor.rs:243-356 | when a key's tasks are done at most one live job of it is left, whatever happens to other keys |
| SchedulerCompletion.RandomScheduleGoesOn | src/schedule.rs:294-330 | a random registration that is the last of its epoch and was never refused a job has exactly one job waiting or fired; no random registration ever has two |
| SchedulerCompletion.RegistrationCompletes | src/scheduler_actor.rs:243-356 | an undisturbed registration removes the job it replaces and ends with its own live job tracked under a guard that holds, other keys and jobs untouched |
| SchedulerCompletion.FailedRegistrationLeavesNoEntry | src/scheduler_actor.rs:315-318 | a registration whose job is refused leaves no entry of its key, and the replaced job gone |
| SchedulerCompletion.SupersededIsDiscarded | src/scheduler_actor.rs:331-344 | a superseded registration takes its own job away and leaves the entry |
| SchedulerCompletion.FiringDispatchesExactly | src/schedule.rs:275-288 | within an epoch a firing job dispatches exactly when no later registration has begun, and only repeating jobs can fire again |
| SchedulerCompletion.OnlyFiringDispatches | src/schedule.rs:275-330 | nothing but a firing job dispatches |
| SchedulerCompletion.OneShotEndsItsEntry | src/scheduler_actor.rs:276-290 | a one-shot under its guard dispatches once and takes the key's entry with it |
| SchedulerCompletion.ShutdownEndsAll | src/scheduler_actor.rs:219-225 | a shutdown ends every registration |
| Duration.ParseDuration | src/schedule.rs:342-370 | the character loop is the scan the lemmas are about, with every error and both overflow behaviours |
| Duration.ScanRendered | src/schedule.rs:342-370 | what any sequence of tokens parses to, in range or not |
| Duration.EveryStringHasItsVerdict | src/schedule.rs:342-370 | every string is tokens, digits and a rest that makes no token, and these decide its result and its error |
| Duration.NumberOfMore | src/schedule.rs:346-351 | a number's digits are read in base ten |
| Duration.UnitsAreExactly | src/schedule.rs:353-359 | seconds, minutes, hours and days, and no other unit |
| Duration.NinetySeconds | src/schedule.rs:458-463 | the documented `90s` |
| Duration.NinetyMinutes | src/schedule.rs:466-469 | the documented `1h30m` |
| Duration.SixtyHours | src/schedule.rs:466-469 | the documented `2d12h` |
| Duration.ParseExactly | src/schedule.rs:342-370 | accepted are exactly the renderings of tokens with 64-bit numbers and a non-zero sum, and the result is that sum |
| Duration.ResultIsExactSum | src/schedule.rs:349-360 | the result is the exact sum exactly when that fits in 64 bits; checked builds give no other |
| Duration.ConcatenationAdds | src/schedule.rs:342-370 | the parse of a concatenation is the sum of the parses, and what happens past 64 bits |
| Backoff.OutboxCache.constructor | src/ipfs.rs:46-51 | an empty cache with a cap of at least one |
| Backoff.OutboxCache.SetBackoffAttempts | src/ipfs.rs:53-56 | the cap is at least one, entries stay |
| Backoff.OutboxCache.UnreachableFor | src/ipfs.rs:58-66 | the time left until the entry's retry, if any |
| Backoff.OutboxCache.MarkUnreachable | src/ipfs.rs:68-98 | counts one more failure up to the cap, touching this outbox only; a clock overflow changes nothing |
| Backoff.OutboxCache.ClearUnreachable | src/ipfs.rs:101-106 | every outbox of that peer goes, and no other |
| Backoff.NextDelay | src/ipfs.rs:84-88 | adding the two delays gives the next Fibonacci delay, saturation included |
| Backoff.DelayIsExactly | src/ipfs.rs:84-88 | delays are Fibonacci seconds exactly up to 93 counted failures |
| Backoff.DelaysAreFibonacci | src/ipfs.rs:45-106 | over all interleavings of failures, contacts and cap changes, an entry's delays are those of its counted failures and of one fewer |
| Backoff.WaitsExactlyItsDelay | src/ipfs.rs:58-106 | a failed outbox waits for exactly its delay, a contact ends the wait, other outboxes go on as before |
| Backoff.EntriesAreIndependent | src/ipfs.rs:45-106 | an outbox is what its own failures, its peer's contacts and the cap alone make of it |
| Backoff.CappedFibonacci | src/ipfs.rs:68-98 | under one cap, k failures since the last contact give the delay of min(k, cap), and an outbox is marked exactly when k > 0 |
| Backoff.MarkedExactlyWhenFailed | src/ipfs.rs:45-106 | whatever the cap is and becomes, an outbox is marked exactly when it has failed since the last contact |
| Backoff.MarkPanicsExactly | src/ipfs.rs:89-96 | marking panics exactly when the clock cannot express the end of the delay |
| Backoff.FirstDelays | src/ipfs.rs:27 | one, one, two, three and five seconds |
| Backoff.CapKeepsDelaysExact | src/ipfs.rs:68-98 | which caps never saturate |
| Deletion.EntityRegistry.ProcessEntityDeleteRequests | src/dispatch.rs:513-551 | the in-place loop is the function the lemmas are about |
| Deletion.EntityRegistry.HasChildren | src/dispatch.rs:538-540 | whether some entity names the target as its parent |
| Deletion.DeletedExactly | src/dispatch.rs:513-551 | exactly the named leaf children go, and the caller exactly when named after all its children have gone |
| Deletion.ForestStaysClosed | src/dispatch.rs:537-548 | survivors keep their entries, and no survivor loses a registered parent |
| Deletion.ChildrenThenSelf | src/dispatch.rs:513-551 | a caller that names its leaf children and then itself takes them all along |
| BehaviourText.Combine | src/plugin/mod.rs:372-382 | the buffer loop yields the terminated parts in order, later empty parts adding nothing |
| BehaviourText.TextEndsWithNewline | src/plugin/mod.rs:372-382 | a composed text ends with a line feed |
| BehaviourText.TextIsLineAligned | src/plugin/mod.rs:372-382 | the text's lines are the parts' lines one part after the other, an empty first part giving one empty line |
| BehaviourText.ComposeText | src/plugin/mod.rs:328-383 | the text of all sources, or the first one that cannot be fetched |
| BehaviourText.ResolveWasmAndBehaviour | src/plugin/mod.rs:291-385 | shared or own binary, text and every failure |
| BehaviourText.TextOfChain | src/plugin/mod.rs:349-383 | the text is absent exactly when no layer and not the entity has a behaviour |
| BehaviourText.EndToEndText | src/plugin/mod.rs:291-385 | for a kind resolved from the manifest: nearest binary, root-to-leaf sources and then the entity's own, or the entity's own binary without text, or what is missing first |

## Left out

- The Kubo HTTP calls, IPNS, iroh endpoints and remote pins: a store whose puts and gets round-trip, with calls that may fail, stands for them; blocks are never collected.
- Wasm execution, host functions, CBOR, logging and real time; waits between retries are not modelled, so neither is the retry backoff of the persist loop.
- Access control and DID handling: their deciding steps are not part of this repository; `record_inbound_contact` is modelled from the base id on.
- Saves through `trigger_save`, shutdown and reload that race the background loop, and the CRUD-side update of entity nodes that reads outside the writer's lock.
- The persist loop and the registration tasks are step machines, not imperative loops: their meaning is in their interleaving.
- PersistWakeup.WakeupIsNeverLost: the wakeup guarantee counts only state queued by dispatches; state queued by the genesis lifecycle before the first one is pending without anyone looking at it until a later dispatch.
- KindTree.Insert, KindTree.Get and KindTree.Remove: the recursion into nested ordered maps is on values; only the root is updated in place.
- Trees read from storage whose keys are empty or contain slashes: listing and overlay require paths that an insert can produce.
- Overlay.ApplyKindsTreeOverlay: fetches fail one by one, except that one kind's resolution finds a link always or never; it fetches a link twice only in a cycle, which fails anyway.
- `apply_kinds_overlay`: fetching the two trees and publishing the result around the modelled overlay.
- SchedulerTheorems.EveryJobIsAccountedFor: random jobs re-add themselves without telling the registry, so their successors belong to nobody; for its key the statement also needs successful removals, no shutdown that forgets a tracked job and no reused version, because each of these makes it false.
- Which cron expressions the scheduler library accepts, and when jobs fire.
- Deletion.DeletedExactly: no other task changes the registry between two requests.
- The plugin's evaluator kind and WASI flag, which the composition only logs.
- Status server, i18n, command line, configuration and boot wiring.
