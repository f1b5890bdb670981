# Models of the credential-authorization runtime

This project models the parts of the desktop app and its admin host on which a credential
authorization depends, and proves what must hold of them in every run. Each source file is
modelled in its own form: objects that change their fields are classes whose methods are tied
to a specification, loops are loops, and validators and parsers are functions. What the
methods promise is then proved about the specification, over all runs and all inputs.

**How time is modelled.** Code between two `await`s is one step. In the classes `FenceStore` and
`Transport` every await may also fail, before or after its effect, so a contract that covers the
failing answer covers a crash at every such point; a ghost count of the awaits that failed shows
that nothing else gives this answer. While `Transport` waits, other code may cancel or complete
the request. In `Supervisor`, `AuthClient`, `LeaseController` and `LeaseRenewal` a state machine has
one event for each piece of code between awaits, so a sequence of events is any interleaving; the class in the matching `...Runtime` file performs exactly these steps in place.
Observers and listeners do not re-enter.

**Laws beside specifications.** Where a class is proved against a specification function, a second
module says what that function comes to without calling it, field by field or event by event:
`RenewalRules`, `LeaseControllerLaws`, `SupervisorLaws`, `AuthClientLaws`, `EventStreamText`,
`AuthorizationWatchLaws`, `MenuNavigationLaws` and `InventoryLaws`. They hold in every state that a
run can reach, and from them follow statements about whole runs, such as which event of a run
completes a login or which calls are still waiting after it.

**The durable lease fence** (`FenceRecord`, `FenceHistory`, `RenewalRules`, `FenceDisk`, `FenceStore`,
`FenceRun`). `FenceHistory` is the store seen from outside: one durable head per activation, moved by
renewals and removals. `FenceDisk` is the files: a target, a temporary file and commit shadows. `FenceStore`
is the file protocol; it implements the abstract steps with a crash anywhere, also inside repair.

**The renewal path** (`LeaseController`, `LeaseControllerLaws`, `LeaseControllerRuntime`,
`LeaseRenewal`, `ReplayLog`, `TransportReplay`, `DeviceRequestLane`, `LeaseJournal`). `ReplayLog`
states the law of everything that ever happens to one request reference; `TransportReplay` is the
code that keeps it, and `DeviceRequestLane` admits the submissions of all references one at a time. `LeaseRenewal` joins
journal, controller and fence: a renewal is acknowledged only once its record is durable.
`LeaseJournal` runs the transport's log and that world side by side: their journals are one.

**Runtime state machines** (`Supervisor`, `SupervisorLaws`, `SupervisorRuntime`, `AuthClient`,
`AuthClientLaws`, `AuthClientRuntime`, `EventBroadcaster`).

**Parsers and streams** (`JsonGrammar`, `JsonTokens`, `StrictJson`, `StrictJsonReader`, `JsonPrinting`;
`Gregorian`, `Decimal`, `CanonicalTime`, `CanonicalInstant`; `ServerSentEvents`, `EventStreamText`,
`EventStreamClient`, `AuthorizationWatch`, `AuthorizationWatchLaws`). Each has an independent
reference: the JSON grammar of RFC 8259 as a relation, the Gregorian calendar by its own next-day
rule, event-stream text as it is written, and the line-by-line interpretation of event streams in
section 9.2.6 of the WHATWG HTML standard.

**Tree and cache** (`MenuDirectory`, `MenuForest`, `MenuTree`, `MenuNavigation`,
`MenuNavigationLaws`, `StableSort`, `Inventory`, `InventoryLaws`).

## Where the code promises less

- A CRLF cut by a chunk boundary is not normalised. The reader sees the normalised text if and only
  if no boundary cuts one (`NormalizingIsExact`); `CutCrlfLosesAnEvent` is a stream that loses its
  event. In every case it reads what its chunks' own normal forms say (`ReaderReadsItsChunks`).
- The session watcher treats an absent number as a valid cursor. No way of going on can put its events
  out of order if and only if no answer that got through lacked its number although there was a start
  or an event to remember (`OrderIsKeptExactly`); from a numeric start this means that every page is
  complete (`PagesMustBeComplete`). `IncompletePageBreaksOrder` is a watch that applies an event below
  its start. The statement is about every point of the history, because a later page can restore the cursor
  (`LaterPageRestoresCursor`).
- An event-stream subscription without a starting cursor reconnects with a cursor that is not a
  number after its first identified event (`MissingCursorIsLost`); with one it reconnects with the
  largest id handed over (`CursorIsLargestId`).
- A terminal stream event does not always end the subscription: another connection is requested after
  one if and only if some connection that is reached hands one over and then throws, unaborted, with
  another one left (`TerminalEndsUnlessItThrows`); `ClosedStreamIsRequestedAgain` is such a list.
- A `clear` that takes effect while a `stopAndRenewFresh` is going to renew makes it renew a target the
  controller has dropped (`ClearDuringStopAndRenew`, `DisturbedRun`). What is renewed is for the current
  target, however a run goes on short of another clear, if and only if no such clear took effect
  (`RenewalsAreForTheCurrentTarget`); a call whose awaited operation failed does no harm.

## Model

| member | source | states |
|---|---|---|
| FenceHistory.RenewalGuardsAreSuccessorRule | apps/aicrm-desktop/src/main/desktop-activation-lease-fence-store.ts:164-209 | the request, monotonicity and clock guards of a renewal together accept a record exactly when the repair-time successor rule does, so the explicit successor guard never fires |
| FenceHistory.WritesAreSuccessors | apps/aicrm-desktop/src/main/desktop-activation-lease-fence-store.ts:1138-1183 | every record a renewal or removal writes is valid and succeeds the head it replaces; a first record has generation 1 and is live |
| FenceHistory.OperationKeepsWellFormed | apps/aicrm-desktop/src/main/desktop-activation-lease-fence-store.ts:323-341 | no operation lets two live fences share an executor or an operation |
| FenceHistory.RunKeepsWellFormed | apps/aicrm-desktop/src/main/desktop-activation-lease-fence-store.ts:147-212 | validity and cross-activation exclusion hold in every state of every run, crashes included |
| FenceHistory.TrailIsChain | apps/aicrm-desktop/src/main/desktop-activation-lease-fence-store.ts:1110-1183 | the successive heads of one activation form one chain of valid successors that ends in the current head |
| FenceHistory.LifeOfAnActivation | apps/aicrm-desktop/src/main/desktop-activation-lease-fence-store.ts:1110-1203 | over a whole life generations count 1, 2, 3, ...; any later head keeps the twelve frozen fields, never moves its times back, and every head but the last is live |
| FenceHistory.RemovalIsFinal | apps/aicrm-desktop/src/main/desktop-activation-lease-fence-store.ts:158-163 | nothing that happens after a removal changes that activation's head |
| FenceHistory.RepeatIsKeep | apps/aicrm-desktop/src/main/desktop-activation-lease-fence-store.ts:167-177 | repeating a call whose effect is durable succeeds and writes nothing |
| FenceHistory.AttemptsLandAtMostOnce | apps/aicrm-desktop/src/main/desktop-activation-lease-fence-store.ts:287-321 | any number of interrupted attempts of one call leave the old heads or those of one landed attempt |
| FenceHistory.RetryIsExactlyOnce | apps/aicrm-desktop/src/main/desktop-activation-lease-fence-store.ts:164-212 | a completing retry after any interrupted attempts ends as the single uninterrupted call would, up to local clock readings, and succeeds exactly when an attempt had landed or the clock allows it |
| RenewalRules.RenewalRule | apps/aicrm-desktop/src/main/desktop-activation-lease-fence-store.ts:851-881 | over every well-formed set of heads, target, answer and clock: exactly when a renewal is written, kept, refused as unsafe or as a conflict, and every field of what it writes, said of the target and the answer themselves |
| RenewalRules.DataRules | apps/aicrm-desktop/src/main/desktop-activation-lease-fence-store.ts:861-881 | a request is accepted exactly if it is well formed, and its data are the target's session, operation, activation, revisions, binding and token hash and the answer's executor, times, flags, reference and hash |
| RenewalRules.DoneIsRecorded | apps/aicrm-desktop/src/main/desktop-activation-lease-fence-store.ts:164-212 | whenever a renewal is answered, written now or found, the head says just what it said and is fresh exactly if it was neither recovered nor replayed |
| RenewalRules.RemovalRule | apps/aicrm-desktop/src/main/desktop-activation-lease-fence-store.ts:287-321 | exactly when a removal writes its tombstone, finds it, or is refused, and every field of the tombstone |
| RenewalRules.FreshRule | apps/aicrm-desktop/src/main/desktop-activation-lease-fence-store.ts:255-285 | only the exact live head, neither recovered nor replayed and unexpired to the millisecond, passes; and exactly when the question is unsafe |
| FenceRecord.ChainFollows | apps/aicrm-desktop/src/main/desktop-activation-lease-fence-store.ts:1138-1167 | the neighbour rule adds up: any two records of a chain agree on the frozen tuple and are ordered in generation and times |
| FenceDisk.RecoveryIsChainCheck | apps/aicrm-desktop/src/main/desktop-activation-lease-fence-store.ts:384-425 | with a target present, recovery accepts exactly when target, commit shadows and temporary file form one unbroken chain, and then picks its last record |
| FenceDisk.RecoveryWithoutTarget | apps/aicrm-desktop/src/main/desktop-activation-lease-fence-store.ts:372-384 | without a target, recovery rolls forward exactly to a live first generation on which every surviving file agrees, and otherwise reports corruption |
| FenceDisk.RecoveryNeverBroken | apps/aicrm-desktop/src/main/desktop-activation-lease-fence-store.ts:358-439 | on every state the protocol can leave, recovery rolls forward to the pending commit shadow if there is one and otherwise settles the target; it never reports corruption |
| FenceDisk.AddKeepsOrder | apps/aicrm-desktop/src/main/desktop-activation-lease-fence-store.ts:1295-1307 | collecting recovery candidates keeps them ordered by generation and refuses exactly a same-generation branch |
| FenceDisk.HeadsFrame | apps/aicrm-desktop/src/main/desktop-activation-lease-fence-store.ts:803-815 | changing only one activation's files changes at most its own head |
| FenceDisk.CommitStep | apps/aicrm-desktop/src/main/desktop-activation-lease-fence-store.ts:480-493 | once its commit shadow exists the new record is the durable head |
| FenceDisk.RenameStep | apps/aicrm-desktop/src/main/desktop-activation-lease-fence-store.ts:745-771 | the rename lands the pending record in the target and leaves a recoverable state |
| FenceStore.FenceStore.RepairPending | apps/aicrm-desktop/src/main/desktop-activation-lease-fence-store.ts:358-439 | repair, interrupted anywhere, never reports corruption and never changes the durable head; completed, the target is the head and nothing is pending |
| FenceStore.FenceStore.RollForwardTo | apps/aicrm-desktop/src/main/desktop-activation-lease-fence-store.ts:427-437 | rolling forward keeps the pending record as head at every point and ends with it settled |
| FenceStore.FenceStore.WriteAtomic | apps/aicrm-desktop/src/main/desktop-activation-lease-fence-store.ts:343-356 | an interrupted write leaves the old record or the new one as head, and the new one once its commit shadow exists |
| FenceStore.FenceStore.FinishDurability | apps/aicrm-desktop/src/main/desktop-activation-lease-fence-store.ts:445-478 | clearing shadows keeps the landed record recoverable at every point, whatever directory sync reports |
| FenceStore.FenceStore.ReplaceWithRetry | apps/aicrm-desktop/src/main/desktop-activation-lease-fence-store.ts:745-771 | the temporary file replaces the target only if it holds the expected record; it gives up only after a real failure or five busy attempts |
| FenceStore.FenceStore.ReadCommitStates | apps/aicrm-desktop/src/main/desktop-activation-lease-fence-store.ts:584-617 | returns exactly the activation's commit shadows in generation order |
| FenceStore.FenceStore.EnsureCommitMarker | apps/aicrm-desktop/src/main/desktop-activation-lease-fence-store.ts:480-493 | writes the shadow or finds it equal; a different one is corruption |
| FenceStore.FenceStore.EnsureTemporary | apps/aicrm-desktop/src/main/desktop-activation-lease-fence-store.ts:495-506 | writes the temporary file or finds it equal; a different one is corruption |
| FenceStore.FenceStore.AssertNoCompetingFence | apps/aicrm-desktop/src/main/desktop-activation-lease-fence-store.ts:323-341 | passes only when no other live head competes and conflicts only when one does, repairing the others without moving any head |
| FenceStore.FenceStore.PersistRenewal | apps/aicrm-desktop/src/main/desktop-activation-lease-fence-store.ts:147-212 | a completed call answers and moves the heads exactly as the abstract step, an interrupted one leaves the old heads or the stepped ones, and it faults only when the disk or the clock did; after Done the head holds the target's and the lease's own fields, is fresh exactly if the answer was neither recovered nor replayed, and is synced |
| FenceStore.FenceStore.Remove | apps/aicrm-desktop/src/main/desktop-activation-lease-fence-store.ts:287-321 | removal implements its abstract step in the same sense; after Done the head is the tombstone of exactly the given record, and synced |
| FenceStore.FenceStore.RequireFresh | apps/aicrm-desktop/src/main/desktop-activation-lease-fence-store.ts:255-285 | answers only for the exact head, fresh and not expired at the time read, and changes no head |
| FenceStore.FenceStore.List | apps/aicrm-desktop/src/main/desktop-activation-lease-fence-store.ts:239-253 | lists every live head once, in byte order of the activations; the uniqueness check cannot fail, pending shadows included |
| FenceStore.UniqueActiveRecords | apps/aicrm-desktop/src/main/desktop-activation-lease-fence-store.ts:1309-1322 | the check passes exactly when no two records share an executor or an operation |
| FenceRun.Perform | apps/aicrm-desktop/src/main/desktop-activation-lease-fence-store.ts:147-321 | each call on the store is one abstract step, landed or not, and never answers corruption |
| FenceRun.Serve | apps/aicrm-desktop/src/main/desktop-activation-lease-fence-store.ts:147-321 | any sequence of calls takes the heads through a run of exactly the operations called, so all whole-run laws hold of the store |
| LeaseRenewal.AnsweredMeansFenced | apps/aicrm-desktop/src/main/desktop-activation-lease-controller.ts:166-168 | when persisting answers, the activation's chain contains a record of this very request |
| LeaseRenewal.NoAcknowledgedRenewalIsLost | apps/aicrm-desktop/src/main/desktop-activation-lease-controller.ts:163-170 | in every interleaved run with crashes a journal entry is completed only if the durable chain holds its reference and hash |
| LeaseRenewal.RunConserves | apps/aicrm-desktop/src/main/desktop-device-request-journal.ts:172-201 | a journalled renewal is in the journal until it is acknowledged |
| LeaseRenewal.JournalledRenewalsSurvive | apps/aicrm-desktop/src/main/desktop-activation-lease-controller.ts:51-54 | after any run each journalled renewal is still in the journal, or its record is the activation's head or an earlier generation of it |
| LeaseRenewal.StepIsExplained | apps/aicrm-desktop/src/main/desktop-activation-lease-controller.ts:163-170 | exactly which step acknowledges a renewal, enters or leaves the journal, moves a task on or ends it, and which calls the fence store sees |
| LeaseRenewal.UninterruptedIsAcknowledged | apps/aicrm-desktop/src/main/desktop-activation-lease-controller.ts:163-170 | a journalled renewal that nothing interrupts is persisted, acknowledged and gone from the journal |
| LeaseJournal.JournalsStayOne | apps/aicrm-desktop/src/main/desktop-device-request-journal.ts:102-201 | for one renewal reference, the journal that the transport's lawful log tells and the journal of the renewal world hold the same request after any interleaving; what was completed is acknowledged |
| LeaseJournal.BothTakeEffect | apps/aicrm-desktop/src/main/desktop-activation-lease-controller.ts:163-170 | when both take a step together, the creation finds the reference free, the answer is taken by its task and the completion drops exactly the answered request |
| LeaseJournal.CompletedRequestsAreFenced | apps/aicrm-desktop/src/main/desktop-activation-lease-controller.ts:163-170 | every renewal request the transport's journal ever completed has a record with its hash in the activation's durable chain |
| LeaseController.ControllerSafety | apps/aicrm-desktop/src/main/desktop-activation-lease-controller.ts:134-186 | at most one renewal is live and it is the one in the slot, at most one timer and of the current generation, running exactly while something will reschedule, and everything returned is fresh |
| LeaseController.FiredTimerIsCurrent | apps/aicrm-desktop/src/main/desktop-activation-lease-controller.ts:172-186 | a timer that fires is never stale, so the callback's generation test never drops a renewal |
| LeaseController.StoppedStaysStopped | apps/aicrm-desktop/src/main/desktop-activation-lease-controller.ts:107-113 | once stopped, whatever else happens, no timer is live until a new start |
| LeaseController.RenewalsAreForTheCurrentTarget | apps/aicrm-desktop/src/main/desktop-activation-lease-controller.ts:115-132 | in any run, what is being renewed is for the current target, however it goes on short of another clear, if and only if no effective clear met a stopAndRenewFresh that was going to renew |
| LeaseController.ClearDuringStopAndRenew | apps/aicrm-desktop/src/main/desktop-activation-lease-controller.ts:115-132 | whenever such a clear takes effect, the pending call can resume and renews a dropped target |
| LeaseController.DisturbedRun | apps/aicrm-desktop/src/main/desktop-activation-lease-controller.ts:115-132 | a concrete run reaches that state |
| LeaseController.RunKeepsInvariant | apps/aicrm-desktop/src/main/desktop-activation-lease-controller.ts:79-186 | the slot, freshness, driver and waiter invariants hold after any interleaving |
| LeaseControllerLaws.StepIsExplained | apps/aicrm-desktop/src/main/desktop-activation-lease-controller.ts:79-186 | in every reachable state, field by field: who begins or joins a renewal and for which target, who waits for what, what is returned, when the loop is armed, disarmed and ended, and where each renewal goes next |
| LeaseControllerLaws.TwoTriesDecide | apps/aicrm-desktop/src/main/desktop-activation-lease-controller.ts:148-161 | after any run a renewal is where its first two tries put it: a fresh one settles it, a failure fails it, a stale first one is tried again and a second one that is not fresh fails it |
| LeaseControllerRuntime.LeaseControllerRuntime.OnStart | apps/aicrm-desktop/src/main/desktop-activation-lease-controller.ts:79-98 | the method's fields change exactly as the start step and keep the invariant |
| LeaseControllerRuntime.LeaseControllerRuntime.OnResume | apps/aicrm-desktop/src/main/desktop-activation-lease-controller.ts:90-97 | every continuation after an await does exactly its step |
| LeaseControllerRuntime.LeaseControllerRuntime.OnTimer | apps/aicrm-desktop/src/main/desktop-activation-lease-controller.ts:174-185 | the timer callback does exactly its step |
| LeaseControllerRuntime.LeaseControllerRuntime.OnPerformOneEnds | apps/aicrm-desktop/src/main/desktop-activation-lease-controller.ts:148-161 | the end of one renewal does exactly its step |
| LeaseControllerRuntime.LeaseControllerRuntime.OnStopAndRenewFresh | apps/aicrm-desktop/src/main/desktop-activation-lease-controller.ts:115-122 | the method does exactly its step |
| ReplayLog.EveryPostIsTheSame | apps/aicrm-desktop/src/main/desktop-authorization-transport-client.ts:1327-1328 | between two completions every POST carries one and the same journalled request |
| ReplayLog.NoPostAfterResponse | apps/aicrm-desktop/src/main/desktop-authorization-transport-client.ts:1357-1364 | after a response is recorded the request is neither posted nor recorded nor created again before its completion |
| ReplayLog.AnswersComeFromTheRecord | apps/aicrm-desktop/src/main/desktop-authorization-transport-client.ts:1351-1388 | every answer is derived, by the asking submission's parser, from the response recorded last, and names the request that response was recorded for |
| ReplayLog.PostFollowsItsHook | apps/aicrm-desktop/src/main/desktop-authorization-transport-client.ts:1271-1285 | a submission with hooks posts only after its own hook resolved for that very request, and a recovery posts only the hash it insists on |
| ReplayLog.ResponseFollowsPost | apps/aicrm-desktop/src/main/desktop-authorization-transport-client.ts:1371-1379 | a recorded response answers a POST of the same period |
| ReplayLog.CancelSilences | apps/aicrm-desktop/src/main/desktop-authorization-transport-client.ts:1492-1499 | after a cancellation the submission in the lane neither posts nor answers |
| TransportReplay.Transport.Submit | apps/aicrm-desktop/src/main/desktop-authorization-transport-client.ts:1223-1349 | one submission, failing or interrupted anywhere, keeps the log lawful; unless an await failed or it was cancelled, an admitted request with a recorded answer, or with a usable reply, is delivered with exactly that answer, and what is refused is refused with the reason |
| TransportReplay.Transport.Prepare | apps/aicrm-desktop/src/main/desktop-authorization-transport-client.ts:1229-1269 | what is prepared is the journalled request and passes the submission's own validation |
| TransportReplay.Transport.FinishPreparedRequest | apps/aicrm-desktop/src/main/desktop-authorization-transport-client.ts:1351-1419 | a record with a recorded response is answered from it at once, with the status spelled out; otherwise the request is posted once, and a usable reply is recorded and delivered unless an await fails or it was cancelled, while an unusable one fails without being recorded |
| TransportReplay.Transport.PostExact | apps/aicrm-desktop/src/main/desktop-authorization-transport-client.ts:1421-1490 | the journalled request goes out unchanged, and no reply counts after a cancellation |
| TransportReplay.Transport.CreateOrLoad | apps/aicrm-desktop/src/main/desktop-device-request-journal.ts:102-129 | a new request is journalled, an equal one loaded, a different one refused |
| TransportReplay.Transport.RecordResponse | apps/aicrm-desktop/src/main/desktop-device-request-journal.ts:141-170 | a response is recorded once, against the expected hash; a different later one is refused |
| TransportReplay.Transport.CompleteRequest | apps/aicrm-desktop/src/main/desktop-device-request-journal.ts:172-201 | only an answered request with the expected hash is dropped |
| DeviceRequestLane.DeviceRequestLane.RunPinned | apps/aicrm-desktop/src/main/desktop-device-request-lane.ts:34-66 | a submission is refused, with no effect, exactly while the lane is held for another reference; otherwise it enters and is served as a submission, no other reference is unanswered before or after it, and the lane is held exactly while this one is |
| DeviceRequestLane.DeviceRequestLane.Run | apps/aicrm-desktop/src/main/desktop-device-request-lane.ts:15-27 | a request outside the journal is admitted exactly when the lane is free, and then nothing is unanswered |
| DeviceRequestLane.DeviceRequestLane.RestorePin | apps/aicrm-desktop/src/main/desktop-device-request-journal.ts:416-437 | startup holds the lane for the one journalled request, for everyone when there are several or listing fails, and leaves it free only when there is none |
| DeviceRequestLane.DeviceRequestLane.Serve | apps/aicrm-desktop/src/main/desktop-authorization-transport-client.ts:1196-1221 | any number of submissions, cancellations, completions and restarts over all references keep every log lawful and the lane fenced |
| Supervisor.SupervisorSafety | apps/aicrm-desktop/src/main/desktop-codex-app-server-supervisor.ts:339-546 | over all interleavings no transition is refused, the phase strictly climbs at most six times, a resolved stop means the client stopped or never existed, a held URL means ready or waiting, and a settled login start held its challenge or asked for its cancellation |
| Supervisor.StepMovesOnce | apps/aicrm-desktop/src/main/desktop-codex-app-server-supervisor.ts:596-606 | each step makes at most one transition, and an allowed one |
| Supervisor.RunKeepsInvariant | apps/aicrm-desktop/src/main/desktop-codex-app-server-supervisor.ts:339-546 | the suspended methods always fit the phase |
| Supervisor.OneClientStopAtATime | apps/aicrm-desktop/src/main/desktop-codex-app-server-supervisor.ts:503-546 | start's own cleanup and a stop never stop the client at the same time |
| Supervisor.TerminalStaysTerminal | apps/aicrm-desktop/src/main/desktop-codex-app-server-supervisor.ts:787-807 | a failed or stopped instance never becomes usable again |
| SupervisorLaws.StepIsExplained | apps/aicrm-desktop/src/main/desktop-codex-app-server-supervisor.ts:339-546 | in every state of every run each event changes exactly the fields that are said to change, to exactly what is said: phase, client, login id, URL, completed stop, each suspended method, pending reads, and what was cancelled, resolved or held |
| SupervisorLaws.PathIsExplained | apps/aicrm-desktop/src/main/desktop-codex-app-server-supervisor.ts:339-606 | a phase is on the path of a run if and only if one of the situations that enter it arose: for each phase, which event in which state |
| SupervisorLaws.LoginNeedsConsent | apps/aicrm-desktop/src/main/desktop-codex-app-server-supervisor.ts:441-461 | a run completes its login if and only if, while the instance waits for its user, a wait for the held challenge is answered with consent to exactly that login |
| SupervisorLaws.DeniedLoginFails | apps/aicrm-desktop/src/main/desktop-codex-app-server-supervisor.ts:449-476 | any other answer to that wait, or its rejection, ends with the instance failed and both login id and URL dropped |
| SupervisorRuntime.RuntimeInstance.MoveTo | apps/aicrm-desktop/src/main/desktop-codex-app-server-supervisor.ts:596-606 | the transition updates the instance exactly as specified |
| SupervisorRuntime.RuntimeInstance.OnClientStarted | apps/aicrm-desktop/src/main/desktop-codex-app-server-supervisor.ts:345-363 | the start continuation does exactly its step and keeps the invariant |
| SupervisorRuntime.RuntimeInstance.OnChallenge | apps/aicrm-desktop/src/main/desktop-codex-app-server-supervisor.ts:370-395 | a challenge is held only by an exactly ready instance and otherwise cancelled |
| SupervisorRuntime.RuntimeInstance.OnTrustedUrlOpened | apps/aicrm-desktop/src/main/desktop-codex-app-server-supervisor.ts:394-406 | after the URL opened the instance waits for the user or cancels its challenge |
| SupervisorRuntime.RuntimeInstance.OnLoginCompleted | apps/aicrm-desktop/src/main/desktop-codex-app-server-supervisor.ts:441-476 | the wait continuation does exactly its step |
| SupervisorRuntime.RuntimeInstance.Stop | apps/aicrm-desktop/src/main/desktop-codex-app-server-supervisor.ts:478-501 | a completed stop answers at once and a running one is shared |
| SupervisorRuntime.RuntimeInstance.BeginStop | apps/aicrm-desktop/src/main/desktop-codex-app-server-supervisor.ts:507-531 | stopping drops the login and URL before it cancels or stops the client |
| SupervisorRuntime.RuntimeInstance.OnClientStop | apps/aicrm-desktop/src/main/desktop-codex-app-server-supervisor.ts:530-546 | the end of a stop does exactly its step |
| AuthClient.ChunkingIsInvisible | apps/aicrm-desktop/src/main/codex-app-server-auth-client.ts:439-477 | two ways of splitting the same bytes handle the same messages and reach the same verdict |
| AuthClient.DrainVerdict | apps/aicrm-desktop/src/main/codex-app-server-auth-client.ts:443-476 | for lines written as a payload ended by LF or by CR LF, and an unfinished tail: exactly the payloads are decoded, without their ending; every message up to the first line of a bad size or without a meaning is handled, and the client survives exactly when there is no such line and the tail has at most 1 MiB |
| AuthClient.EveryBufferHasLines | apps/aicrm-desktop/src/main/codex-app-server-auth-client.ts:443-456 | every byte sequence consists of such lines and a tail, so the verdict covers all input |
| AuthClient.RunKeepsBooks | apps/aicrm-desktop/src/main/codex-app-server-auth-client.ts:375-395 | request, waiter and cache bookkeeping balance after any run of calls, chunks, timeouts, aborts and failures |
| AuthClient.SettledExactlyOnce | apps/aicrm-desktop/src/main/codex-app-server-auth-client.ts:503-619 | a request id or login waiter is unsettled exactly while it is in its table and settled exactly once after |
| AuthClient.CacheIsMostRecent | apps/aicrm-desktop/src/main/codex-app-server-auth-client.ts:556-563 | a completion is cached if and only if it is its login id's last one and fewer than 32 other ids completed since |
| AuthClientLaws.StepIsExplained | apps/aicrm-desktop/src/main/codex-app-server-auth-client.ts:268-619 | in every state that balances: exactly which event enters a request or a waiter, which ends it, who can still be aborted, what the phase and the history become, and that only a live client's output is handled |
| AuthClientLaws.PendingIsOpen | apps/aicrm-desktop/src/main/codex-app-server-auth-client.ts:375-437 | after any run a request is pending if and only if it was accepted in its phase under the next id and since then neither answered, timed out, failed in writing nor rejected with all |
| AuthClientLaws.WaitingIsOpen | apps/aicrm-desktop/src/main/codex-app-server-auth-client.ts:308-336 | after any run a call waits for a login if and only if it entered, uncached, ready and unaborted, and since then its login was not completed, it was not aborted, and not all were rejected |
| AuthClientRuntime.AuthClientRuntime.ConsumeStdout | apps/aicrm-desktop/src/main/codex-app-server-auth-client.ts:439-477 | the reading loop on the real buffer does exactly what the specification says |
| AuthClientRuntime.AuthClientRuntime.RecordCompletion | apps/aicrm-desktop/src/main/codex-app-server-auth-client.ts:556-573 | eviction and waiter resolution change the fields exactly as specified |
| AuthClientRuntime.AuthClientRuntime.RejectAllPending | apps/aicrm-desktop/src/main/codex-app-server-auth-client.ts:604-619 | every pending request and waiter is rejected once and both tables are emptied |
| AuthClientRuntime.AuthClientRuntime.WaitForLoginCompletion | apps/aicrm-desktop/src/main/codex-app-server-auth-client.ts:308-336 | a waiter is settled at once or entered in the table, never both |
| AuthClientRuntime.AuthClientRuntime.RequestInternal | apps/aicrm-desktop/src/main/codex-app-server-auth-client.ts:375-395 | an accepted request gets a fresh id with its timer; a refused one changes nothing |
| AuthClientRuntime.AuthClientRuntime.OnAbort | apps/aicrm-desktop/src/main/codex-app-server-auth-client.ts:308-336 | an abort removes and settles exactly its waiter |
| EventBroadcaster.DeliveriesIncrease | apps/aicrm-desktop/src/main/desktop-codex-authorization-events.ts:153-161 | whatever is sent to a session lies strictly above everything delivered to it or restored for it before |
| EventBroadcaster.HighWaterRises | apps/aicrm-desktop/src/main/desktop-codex-authorization-events.ts:118-142 | a session's high-water mark never decreases |
| EventBroadcaster.FailureBlocks | apps/aicrm-desktop/src/main/desktop-codex-authorization-events.ts:163-185 | after a failed delivery nothing but the identical envelope is sent and nothing is restored until it is delivered |
| EventBroadcaster.SameSequenceSameEnvelope | apps/aicrm-desktop/src/main/desktop-codex-authorization-events.ts:163-183 | two sends with one sequence carry one envelope |
| EventBroadcaster.EventBroadcaster.RestoreHighWater | apps/aicrm-desktop/src/main/desktop-codex-authorization-events.ts:111-143 | adopts a mark exactly when it is the current one or a higher one with nothing pending |
| EventBroadcaster.EventBroadcaster.Broadcast | apps/aicrm-desktop/src/main/desktop-codex-authorization-events.ts:146-192 | a snapshot is sent if and only if it is publishable, above its session's mark, and the pending envelope carries it or none is pending and a candidate exists; what is sent is the pending envelope or else the candidate; exactly when the reply is a duplicate, a conflict or invalid; and exactly how log, marks and pending deliveries change |
| EventBroadcaster.SnapshotRules | apps/aicrm-desktop/src/main/desktop-codex-authorization-events.ts:207-309 | which snapshots are publishable, spelled out: identifiers, sequence, the flags each status allows, and failure codes |
| StrictJson.ParseIsExact | packages/desktop-plugin-contracts/src/index.ts:44-49 | a text is accepted with a value if and only if the grammar derives that value from the whole text, no object repeats a decoded name and nesting is at most 16 |
| StrictJson.ParseIsUnambiguous | packages/desktop-plugin-contracts/src/index.ts:44-49 | a text has at most one admissible value |
| StrictJson.ValueIsDerivable | packages/desktop-plugin-contracts/src/index.ts:47-48 | what the parser returns is derived by exactly the stretch it consumed |
| StrictJson.ValueIsRead | packages/desktop-plugin-contracts/src/index.ts:47-48 | every derivable admissible value is read wherever it stands |
| StrictJson.NumberIsRead | packages/desktop-plugin-contracts/src/index.ts:48 | the longest match of the number pattern ends where the grammar's number does |
| StrictJson.StringIsRead | packages/desktop-plugin-contracts/src/index.ts:46 | scanning for the closing quote finds the end of every grammatical string |
| JsonTokens.DecodingIsExact | packages/desktop-plugin-contracts/src/index.ts:46 | the inside of a string literal decodes to given units if and only if it is written from plain units, short escapes and four-digit escapes that stand for them |
| JsonTokens.TokensAreCharacters | packages/desktop-plugin-contracts/src/index.ts:44-49 | the grammar's punctuation, words, digits and white space are the characters of JSON |
| StrictJsonReader.ParseText | packages/desktop-plugin-contracts/src/index.ts:44-49 | the loops over one shared index accept exactly the grammar's admissible texts |
| StrictJsonReader.Reader.Val | packages/desktop-plugin-contracts/src/index.ts:47-48 | the recursive loop parser returns and consumes what the specification says |
| StrictJsonReader.Reader.Str | packages/desktop-plugin-contracts/src/index.ts:46 | the string loop returns and consumes what the specification says |
| JsonPrinting.PrintThenParse | packages/desktop-plugin-contracts/src/index.ts:43-49 | every admissible value is read back from its own print |
| JsonPrinting.ParsePrintParse | packages/desktop-plugin-contracts/src/index.ts:43-49 | printing what was read and reading it again gives the same value |
| Gregorian.MakeDayCountsDays | apps/aicrm-desktop/src/main/desktop-authorization-transport-client.ts:2153-2155 | the date object's day number counts calendar days: the epoch is day 0 and each next day is one more |
| Gregorian.NormaliseAndCompare | apps/aicrm-desktop/src/main/desktop-authorization-transport-client.ts:2153-2162 | writing a date and reading the same one back happens exactly for real Gregorian dates |
| CanonicalTime.CheckIsCalendar | apps/aicrm-desktop/src/main/desktop-authorization-transport-client.ts:2135-2165 | the normalise-and-compare check accepts exactly real dates from year 1, no leap second and no trailing-zero fraction |
| CanonicalTime.CanonicalIsExact | apps/aicrm-desktop/src/main/desktop-authorization-transport-client.ts:2135-2165 | a text is canonical if and only if it is the text of such a time |
| CanonicalInstant.CanonicalTextsAreInstants | apps/aicrm-desktop/src/main/desktop-activation-lease-fence-store.ts:1390-1419 | two canonical times are the same instant if and only if their texts are the same |
| CanonicalInstant.InstantThenFields | apps/aicrm-desktop/src/main/desktop-activation-lease-fence-store.ts:1390-1419 | the instant of a canonical time gives its fields back |
| CanonicalInstant.FieldsThenInstant | apps/aicrm-desktop/src/main/desktop-activation-lease-fence-store.ts:1390-1419 | every instant of years 1 to 9999 has a canonical text that names it |
| CanonicalInstant.NowIsCanonical | apps/aicrm-desktop/src/main/desktop-authorization-transport-client.ts:2170-2181 | the current time's text is canonical exactly in years 1 to 9999 and then names the same millisecond |
| ServerSentEvents.ChunkingIsInvisible | apps/ky-admin-host/src/plugin-request-client.ts:166-191 | two ways of cutting one text, neither cutting a CRLF, hand over the same events and break at the same point |
| ServerSentEvents.NormalizingIsExact | apps/ky-admin-host/src/plugin-request-client.ts:179 | the reader sees the normalised text if and only if no chunk boundary cuts a CRLF |
| ServerSentEvents.CutCrlfLosesAnEvent | apps/ky-admin-host/src/plugin-request-client.ts:179-186 | a stream whose event is lost when its CRLF is cut |
| ServerSentEvents.DrainIsInterpretation | apps/ky-admin-host/src/plugin-request-client.ts:180-223 | frame splitting and parsing hand over exactly what line-by-line interpretation dispatches |
| ServerSentEvents.ReaderFollowsTheStandard | apps/ky-admin-host/src/plugin-request-client.ts:166-223 | however it arrives, text whose CRLFs are never cut is read as its normalised form is interpreted line by line |
| ServerSentEvents.ReaderReadsItsChunks | apps/ky-admin-host/src/plugin-request-client.ts:176-223 | for any cutting at all, the reader hands over what line-by-line interpretation makes of the chunks' own normal forms put together |
| EventStreamText.ReaderHandsOverTheFrames | apps/ky-admin-host/src/plugin-request-client.ts:166-223 | for text written as frames of fields, values and line ends, however it is cut short of inside a CRLF: exactly the events the frames say are handed over, in order (last id, last event name or "message", data lines joined by newlines), up to the first frame whose id is not a safe decimal number |
| EventStreamText.EveryTextHasFrames | apps/ky-admin-host/src/plugin-request-client.ts:180-198 | every text consists of such frames, an unfinished one and an unfinished line |
| EventStreamClient.ParseSseFrame | apps/ky-admin-host/src/plugin-request-client.ts:193-223 | the line loop parses a frame as specified |
| EventStreamClient.SseReader.ReadChunk | apps/ky-admin-host/src/plugin-request-client.ts:176-187 | the nested loops over the buffer do what the specification says |
| EventStreamClient.ConsumeEventStream | apps/ky-admin-host/src/plugin-request-client.ts:87-120 | which connections are requested (on to the first that is refused, aborted, or hands over a terminal event without throwing), that exactly their events are handed over, and that each is requested with the cursor of the events before it |
| EventStreamClient.LastConnection | apps/ky-admin-host/src/plugin-request-client.ts:99-118 | a connection is the last one exactly if it is refused or aborted, or is read to its end without a failure and one of its events is named as a closing one |
| EventStreamClient.TerminalEndsUnlessItThrows | apps/ky-admin-host/src/plugin-request-client.ts:99-118 | a terminal event is followed by another request if and only if some connection that is reached hands one over and throws afterwards, unaborted, with another one left |
| EventStreamClient.ClosedStreamIsRequestedAgain | apps/ky-admin-host/src/plugin-request-client.ts:99-118 | a stream that closes, whose connection then fails, is requested again |
| EventStreamClient.CursorIsLargestId | apps/ky-admin-host/src/plugin-request-client.ts:103-104 | from a numeric start the cursor is the largest of the start and the ids handed over |
| EventStreamClient.MissingCursorIsLost | apps/ky-admin-host/src/plugin-request-client.ts:88-104 | without a start the first identified event makes the cursor not a number for good |
| AuthorizationWatch.WatcherDeliversInOrder | plugins/ky-ai-configuration/src/api.ts:694-776 | with complete pages, session events are applied in strictly increasing sequence above the start, whatever the stream repeats or reorders |
| AuthorizationWatch.OrderIsKeptExactly | plugins/ky-ai-configuration/src/api.ts:694-776 | at every point of a history, every complete way of going on keeps the sessions strictly increasing above the start if and only if no incomplete answer got through while there was a numeric start or an applied event |
| AuthorizationWatch.PagesMustBeComplete | plugins/ky-ai-configuration/src/api.ts:694-708 | from a numeric start, for pages that are all read and accepted, that is so if and only if every page is complete |
| AuthorizationWatch.HistoryFollows | plugins/ky-ai-configuration/src/api.ts:694-708 | the loops over pages and items take the server's answers one by one |
| AuthorizationWatch.IncompletePageBreaksOrder | plugins/ky-ai-configuration/src/api.ts:704-707 | a watch from a numeric start that applies an event below it, because a page did not say where it continues |
| AuthorizationWatch.LaterPageRestoresCursor | plugins/ky-ai-configuration/src/api.ts:704-708 | after a page that does not say where it continues, a page that does makes every complete way of going on ordered again |
| AuthorizationWatch.WatchSession | plugins/ky-ai-configuration/src/api.ts:682-743 | the history loop and stream callback end with exactly the specified callbacks, cursor and error, and in order for complete pages |
| AuthorizationWatch.AuthorizationWatcher.ApplyEvent | plugins/ky-ai-configuration/src/api.ts:757-776 | an event moves the cursor and calls back once, is skipped, or throws, exactly as specified |
| AuthorizationWatchLaws.ItemCallsBack | plugins/ky-ai-configuration/src/api.ts:757-776 | an item calls back once if it is news about this session, fails the watch if it is other news, and otherwise does nothing; sessions and closes with their reasons |
| AuthorizationWatchLaws.PageContinues | plugins/ky-ai-configuration/src/api.ts:703-708 | a page may continue at or above the cursor, or without saying where, and otherwise fails the watch |
| AuthorizationWatchLaws.HistoryCallsBack | plugins/ky-ai-configuration/src/api.ts:694-708 | over a whole complete history from a number, the sessions and closes called back are exactly those of the items numbered above the start and above everything before them, in order, and all of them are about this session |
| AuthorizationWatchLaws.StreamCallsBack | plugins/ky-ai-configuration/src/api.ts:710-743 | over a whole stream, whatever it repeats, reorders or brings for others, the sessions and closes called back are exactly those of the usable events above the start and above all usable ones before them, and the closes without an id that say why |
| MenuDirectory.WalkIsExact | apps/ky-admin-host/src/menu-navigation-model.ts:111-128 | an item is kept with given ancestors if and only if the parent links lead through exactly these available groups to an end |
| MenuDirectory.ChainIsDistinct | apps/ky-admin-host/src/menu-navigation-model.ts:113-117 | a kept item's ancestors never repeat |
| MenuForest.ForestHoldsEveryLeafOnce | apps/ky-admin-host/src/menu-navigation-model.ts:169-184 | the finished forest is finite and holds every placed leaf exactly once |
| MenuForest.PathToLeaf | apps/ky-admin-host/src/menu-navigation-model.ts:171-182 | a leaf sits in its group's list, below every available ancestor group in parent order, the last among the roots |
| MenuForest.ChainFits | apps/ky-admin-host/src/menu-navigation-model.ts:171-178 | no chain of ancestors is longer than the directory, so walks down the forest end |
| MenuTree.MenuTree.GroupFor | apps/ky-admin-host/src/menu-navigation-model.ts:171-178 | creating a group below its ancestors ends and keeps every node in exactly its own place |
| MenuTree.MenuTree.PlaceItem | apps/ky-admin-host/src/menu-navigation-model.ts:179-182 | an item is placed once, below its group when the directory has it and else at the root |
| MenuTree.MenuTree.SortTree | apps/ky-admin-host/src/menu-navigation-model.ts:183-184 | sorting ends, makes every list below the node the stable sort of what it was and changes no other list |
| MenuNavigation.WalkAncestors | apps/ky-admin-host/src/menu-navigation-model.ts:112-128 | the ancestor loop computes the walk |
| MenuNavigation.CompleteCandidates | apps/ky-admin-host/src/menu-navigation-model.ts:86-101 | exactly the allowed dynamic rows without a candidate are added, one per key, the first of its key, in the order of the directory |
| MenuNavigation.GroupItems | apps/ky-admin-host/src/menu-navigation-model.ts:103-161 | standalone and grouped items are together exactly the kept items: one group for each key named, holding all its items in order, the groups in the order in which they were opened and with the sort order of their row or else of the candidate that opened them |
| MenuNavigation.KeptHomeIsGood | apps/ky-admin-host/src/menu-navigation-model.ts:111-128 | a kept item's directory group always has ending, available ancestors |
| MenuNavigation.SortGroups | apps/ky-admin-host/src/menu-navigation-model.ts:163-168 | the groups come out stably sorted, and each with its items stably sorted |
| MenuNavigation.BuildMenuNavigation | apps/ky-admin-host/src/menu-navigation-model.ts:68-186 | for any directory: one group for each named key with exactly its kept items, everything stably sorted and groups that tie in the order of opening, and a finite sorted forest whose leaves are exactly the standalone and grouped items |
| MenuNavigationLaws.KeptExactly | apps/ky-admin-host/src/menu-navigation-model.ts:105-143 | a candidate is kept, as exactly this item, if and only if it is allowed when static, its row is on offer and no group, or missing where the directory need not have it, and its parents lead up through groups on offer to an end |
| MenuNavigationLaws.JoinsExactly | apps/ky-admin-host/src/menu-navigation-model.ts:86-101 | a row joins the candidates exactly as an allowed web-view leaf on offer that is not excluded, and with which fields |
| MenuNavigationLaws.LastRowCounts | apps/ky-admin-host/src/menu-navigation-model.ts:80 | of the directory rows with one key the last counts |
| MenuNavigationLaws.ItemsStand | apps/ky-admin-host/src/menu-navigation-model.ts:163-165 | a list of items is sorted exactly if the lower sort order comes first, and among equal ones the key that collates first |
| MenuNavigationLaws.GroupsStand | apps/ky-admin-host/src/menu-navigation-model.ts:167 | the same of the groups |
| MenuNavigationLaws.SiblingsStand | apps/ky-admin-host/src/menu-navigation-model.ts:183-184 | and of the siblings in the tree, a group by its row and a leaf by its item |
| StableSort.SortByIsSorted | apps/ky-admin-host/src/menu-navigation-model.ts:163-165 | sorting by a total preorder gives a sorted permutation in which ties keep their order |
| StableSort.StableSortIsUnique | apps/ky-admin-host/src/menu-navigation-model.ts:163-165 | there is only one such permutation, so it is what any stable sort computes |
| Inventory.OvertakenNeverCommits | apps/ky-admin-host/src/plugin-inventory-model.ts:100 | once another refresh has begun or the cache was cleared, an older refresh never commits |
| Inventory.InventoryModel.CommitRefresh | apps/ky-admin-host/src/plugin-inventory-model.ts:99-123 | a refresh changes the cache only if its run is the current generation, it was not aborted and the model is not disposed; then rows, services and the three sources are what it gathered over the old ones |
| Inventory.InventoryModel.BeginRefresh | apps/ky-admin-host/src/plugin-inventory-model.ts:79-86 | a new refresh takes the next run number, aborts the active one and changes no data |
| Inventory.InventoryModel.FailRefresh | apps/ky-admin-host/src/plugin-inventory-model.ts:124-131 | only a denial of the latest refresh empties the cache, and then the active refresh is aborted; a refresh that failed is not active any more |
| Inventory.InventoryModel.Dispose | apps/ky-admin-host/src/plugin-inventory-model.ts:134-162 | after dispose the cache is empty for good |
| Inventory.InventoryModel.BeginList | apps/ky-admin-host/src/plugin-inventory-model.ts:146-149 | a list is refused exactly when disposed or aborted, and otherwise begins a refresh unless the cache is filled and none was asked for |
| Inventory.PagesConcatenate | apps/ky-admin-host/src/plugin-inventory-model.ts:152-155 | the pages of one snapshot put together are exactly its filtered sorted list |
| Inventory.ComparatorIsPreorder | apps/ky-admin-host/src/plugin-inventory-model.ts:151 | abnormal-first, then name, then id is a total preorder |
| Inventory.List | apps/ky-admin-host/src/plugin-inventory-model.ts:146-156 | after any refresh, a page of the matching rows of the projection in order, and how many match; nothing after dispose |
| InventoryLaws.RowIsProjected | apps/ky-admin-host/src/plugin-inventory-model.ts:58-78 | a row as it is read, field by field: what stays, and what becomes stale, unknown or explained when its source is unknown or has not succeeded within 90 seconds; and each of its services |
| InventoryLaws.ServiceIsShown | apps/ky-admin-host/src/plugin-inventory-model.ts:68-74 | a service shows what the first health entry of its key says, if health is supported and recent, and otherwise that it is unknown and why |
| InventoryLaws.RefreshLeaves | apps/ky-admin-host/src/plugin-inventory-model.ts:99-123 | what a refresh leaves, with the limit of 200 rows and each source spelled out for every way the sources can fail |
| InventoryLaws.RowsStand | apps/ky-admin-host/src/plugin-inventory-model.ts:145-151 | a listing is sorted exactly if troubled rows come first where that is asked for, then the name that collates first, then the id |
| InventoryLaws.MatchesInOrder | apps/ky-admin-host/src/plugin-inventory-model.ts:150 | filtering keeps every matching row, as often as it is there and in its place |
| InventoryLaws.PageIsExact | apps/ky-admin-host/src/plugin-inventory-model.ts:152-155 | a page holds the rows after those of the pages before it, from 1 to 100 of them, 20 by default |

## Left out

- Encryption, hashing, signatures, base64, secure storage and file modes: digests are free constructors or opaque text; unavailable storage counts as a fault.
- Torn envelope files and power-loss reordering of directory entries: the code fails closed on the first and relies on the operating system for the second.
- `read` and `inspect` of the fence store: the same prefix as `requireFresh` with a weaker answer.
- FenceHistory.RetryIsExactlyOnce: compares records up to local clock readings, because a retry after a crash reads a later clock.
- LeaseRenewal.NoAcknowledgedRenewalIsLost: the journal enters as a contract; LeaseJournal joins it to the transport's log for one reference at a time.
- DeviceRequestLane.DeviceRequestLane.Serve: each reference counts its cancellations by itself, and callers that wait for an unpinned lane are left out.
- Request queueing in the lane, headers, timeouts and response size limits of the transport: only their success or failure is an input.
- `completeIfPresent` and the recovered-settlement and orchestrator callers: they use the same journal completion.
- Supervisor.SupervisorSafety: receipts, snapshots, error codes and the instance map are not modelled, because instances are never replaced and share only the shutdown flag.
- Process spawning, the initialize handshake and the exit grace period of the protocol client: completion events only; decoding one line (UTF-8, JSON, message shape) is a parameter.
- EventBroadcaster.EventBroadcaster.Broadcast: property-descriptor checks of a snapshot are left out; the fresh id and time of an envelope are inputs.
- JsonPrinting.PrintThenParse: numbers keep their lexeme, because conversion to a double is a built-in of the platform; the order in which a script lists integer-like names is not modelled.
- CanonicalInstant.NowIsCanonical: the time value is any integer, not only the range a date object can hold.
- ServerSentEvents.ReaderFollowsTheStandard: an id belongs to its own frame only and must be a safe decimal number, as in the code; lone carriage returns, retry fields and JSON decoding of the data are left out.
- EventStreamClient.ConsumeEventStream: delays, headers and error callbacks are left out; whether a failure may be retried is an input.
- AuthorizationWatch.WatcherDeliversInOrder: a JSON null in place of a number is not modelled, and callbacks do not throw.
- MenuNavigation.BuildMenuNavigation: labels, icons and targets are left out, sort orders are integers and collation is any total preorder; in which order tied nodes of one tree list were created is not stated.
- Inventory.List: keyword matching and collation are parameters; cloning and the timeouts of the sources are left out.
- `get` of the inventory, the semantic-version helpers, field validators of the bridge, React components and thin API clients: single-branch checks that would only add easy members.
