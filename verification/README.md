# A verified model of metawsm's coordination logic

metawsm runs coding agents in workspaces and coordinates them through a forum. This project models the parts of it that
decide what happens, and proves what they are relied on for. Check it with `dafny verify dfyconfig.toml`.

**Forum store, outbox and bus.** Commands travel through an outbox table and a Redis stream and are handled at least once.
Each handler runs one transaction over base tables, event log and views, refreshes two derived tables afterwards, and
publishes the event again; a second handler recomputes the projections, deduplicated by markers.
`ForumTables` holds the tables as one value and every SQL statement as a function on it, with the two definitions all is
measured against: replay of the log, and recomputation of the derived tables. `ForumReplay` shows that transactions keep the
replay, `ForumProjections` that the derived tables converge under any interleaving, crash and repetition, `ForumDelivery`
that at-least-once delivery has an exactly-once effect, `ForumOutbox` the discipline of claims, `ForumBus` that no message is
lost, `ForumRuntime` that the loops of the bus are runs of that machine, and `ForumSystem` puts store and bus together: when
the bus is quiet, the derived tables are current. `ForumHandlers` shows that the handlers do what that asks of them, and
`ForumCommands` that commands which run to their end leave the derived tables current at once. `ForumQueue` says what
"unanswered" means, `ForumDerived` what the rows of the derived tables show, `ForumEffects` what a command does column by
column, `ForumLifecycle` what the service guards add, and `ForumCalls` what each call of the service is seen to do.
`ForumStore` and `ForumRuntime` have the in-place forms.

**Runs, steps and the bootstrap gate.** `Hsm` has the transition tables, `StepExecutor` the executor with retries and resume,
`ControlSignals` the fold of control posts, `RunControl` the gate and the operations that move a run.

**Operator loop.** `Operator` has the rules, the merge with a language model's reply, and the state kept between ticks, over
the tick sequences of `Traces`.

**Delivery and merging.** `EventBroker` is the bounded fan-out, `EventStream` polling by cursor and the live stream,
`WebSocketFrame` the framing, `DocFederation` the merge of documentation tickets, `ReviewFeedback` the review records and
`ReviewKeys` the keys they are looked up by.

Functions and lemmas work on values. Where the program changes fields, maps or buffers, a class does so too, and its methods
are proved to compute the function the lemmas are about.

## What the proofs found

- A message can be lost when a handler is registered during a pass (`ForumBus.LossExactly`, `ForumBus.RegistrationLosesExactly`, `ForumBus.LateRegistrationLoses`),
  and a reused message id loses a message at once (`ForumBus.EnqueueExactly`). Ids are taken from the clock.
- A row is stranded when a pass that claimed it is gone and Redis has no entry for it. Exactly the stranded messages can never
  be handled (`ForumBus.HandledUnlessStranded`). A crash strands rows (`ForumBus.CrashStrands`), and so does a flush that stops
  early or loses a mark (`ForumRuntime.FlushStrandsExactly`, `ForumRuntime.EarlyStopStrands`).
- The incremental `last_post_*` columns come apart from the recomputed ones exactly when the post of the thread that sorts
  after all others, by time and then by id, is an earlier one and shows other columns (`ForumReplay.PostColumnsExact`).
- A command that was allowed when issued can reopen a closed thread if it is delivered late (`ForumLifecycle.LateCommandReopens`,
  `ForumLifecycle.HandledKeepsExactly`).
- A control thread is read up to its 1000th post, so a later request for guidance does not hold a run back
  (`ControlSignals.LateRequestUnseen`, `RunControl.GateMissesLateRequest`); `RunControl.GateWindowExactly` says when the gate is
  right all the same.
- The executor ignores a lost write of `failed`, so a step can be skipped while it is recorded running, an edge its table forbids;
  exactly when is said by `StepExecutor.WritesAreLegalExactly`.
  A command whose success is not recorded is run again (`StepExecutor.CommandSucceedsAgain`, `StepExecutor.CommandSucceedsAtMost`).
- Operations on one run check their own idea of its status, so a run stopped during its execution ends as complete
  (`RunControl.StoppedThenComplete`). Which operations may overlap is said by `RunControl.SafeExactly`,
  `RunControl.MayBeginExactly` and, for an execution, `RunControl.MayOverlapExecution`.
- A run that crashed while `closing` can be moved by no operation (`RunControl.StuckExactly`).
- Some moves of the transition tables are never made: no operation fails a run that plans or pauses one that runs
  (`RunControl.MovesMadeExactly`), and no step is skipped that was not tried (`StepExecutor.MovesMadeExactly`).
- The stored cooldown loses up to a second, and it does exactly when it does not end on a whole second
  (`Operator.CooldownShortExactly`).
- A stream that starts with more than a page of backlog skips what does not arrive on the channel
  (`EventStream.StreamCompleteExactly`, `EventStream.BacklogHappens`).
- The merged list depends on the order of endpoints exactly when unbeaten tickets tie (`DocFederation.OrderIndependentExactly`),
  and the joined keys of different tickets can collide, which loses a ticket (`DocFederation.KeysCollideExactly`,
  `DocFederation.CollisionLosesATicket`).
- A review sync that overlaps a commit can set a record back to queued (`ReviewFeedback.SyncMayGoBackExactly`), and records of
  different tickets can be taken for one another because their keys are joined by bars (`ReviewFeedback.StatusCrosses`,
  `ReviewFeedback.EveryPassKeepsExactly`).
- The restart budget bounds the restarts that were written down. It can be exceeded exactly when the record of one was lost
  (`Operator.BudgetHolds`, `Operator.BudgetExceededExactly`, `Operator.BudgetExceeded`).

## Model

| member | source | states |
|---|---|---|
| ForumProjections.LogDeterminesTables | internal/store/sqlite_forum.go:38-56 | In every state reachable by commands with stale reads, integration appends, refreshes, projection workers and crashes, threads, posts and transitions are the replay of the event log alone, the views show the same threads, and no event id occurs twice. |
| ForumReplay.EventReplaysCommand | internal/store/sqlite_forum.go:332-352 | Replaying the one event a command logs makes the update its transaction makes to forum_threads, whichever earlier row the command had read. |
| ForumReplay.CommitKeepsStore | internal/store/sqlite_forum.go:139-159 | A command transaction with any stale read keeps: base tables are the replay, views current, log well formed, every post of a logged event, event ids unique. |
| ForumReplay.IntegrationKeepsStore | internal/store/sqlite_forum.go:1237-1280 | An integration event keeps the same invariant although it touches the log only; a blank or known event id changes nothing. |
| ForumReplay.ViewFollowsThread | internal/store/sqlite_forum.go:152-158 | The two UPDATE statements of a command set the same columns of the thread and of its view, and leave ticket, run and agent alone. |
| ForumReplay.RefreshViewIsIdentity | internal/store/sqlite_forum.go:1365-1415 | The incrementally kept view equals the recomputed one: in full when the thread's posts are in order, and in every column but last_post_* otherwise. |
| ForumReplay.PostColumnsExact | internal/store/sqlite_forum.go:1386-1388 | Adding a post leaves incremental and recomputed last_post_* equal if and only if every earlier post of the thread sorts before it by time and id, or the one that sorts after all others shows the same columns. |
| ForumReplay.PostColumnsCanDiffer | internal/store/sqlite_forum.go:152-158 | Two posts of one second whose ids sort against insertion order make the recomputed columns name the first author and the incremental ones the second. |
| ForumReplay.CommitKeepsPostColumns | internal/store/sqlite_forum.go:152-158 | Every command keeps, for each thread whose posts are in order, last_post_* equal to the recomputation. |
| ForumReplay.TopPostIsMaximal | internal/store/sqlite_forum.go:1386-1388 | The post the refresh picks is a post of the thread that no other one sorts after; there is none exactly when the thread has no posts. |
| ForumStore.Store.Commit | internal/store/sqlite_forum.go:38-113 | BEGIN to COMMIT of a command writes all its tables as CommitTx says, which ForumEffects.CommitMeaning spells out, or, on a key conflict, nothing. |
| ForumStore.Store.Execute | internal/store/sqlite_forum.go:12-37 | A command method: a logged event id does nothing, refusals change nothing, otherwise the transaction and then the two refreshes (ForumEffects.HandledMeaning), with the outcome ForumEffects.OutcomeExactly spells out. |
| ForumStore.Store.AppendIntegration | internal/store/sqlite_forum.go:1237-1280 | Appends to the log only, unless the id is blank or known. |
| ForumStore.Store.ApplyEventProjections | internal/store/sqlite_forum.go:1209-1235 | The three projections in order, each skipped if marked, refreshed and then marked otherwise. |
| ForumStore.ProjectionsAreIdempotent | internal/store/sqlite_forum.go:1314-1334 | Delivering an event to the projections a second time changes nothing. |
| ForumEffects.OutcomeExactly | internal/store/sqlite_forum.go:12-37 | What a command method returns, error by error: done if and only if its id is known or it is new, names a thread that exists unless it opens one, and no id is blank. |
| ForumEffects.CommitMeaning | internal/store/sqlite_forum.go:226-285 | Whatever row it has read, a transaction logs one event with the command's id, thread, actor and time, the thread's ticket, run and agent where they are not the command's, and the columns it changes as read; opens or updates exactly the columns of its thread and view; posts its body; and records the transition. |
| ForumEffects.HandledMeaning | internal/store/sqlite_forum.go:12-159 | A whole command method: nothing unless it runs; else these writes from the thread as it is, and the refreshes of exactly the ticket's stats, when a count may move, and the thread's queue row. |
| ForumEffects.IntegrationMeaning | internal/store/sqlite_forum.go:1237-1280 | An integration event is logged with the envelope's columns and nothing else is touched. |
| ForumEffects.CommandTakesLastWord | internal/store/sqlite_forum.go:1434-1436 | After an unrefused command by an agent the agent has the last word in its thread, after one by a human or operator it has not, and the system's leave it. |
| ForumEffects.CommandAnswers | internal/store/sqlite_forum.go:759-763 | So a thread leaves the unanswered queue with the first command of a person, and is in it after an agent's if and only if that leaves it new or waiting. |
| ForumProjections.StepKeepsInv | internal/store/sqlite_forum.go:1209-1455 | Each of the six kinds of step, a crash between refresh and marker included, keeps: every queue row and every ticket's stats are the recomputation at some log prefix covering all events that were refreshed for. |
| ForumProjections.QueueConverges | internal/store/sqlite_forum.go:1417-1455 | Over every run: each queue row shows its thread's columns, the last event of the thread and its actor, the last actor but the system, and the last events by a person and by an agent, as they were at a prefix covering the thread's marked events; and once the thread's last event is marked the row exists and shows them as they are. |
| ForumProjections.StatsConverge | internal/store/sqlite_forum.go:1282-1298 | Over every run: a ticket's slice of the stats counts its threads by run, state and priority as they were at a prefix covering its marked events, and as they are once the last event that moves a count is marked. |
| ForumProjections.ViewsConverge | internal/store/sqlite_forum.go:1365-1415 | Over every run: each view shows its thread and the number of its posts and, when the posts were inserted by time and id, who wrote the last one when. |
| ForumDerived.QueueRowShows | internal/store/sqlite_forum.go:1417-1455 | A refreshed queue row shows its thread and the last events of it, and it is the only row that does. |
| ForumDerived.UnseenExactly | internal/store/sqlite_forum.go:755-758 | A thread is unseen if and only if some event of it comes after what the reader has marked as read. |
| ForumDerived.GroupCountShows | internal/store/sqlite_forum.go:1282-1298 | The refreshed stats of a ticket are, for each run, state and priority its threads have, their number, and nothing else is. |
| ForumDerived.ViewShows | internal/store/sqlite_forum.go:1365-1415 | A refreshed view shows its thread, the number of its posts, and the post with no later one and, of its second, none with a greater id. |
| ForumProjections.RefreshedStats | internal/store/sqlite_forum.go:1282-1298 | Refreshing one ticket makes its slice the group-by count over the views and leaves every other ticket's slice alone. |
| ForumProjections.CompletedCommandKeepsStats | internal/store/sqlite_forum.go:354-392 | Refreshing at most the one ticket a command names keeps the stats of every ticket equal to the group-by count. |
| ForumCommands.CommandsKeepCurrent | internal/store/sqlite_forum.go:12-159 | Over any sequence of command methods that run to their end, repeated and refused ones included, every ticket's stats count its threads by run, state and priority, and every thread's queue row shows it and its last events. |
| ForumProjections.QuietThreadRow | internal/store/sqlite_forum.go:1417-1455 | Events of other threads leave a thread's recomputed queue row as it was. |
| ForumQueue.UnansweredMeansAgentLast | internal/store/sqlite_forum.go:1434-1436 | For a row recomputed from any log, last_agent_sequence > last_human_or_operator_sequence, last_non_system_actor_type = agent, and "the last event not by the system is an agent's" are equivalent. |
| ForumQueue.UnansweredCharacterized | internal/store/sqlite_forum.go:759-763 | The queue filter and the search flag select exactly the threads in an open state whose last word is an agent's. |
| ForumQueue.LastSeqMeaning | internal/store/sqlite_forum.go:1432-1436 | The sequence columns are the last event of the thread by the given actors: one such event stands there and none after it. |
| ForumDelivery.ExactlyOnceEffect | internal/orchestrator/service_forum.go:123-242 | For any sequence of deliveries with duplicates, failures before and after commit, log, threads, posts and transitions equal those of the committed deliveries alone, handled once each without a fault. |
| ForumDelivery.DeliverExactly | internal/orchestrator/service_forum.go:123-242 | A delivery logs its event if and only if the command runs and the delivery does not break off before the transaction, and otherwise does nothing; one that breaks off later leaves the queue behind, and the stats unless they were refreshed first. |
| ForumDelivery.LogIsKeptCommands | internal/store/sqlite_forum.go:1300-1312 | The log grows by exactly the event ids of those deliveries, in commit order, and no id occurs twice. |
| ForumDelivery.CommittedStays | internal/store/sqlite_forum.go:1300-1312 | A logged event stays logged under any further deliveries. |
| ForumOutbox.ClaimMeaning | internal/store/sqlite_forum.go:1609-1638 | A claim moves exactly min(limit, eligible) rows, each to processing with one more attempt, and every moved row is older than every eligible row left. |
| ForumOutbox.EnqueuedWaits | internal/store/sqlite_forum.go:1573-1607 | A fresh message waits with the publisher's contents, never claimed, and is claimed after all that are older or of its time and before all that are newer. |
| ForumOutbox.ClaimReturnsMoved | internal/store/sqlite_forum.go:1817-1858 | The read-back by marker returns exactly the rows moved if and only if no processing row already carries the marker. |
| ForumOutbox.AttemptsAreClaims | internal/store/sqlite_forum.go:1609-1638 | Over every history of enqueues, claims and marks, attempt_count is the number of claims that moved the row. |
| ForumOutbox.ClaimedUntilFailed | internal/store/sqlite_forum.go:1609-1679 | A claimed row stays out of reach of claims until it is marked failed. |
| ForumOutbox.NoDoubleClaim | internal/store/sqlite_forum.go:1609-1679 | No row is moved by two claims unless it was marked failed in between. |
| ForumBus.StepKeepsInv | internal/forumbus/runtime.go:370-481 | Every serialized step of claim, publish, mark, register, subscribe, handle, ack and crash keeps the no-loss invariant. |
| ForumBus.NothingIsLost | internal/forumbus/runtime.go:370-481 | Over every serialized run, a message whose handler never succeeded has a pending, failed or processing row or an un-acked entry; a sent row has an un-acked entry or a past success. |
| ForumBus.LossExactly | internal/forumbus/runtime.go:452-454 | Without serialization a step loses a message if and only if it acks the last entry of a sent message that was never handled. |
| ForumBus.RegistrationLosesExactly | internal/forumbus/runtime.go:279-296 | Registering a topic during a pass: some run after it, with no further registration during a pass, loses a message if and only if the pass began without the topic, has not yet listed the topics it consumes, and a message of the topic is sent and not yet handled. |
| ForumBus.LateRegistrationLoses | internal/forumbus/runtime.go:279-296 | Such a moment is reached by a run from the empty bus, for any topic and message. |
| ForumBus.EnqueueExactly | internal/store/sqlite_forum.go:1573-1607 | INSERT OR IGNORE: the outbox holds a published message if and only if its id was fresh or stood for the same message. |
| ForumBus.HandledUnlessStranded | internal/store/sqlite_forum.go:1609-1638 | From any state that satisfies the invariant, some run handles an unhandled message if and only if its row is not stranded: left in processing by a pass that is gone, with no entry in Redis. |
| ForumBus.StrandedForever | internal/store/sqlite_forum.go:1609-1638 | A stranded row is stranded and unchanged after every run. |
| ForumBus.CrashStrands | internal/store/sqlite_forum.go:1609-1638 | A run from the empty bus, crashing right after a claim, strands a row. |
| ForumRuntime.PassReaches | internal/forumbus/runtime.go:341-358 | ProcessOnce, wherever a claim, a connection, a subscription or a cancellation ends it, is a run of the bus machine and keeps the no-loss invariant, also when it consumes what it has just flushed or what a handler has just refused. |
| ForumRuntime.FlushReaches | internal/forumbus/runtime.go:370-405 | The flush loop is a run of the bus machine, for any answers of Redis and any marks the store loses. |
| ForumRuntime.FlushMeaning | internal/forumbus/runtime.go:370-405 | However a flush ends, a row of its batch is untouched if its turn was not reached or its mark was lost, and otherwise sent if its topic is handled and Redis accepted the message, failed if not. |
| ForumRuntime.FlushLeavesProcessing | internal/forumbus/runtime.go:376-401 | A claimed row is still in processing afterwards if and only if its turn was not reached or its mark was lost. |
| ForumRuntime.FlushEnters | internal/forumbus/runtime.go:384-397 | Redis has an entry for a claimed message afterwards if and only if it had one, or the turn was reached, the topic is handled and Redis did not refuse it. |
| ForumRuntime.FlushStrandsExactly | internal/forumbus/runtime.go:370-405 | A flush strands exactly the unhandled claims Redis had no entry for whose turn was not reached, or whose mark was lost without Redis having taken the message. |
| ForumRuntime.EarlyStopStrands | internal/forumbus/runtime.go:399-401 | From the empty bus: a pass over two messages that cannot mark the first as sent strands the second, with no crash. |
| ForumRuntime.FlushStopsExactly | internal/forumbus/runtime.go:399-401 | A flush ends early if and only if marking a published message failed. |
| ForumRuntime.FlushLeavesRest | internal/forumbus/runtime.go:370-405 | Rows outside the batch are never touched. |
| ForumRuntime.FlushCount | internal/forumbus/runtime.go:370-405 | However a flush ends, its count is the number of rows of its batch then marked sent. |
| ForumRuntime.ConsumeReaches | internal/forumbus/runtime.go:407-481 | The consume loop is a run of the bus machine. |
| ForumRuntime.ConsumeAcks | internal/forumbus/runtime.go:452-460 | Of the entries taken, exactly those no handler refused are acked, those without a handler included. |
| ForumRuntime.ConsumeHandles | internal/forumbus/runtime.go:452-460 | Exactly the messages a handler accepted become handled. |
| ForumRuntime.ConsumeMarks | internal/forumbus/runtime.go:455-457 | A row is failed afterwards if and only if a delivery of its message was refused by its handler and could be marked; every other row is as it was. |
| ForumRuntime.RoundMeaning | internal/forumbus/runtime.go:429-470 | A round takes what its topics offer, one message each and in order, up to the first look that is cancelled or until there is no room. |
| ForumRuntime.TakenMeaning | internal/forumbus/runtime.go:426-481 | The loop takes rounds, each while there is room, and only the last had a reason to be it: cancelled, the limit reached, or nothing taken after the deadline. |
| ForumRuntime.PassOutcome | internal/forumbus/runtime.go:341-358 | ProcessOnce ends without an error if and only if its claim is read back, there is a publisher for it, no accepted message goes unmarked, all handled topics are subscribed, and it is not cancelled; it counts the rows it sent and, unless cancelled, the messages it took. |
| ForumRuntime.PassLeaves | internal/forumbus/runtime.go:341-358 | A pass that consumes leaves each row as its flush did or, if and only if a delivery of it was refused and marked, failed, so that the next claim may take it. |
| ForumRuntime.Runtime.RegisterHandler | internal/forumbus/runtime.go:279-296 | A blank topic is refused; otherwise the topic is handled, and subscribed when the runtime runs; a subscription that fails is reported and leaves the handler. |
| ForumRuntime.Runtime.Start | internal/forumbus/runtime.go:72-135 | Runs if and only if it ran or Redis can be reached and grants every handled topic; then exactly the handled topics are subscribed, and none after a failure. |
| ForumRuntime.Runtime.Stop | internal/forumbus/runtime.go:137-162 | Drops all subscriptions and keeps the handlers. |
| ForumRuntime.Runtime.PublishMessage | internal/forumbus/runtime.go:319-339 | A blank topic is refused; otherwise the message is enqueued. |
| ForumRuntime.Runtime.FlushBatch | internal/forumbus/runtime.go:370-405 | The loop over a claimed batch computes FlushFrom: end state, count and whether it ran to the end. |
| ForumRuntime.Runtime.ConsumeMessages | internal/forumbus/runtime.go:407-481 | The nested loops take messages round by round, at most one of each topic in the order of the topics, until the limit, an idle round after the deadline or a cancellation, and leave the bus as ConsumeAll does. |
| ForumRuntime.Runtime.ProcessOnce | internal/forumbus/runtime.go:341-358 | One pass: claim, flush, subscribe, list the topics and consume with the table taken at its start, ended early by any error; a limit that is not positive means 20. |
| ForumSystem.RunKeepsInv | internal/orchestrator/service_forum.go:123-269 | Store and bus run together: a handled command left its event projected or published, over every run with crashes and redeliveries. |
| ForumSystem.NothingForgotten | internal/orchestrator/service_forum.go:123-269 | An event whose command went through the bus is projected, or a message leading to its projection is still live. |
| ForumHandlers.CommandHandlerIsDone | internal/orchestrator/service_forum.go:123-205 | A command handler, the command method and then the publishing of the logged event, takes steps of the system only; it returns without error if and only if the method does, the event has a topic and it can be enqueued, and then its event is in the outbox; otherwise it adds nothing there. |
| ForumHandlers.EventHandlerIsDone | internal/store/sqlite_forum.go:1209-1235 | An event handler takes steps of the system only, leaves the store as the projections do and, unless it is refused, with all three markers set. |
| ForumSystem.QuiescentQueueConverges | internal/orchestrator/service_forum.go:251-269 | When no message waits and Redis is drained, the queue row of every thread whose last event came through the bus shows the thread and its last events as the whole log has them. |
| ForumSystem.QuiescentStatsConverge | internal/orchestrator/service_forum.go:251-269 | The same for a ticket's stats, which then count its threads by run, state and priority. |
| ForumLifecycle.RunsKeepLifecycle | internal/orchestrator/service_forum.go:396-710 | Over any sequence of serialized calls each thread's transitions chain from new, every one is allowed, and a closed thread keeps state, priority and assignee. |
| ForumLifecycle.CallKeepsLifecycle | internal/orchestrator/service_forum.go:396-710 | Every call, with all the commands it dispatches, keeps this. |
| ForumLifecycle.StoreChecksNothing | internal/store/sqlite_forum.go:295-392 | The store commits any state change; the chain stays legal if and only if the transition from the thread's state at that moment is allowed. |
| ForumLifecycle.HandledKeepsExactly | internal/store/sqlite_forum.go:161-392 | Any command, delivered at any moment, keeps chains, transitions and closed threads if and only if its state change is allowed then and it alters neither priority nor assignee of a closed thread. |
| ForumLifecycle.LateCommandReopens | internal/orchestrator/service_forum.go:539-596 | A change allowed when issued but delivered after a close reopens the thread: the serialization is needed. |
| ForumCalls.StateMeaning | internal/orchestrator/service_forum.go:539-596 | A state change is made, recorded and logged if and only if the thread exists and the change is none out of closed, back to new, or from answered to triaged; otherwise nothing happens. |
| ForumCalls.OpenMeaning | internal/orchestrator/service_forum.go:271-334 | Opening needs a ticket, a title and a body and leaves the thread as asked for, new and unassigned, with its first post by the caller. |
| ForumCalls.PostMeaning | internal/orchestrator/service_forum.go:336-394 | Posting to an open thread needs a body and adds that post by the caller and nothing else. |
| ForumCalls.AssignMeaning | internal/orchestrator/service_forum.go:474-537 | Assigning an open thread needs a name and changes its assignee alone. |
| ForumCalls.PriorityMeaning | internal/orchestrator/service_forum.go:598-655 | Setting an open thread's priority changes that alone. |
| ForumCalls.AnswerMeaning | internal/orchestrator/service_forum.go:396-472 | Answering an open thread adds the post, records the change to answered and, if the policy has it, asks for the docs to be synced, three events in this order by the caller. |
| ForumCalls.CloseMeaning | internal/orchestrator/service_forum.go:657-710 | Closing an open thread closes it, records that and asks for the docs to be synced; a closed one is left as it is. |
| ForumCalls.SignalMeaning | internal/orchestrator/service_forum.go:932-988 | A control signal with a run, an agent and a ticket is posted to the agent's control thread, whatever its state; a missing one is opened first by the system, with the agent's run and ticket. |
| ForumLifecycle.Service.Serve | internal/orchestrator/service_forum.go:271-394 | Open, post, assign, priority and control signal: guards first, then the commands, with the whole new store state. |
| ForumLifecycle.Service.ChangeThreadState | internal/orchestrator/service_forum.go:539-596 | Refuses a transition that is not allowed, otherwise dispatches it. |
| ForumLifecycle.Service.AnswerThread | internal/orchestrator/service_forum.go:396-472 | Posts, then answers, then emits the docs event. |
| ForumLifecycle.Service.CloseThread | internal/orchestrator/service_forum.go:657-710 | Closes an open thread; a closed one is returned as it is. |
| StepExecutor.PlanMeaning | internal/orchestrator/service.go:2472-2527 | For any table and any pattern of failing commands, reads and writes: a call succeeds if and only if every step passes, and row by row the table is left as each step reached leaves it, every other row untouched. |
| StepExecutor.WritesAreLegalExactly | internal/orchestrator/service.go:2488-2523 | A call writes to unsettled steps only, and every write is a legal edge if and only if no step that is reached, does not block and fails all attempts loses the write of its last failure while the write that skips it lands. |
| StepExecutor.LostFailureIsSkippedRunning | internal/orchestrator/service.go:2506-2523 | One step, no retries, one lost write: the history holds running to skipped, which the table forbids. |
| StepExecutor.SuccessSettlesExactly | internal/orchestrator/service.go:2518-2523 | After a successful call a step is settled unless all its attempts failed and it could not be marked skipped. |
| StepExecutor.ReliablePlan | internal/orchestrator/service.go:2472-2527 | While reads and writes succeed: all writes are legal, success settles every step, failure leaves a settled prefix, one failed blocking step and an untouched suffix. |
| StepExecutor.TriesAreBounded | internal/orchestrator/service.go:2488-2515 | No step is tried more than retries+1 times, and none outside the plan. |
| StepExecutor.StepMeaning | internal/orchestrator/service.go:2479-2523 | A step lets the plan go on if and only if it passes, is left as the first attempt that does not run and fail decides, and touches its own row only. |
| StepExecutor.AttemptMeaning | internal/orchestrator/service.go:2488-2515 | The attempt loop ends succeeded, exhausted or aborted, with the status it leaves, as read off the first attempt that does not run and fail. |
| StepExecutor.AttemptExtends | internal/hsm/hsm.go:51-64 | The attempt loop, whatever writes are lost, makes legal writes only and tries nothing but its step, at most as often as it may. |
| StepExecutor.DoneAtMostOnce | internal/orchestrator/service.go:2472-2527 | In any history in which writes touch unsettled steps and commands run on running ones, a step is recorded done at most once, and never once it is settled. |
| StepExecutor.CallIsTraced | internal/orchestrator/service.go:2472-2527 | The status writes of a call, cut off by a crash anywhere, are such a history from the table it began with. |
| StepExecutor.RecordedAtMostOnce | internal/orchestrator/service.go:437-487 | Across any sequence of Run and Resume calls, crashed anywhere and with any reads and writes failing, each step is recorded done at most once. |
| StepExecutor.CommandSucceedsAtMost | internal/orchestrator/service.go:437-487 | Across the same, a step's command succeeds at most once, and once more for each success whose record was lost or cut off by a crash. |
| StepExecutor.CommandSucceedsAgain | internal/orchestrator/service.go:2497-2503 | It happens: a command succeeds, its record is lost, and the next call runs it again. |
| StepExecutor.MovesMadeExactly | internal/hsm/hsm.go:51-64 | The step table has the moves a call makes while its reads and writes succeed, and one more that no call makes: from pending to skipped. |
| StepExecutor.StepTable.ExecuteSteps | internal/orchestrator/service.go:2472-2527 | The nested loops compute ExecutePlan, failing reads and writes included. |
| StepExecutor.StepTable.UpdateStepStatus | internal/store/sqlite.go:613-638 | Writes one row's status and records the write, or fails and changes nothing. |
| ControlSignals.PendingMeansUnanswered | internal/orchestrator/service_forum_control.go:86-91 | The fold's pending flag holds if and only if a request of the agent has no later answer. |
| ControlSignals.CompletedMeans | internal/orchestrator/service_forum_control.go:92-93 | The completion flag holds if and only if the agent ever signalled completion. |
| ControlSignals.PassedMeans | internal/orchestrator/service_forum_control.go:94-96 | Validation is passed if and only if the agent's last validation passed. |
| ControlSignals.TextsMean | internal/orchestrator/service_forum_control.go:86-98 | The pending question is that of the last unanswered request, and the criteria and outcome are those of the last validation. |
| ControlSignals.WindowExactly | internal/orchestrator/service_forum_control.go:73-76 | The fold sees the oldest 1000 posts; flag by flag (pending, completed, passed) it agrees with the whole thread if and only if the posts beyond hold none of the kind or the last of them says what the window says. |
| ControlSignals.LateRequestUnseen | internal/orchestrator/service_forum_control.go:73-76 | A request after a thousand posts goes unseen. |
| RunControl.GateWindowExactly | internal/orchestrator/service_forum_control.go:73-76 | The gate decides as the whole threads would if and only if the posts beyond the windows change neither whether some agent asks for guidance nor, if none does, whether all agents are done. |
| RunControl.GateMissesLateRequest | internal/orchestrator/service_forum_control.go:73-76 | A run whose agent is done within its first thousand posts and asks for guidance after them is completed. |
| ControlSignals.SameSecondExactly | internal/store/sqlite_forum.go:939-948 | Two posts of one second may come either way: the fold is the same if and only if they are not a request and an answer, two different requests or two different validations of the agent. |
| ControlSignals.ControlStates | internal/orchestrator/service_forum_control.go:39-102 | The loops give every agent and every mapped agent the fold of its thread, as listed. |
| RunControl.GateDecidesBySignals | internal/orchestrator/service.go:2296-2346 | From running or awaiting guidance with no failed agent the gate lands on the status the posts determine (awaiting iff a request is unanswered, complete iff all have completed and passed), is idempotent, and uses legal edges only. |
| RunControl.FoldedMeaning | internal/orchestrator/service_forum_control.go:39-102 | What the gate tests on the folded flags is what the posts say. |
| RunControl.OperationsAreLegal | internal/hsm/hsm.go:5-49 | Every status an operation writes, whatever fails in it, is a legal edge of the run table. |
| RunControl.OutcomeExactly | internal/orchestrator/service.go:399-511 | Where each operation applies, and in which status it then ends for which outcome: a close, for one, ends closed if and only if its checks pass and it is a dry run or its commands succeed. |
| RunControl.NoDetours | internal/orchestrator/service.go:399-511 | No legal path to the same end, by way of running if the operation runs the steps, is shorter than what an operation writes. |
| RunControl.MovesMadeExactly | internal/hsm/hsm.go:5-49 | The run table has the moves the operations make, and two more that none makes: from planning to failed and from running to paused. |
| RunControl.HistoryIsLegal | internal/hsm/hsm.go:5-49 | Over any sequence of operations one after the other, crashed anywhere, the whole status history is legal from created. |
| RunControl.SafeExactly | internal/orchestrator/service.go:2462-2470 | However many calls are in flight: every way they can go on or stop keeps the status history legal if and only if each can write now and the statuses ahead of any two of them lead legally to one another. |
| RunControl.MayBeginExactly | internal/orchestrator/service.go:2462-2470 | After any safe past, an operation may begin without risk if and only if its statuses and those ahead of each call in flight lead legally to one another. |
| RunControl.MayOverlapExecution | internal/orchestrator/service.go:437-511 | Which operations may begin while an execution or resumption runs its steps: never a stop or a cleanup that deletes, nor a gate that waits for guidance, and otherwise exactly those that end the run in the same way or write nothing. |
| RunControl.ChecksNeverRefuse | internal/orchestrator/service.go:2462-2470 | However operations overlap, the check of a call's own statuses never refuses a write. |
| RunControl.FreshWritesAreLegal | internal/orchestrator/service.go:2462-2470 | Were a write made only when the stored status is the one its call assumes, every overlapping history would be legal. |
| RunControl.StoppedThenComplete | internal/orchestrator/service.go:2462-2470 | A run stopped while its steps are executed is recorded complete after it was stopped. |
| RunControl.ClosedIsFinal | internal/orchestrator/service.go:1822-1907 | Once closed a run stays closed; closed is entered from closing only, and closing from complete. |
| RunControl.StuckExactly | internal/orchestrator/service.go:437-512 | A run no operation but the executor's own completion can move is exactly one that is created, closing or closed. |
| RunControl.Run.Transition | internal/orchestrator/service.go:2462-2470 | Writes an edge the table allows and refuses any other. |
| RunControl.Run.SyncBootstrapSignals | internal/orchestrator/service.go:2296-2346 | The loops over the agents end where SyncPath ends. |
| RunControl.Run.ResumeRun | internal/orchestrator/service.go:437-487 | A run in one of seven statuses ends failed if and only if its steps fail and running if and only if it is a bootstrap run; in any other nothing is written. |
| RunControl.Run.StopRun | internal/orchestrator/service.go:489-511 | A run in one of six statuses ends stopped if its agents can be read; in any other nothing is written. |
| RunControl.Run.CloseRun | internal/orchestrator/service.go:1822-1907 | A complete run ends closed if and only if the checks pass and it is a dry run or the commands succeed, failed if and only if the checks pass and a command fails, and otherwise nothing is written. |
| RunControl.Run.ExecuteRun | internal/orchestrator/service.go:399-434 | A created run is planned, paused if it is a dry run, failed if its steps fail, and otherwise running or complete. |
| RunControl.Run.RestartRun | internal/orchestrator/service.go:513-549 | Moves a run to running if it may be and the restart is no dry run; refuses a closed run and one without agents. |
| RunControl.Run.CleanupRun | internal/orchestrator/service.go:643-673 | Stops a run that can be stopped once its workspaces are deleted. |
| RunControl.Run.GuideRun | internal/orchestrator/service.go:1746-1812 | Moves a run that awaits guidance to running once a pending request is answered, and no other. |
| Operator.BudgetHolds | cmd/metawsm/main.go:1588-1611 | Over every tick sequence the persisted attempts equal the persisted restarts and never exceed the budget. |
| Operator.RestartsAccounted | cmd/metawsm/main.go:1588-1611 | Over every tick sequence all restarts are the attempts on record plus the restarts whose record was lost. |
| Operator.RestartsBounded | cmd/metawsm/main.go:1588-1611 | When every write succeeds there are at most as many restarts as the budget. |
| Operator.BudgetExceededExactly | cmd/metawsm/main.go:1588-1611 | After any ticks, some continuation whose writes all succeed has more restarts than the budget in all if and only if the record of a restart was lost before. |
| Operator.BudgetExceeded | cmd/metawsm/main.go:1588-1611 | It happens: with a budget of one, three ticks restart twice. |
| Operator.NextRestartExactly | cmd/metawsm/main.go:1693-1707 | From any memory the next restart can come at a given time if and only if the stored attempts and cooldown allow it then. |
| Operator.CooldownShortExactly | internal/store/sqlite.go:1366-1371 | After a recorded restart the next one can come before the cooldown is over if and only if the cooldown does not end on a whole second and the budget is not used up. |
| Operator.RestartsAreSpaced | cmd/metawsm/main.go:1701-1707 | In every run consecutive persisted restarts are more than the cooldown less one second apart, whatever the clock does in between. |
| Operator.CooldownFallsShort | internal/store/sqlite.go:1366-1371 | That bound is tight: with a cooldown of a minute two restarts can be 59 seconds and a nanosecond apart. |
| Operator.RestartsAreCorroborated | cmd/metawsm/main.go:1683-1689 | Every restart ends at least UnhealthyConfirmations consecutive ticks at which the run was active, running and unhealthy. |
| Operator.RestartsExactly | cmd/metawsm/main.go:1682-1713 | A tick restarts the run if and only if it is unhealthy, corroborated, neither waiting for guidance nor stale, within budget, past the cooldown, the loop may act, and the alert is not already raised. |
| Operator.ExecutesExactly | cmd/metawsm/main.go:1646-1762 | A tick executes an action if and only if the active run calls for it (stopping, only when staleness is verified), the policy leaves it to the loop, the loop may act and the alert is not already raised. |
| Operator.AlertsExactly | cmd/metawsm/main.go:1555-1581 | An alert stands after a tick if and only if the active run calls for it, or it stood and what the run calls for cannot be read; the model can only add, in automatic mode, that a run which calls for nothing is blocked. |
| Operator.RemembersExactly | cmd/metawsm/main.go:1588-1611 | What a tick remembers: the unhealthy ticks in a row, and of a recorded restart one attempt more, its time and the end of its cooldown to the second. |
| Operator.ModelNeverActs | cmd/metawsm/operator_llm.go:170-210 | Two runs that differ only in the model's replies execute the same actions at the same ticks and persist the same state. |
| Operator.MergeExecutesRuleOnly | cmd/metawsm/operator_llm.go:170-210 | What is executed is the rule's own intent, exactly as without a reply; the model can only turn a no-op into an unexecuted escalation. |
| Operator.FailedRestartNotRetried | cmd/metawsm/main.go:1578-1581 | After a failed restart nothing is executed while the decision stays the same, because the alert is already raised. |
| Operator.Supervisor.Observe | cmd/metawsm/main.go:1510-1628 | The loop body moves the run's counters, alert and persisted state as TickOnce says, which the three theorems above spell out, and leaves every other run alone. |
| EventBroker.BufferIsSuffix | internal/server/forum_event_broker.go:116-133 | A subscriber's buffer is always the latest matching events, contiguous, and never longer than its capacity. |
| EventBroker.DeliveryKeepsOrder | internal/server/forum_event_broker.go:116-133 | What a reader received followed by what waits for it is a subsequence of the matching events in publication order. |
| EventBroker.EventsAreConserved | internal/server/forum_event_broker.go:116-133 | Received, buffered and dropped events add up to the matching events published. |
| EventBroker.LosslessExactly | internal/server/forum_event_broker.go:116-133 | A subscriber misses nothing if and only if no event ever found its buffer full. |
| EventBroker.Channel.TryPublish | internal/server/forum_event_broker.go:116-133 | Drops at most the one oldest event and always delivers. |
| EventBroker.Channel.TryReceive | internal/server/forum_event_broker.go:116-133 | Takes the oldest buffered event, or none from an empty channel. |
| EventBroker.MatchesExactly | internal/server/forum_event_broker.go:106-114 | An event is for a subscriber if and only if it carries its ticket and its run, whatever their case, where those are given. |
| EventBroker.Broker.Publish | internal/server/forum_event_broker.go:58-80 | Offers the event to exactly the matching subscribers and returns their number; a closed broker delivers to none. |
| EventBroker.Broker.Subscribe | internal/server/forum_event_broker.go:35-56 | Registers a fresh channel under a new id, or returns a closed channel when the broker is closed. |
| EventBroker.Broker.Unsubscribe | internal/server/forum_event_broker.go:95-104 | Removes and closes that channel only; its contents stay. |
| EventBroker.Broker.Close | internal/server/forum_event_broker.go:82-93 | Closes every channel and registers none. |
| EventStream.PollingIsComplete | internal/server/api.go:341-353 | Polling with next_cursor until an empty page yields exactly the matching rows after the start cursor, once each and in order, even when the log grows between polls. |
| EventStream.PollingIsExact | internal/store/sqlite_forum.go:1061-1108 | After any number of polls the client has exactly the matching rows between its first and last cursor. |
| EventStream.PageIsWindow | internal/store/sqlite_forum.go:1061-1108 | A page misses nothing between its cursor and the next and holds all there is up to its limit, which is 100 when none is given; an empty page means nothing is left. |
| EventStream.RowsMeaning | internal/store/sqlite_forum.go:1061-1108 | The rows listed for a window are exactly its matching rows, ascending. |
| EventStream.StreamIsOrdered | internal/server/websocket.go:52-118 | For any log and anything the channel delivers, sequences written strictly increase from above the client's cursor, and next_cursor never goes back nor lies below a sequence sent. |
| EventStream.StreamSendsExactly | internal/server/websocket.go:52-132 | While the channel stays open exactly these rows are written: the first page's rows of the run, then the events above all earlier arrivals. |
| EventStream.FilterRunSelects | internal/server/websocket.go:120-132 | The run filter keeps exactly the rows of the run, whatever its case; a blank run keeps all. |
| EventStream.LiveSendsRecords | internal/server/websocket.go:79-118 | The live frames carry exactly the events above the cursor and above all earlier arrivals; less than a page is lost, and only when the channel closes mid-batch. |
| EventStream.ClosingLosesBatch | internal/server/websocket.go:91-106 | Events of a batch that is not full when the channel closes are lost. |
| EventStream.BeatsAreSent | internal/server/websocket.go:79-90 | While the channel stays open each heartbeat is answered with one frame, and no other frame is a heartbeat. |
| EventStream.StreamCompleteExactly | internal/server/websocket.go:52-132 | While the channel stays open, a client of a run, or of every run, is sent all rows of it that were waiting if and only if each one beyond the first page arrives on the channel before anything as new. |
| EventStream.BacklogIsSkipped | internal/server/websocket.go:52-78 | When more than a page was waiting, the first row beyond it is never sent once an event newer than the log arrives first. |
| EventStream.BacklogHappens | internal/server/websocket.go:52-78 | It happens: two events wait, the page holds one, a third arrives. |
| EventStream.RecordsExactly | internal/server/websocket.go:79-118 | The events taken from the channel are exactly those above the cursor that arrive before anything as new. |
| EventStream.StreamForumEvents | internal/server/websocket.go:52-118 | The nested loops write exactly the frames of Streamed. |
| EventStream.Follow | internal/server/websocket.go:79-117 | The outer loop, from the subscription on, writes exactly the frames of Live. |
| EventStream.DrainChannel | internal/server/websocket.go:91-106 | The inner loop computes Drain. |
| WebSocketFrame.RoundTripExactly | internal/server/websocket.go:221-243 | For every payload below 2^63 bytes and any following bytes, a decoder of section 5.2 of RFC 6455 recovers opcode and payload and leaves the rest, if and only if the opcode has four bits. |
| WebSocketFrame.OnlyEncodingIsRead | internal/server/websocket.go:221-243 | Any bytes read as a final frame are that frame's encoding followed by the rest. |
| WebSocketFrame.EncodingIsMinimal | internal/server/websocket.go:225-235 | No bytes that even a lenient decoder takes for the same payload are fewer. |
| WebSocketFrame.WriteFrame | internal/server/websocket.go:221-243 | The header appends produce the encoding. |
| WebSocketFrame.PutUint64 | internal/server/websocket.go:233-235 | Writes the eight big-endian bytes in place. |
| DocFederation.OrderIndependentExactly | internal/docfederation/merge.go:66-107 | Permuting the snapshots never changes the best candidates if and only if unbeaten winners of different snapshots agree, key by key. |
| DocFederation.OrderIndependent | internal/docfederation/merge.go:66-126 | When no two candidates of a key tie, permuting the snapshots leaves the ticket list as it is. |
| DocFederation.TiesShow | internal/docfederation/merge.go:135-152 | Two tied tickets that differ do make the order of the snapshots show. |
| DocFederation.TiesHappen | internal/docfederation/merge.go:135-152 | Two equally fresh endpoints of one name are such a case. |
| DocFederation.MergeMeaning | internal/docfederation/merge.go:43-133 | Every listed ticket shows an item of a snapshot got without error, trimmed and with its endpoint; nothing with its key comes from a workspace when it does not, or is fresher from an endpoint of its kind; and every item's key is listed. |
| DocFederation.MergeIsOrdered | internal/docfederation/merge.go:113-126 | The list has active tickets first, then is by ticket and repository, none of which occur twice. |
| DocFederation.CandidatesExactly | internal/docfederation/merge.go:66-104 | The candidates are what the items with a ticket of the snapshots got without error are shown as, active if and only if some context names ticket and repository. |
| DocFederation.PreferredExactly | internal/docfederation/merge.go:135-152 | A workspace's ticket is preferred over a repository's; of two of one kind the one updated later, then indexed later, then with the smaller endpoint name. |
| DocFederation.MergeIsDetermined | internal/docfederation/merge.go:109-126 | Neither the map's iteration order nor the sort's instability shows in the list. |
| DocFederation.PreferredIsWeakOrder | internal/docfederation/merge.go:135-152 | preferredOver is a strict weak order. |
| DocFederation.KeysCollideExactly | internal/docfederation/merge.go:79-81 | Two tickets share a joined key if and only if their parts agree, or a bar falls inside one ticket and the other repository so that the segment between the two cuts is the same in upper and lower case. |
| DocFederation.KeyIsPair | internal/docfederation/merge.go:79-81 | Without a bar in a ticket the joined key stands for ticket, repository and activity. |
| DocFederation.OneTicketPerKey | internal/docfederation/merge.go:82-107 | A merge lists at most one ticket of each joined key. |
| DocFederation.CollisionLosesATicket | internal/docfederation/merge.go:79-107 | Two endpoints with one ticket each, of different tickets and repositories, of which every merge lists one only. |
| DocFederation.MergeWorkspaceFirst | internal/docfederation/merge.go:43-133 | The loops return the best candidate of each key, in order, and the sorted health of every endpoint. |
| DocFederation.HealthIsDeterminedExactly | internal/docfederation/merge.go:121-126 | The health list is determined by the snapshots, whatever the sort does with ties, if and only if endpoints of one kind and name report the same. |
| DocFederation.HealthMeaning | internal/docfederation/merge.go:66-76 | One entry for each snapshot, unreachable with its error text or reachable without; workspaces first, and then by name. |
| DocFederation.Collect | internal/docfederation/merge.go:66-107 | The snapshot loop skips failed snapshots and blank tickets and keeps the best candidate of each key. |
| ReviewFeedback.PassIsCapped | internal/orchestrator/service.go:1308-1315 | A pass writes at most its cap, which is the policy's or, when lower and positive, the requested one. |
| ReviewFeedback.PassWritesFirst | internal/orchestrator/service.go:1378-1495 | A pass writes exactly the first items whose author is not ignored, comments before reviews, as many as the cap lets it, or those before the first write that fails, and only those of the pull requests before the first that is asked and cannot be read; it fails if and only if one of these ends it. |
| ReviewFeedback.PassWritesSaid | internal/orchestrator/service.go:1395-1416 | Every record written carries the content of a remote item of its key and the time of the pass. |
| ReviewFeedback.PassAddsNew | internal/orchestrator/service.go:1395-1416 | A pass counts as added the keys it wrote that it did not know, and their records begin when the item was submitted or, where that is not known, now. |
| ReviewFeedback.ItemIsUpdated | internal/orchestrator/service.go:1417-1436 | It counts as updated each known record that it writes with another content, another time, or a status at last. |
| ReviewKeys.JoinedExactly | internal/orchestrator/service.go:3425-3433 | Two joined keys are equal if and only if numbers and type agree and ticket and repository join to the same string. |
| ReviewKeys.NamesCollideExactly | internal/orchestrator/service.go:3425-3433 | Different tickets and repositories join alike if and only if a bar can move: one ticket is the other, a bar and a segment, and the segment and a bar begin the other repository. |
| ReviewFeedback.PassKeepsExactly | internal/orchestrator/service.go:1378-1436 | A pass, even one that a fetch or a write ends half-way, removes no record, changes no status but a blank one and adds queued records only, if and only if for each record it writes the lookup by the joined key is faithful; a dry run changes nothing. |
| ReviewFeedback.EveryPassKeepsExactly | internal/orchestrator/service.go:1378-1436 | Every pass over a table, whatever the remote answers, does so if and only if the lookup is faithful for every key. |
| ReviewFeedback.NoBarsIsFaithful | internal/orchestrator/service.go:1318-1326 | It is for a table without bars in its tickets and repositories. |
| ReviewFeedback.StatusCrosses | internal/orchestrator/service.go:1385-1391 | With bars a comment is recorded as addressed because another ticket has such a record. |
| ReviewFeedback.FeedbackTable.IndexRows | internal/orchestrator/service.go:1318-1326 | The loop over the listed rows leaves, of the rows of one joined key, the one listed last, which has the longest ticket. |
| ReviewFeedback.RepeatAddsNothing | internal/orchestrator/service.go:1378-1495 | Repeating a pass whose writes all landed, on the same remote items, writes the same records, as far as its own writes land, and adds none. |
| ReviewFeedback.RunIsForwardExactly | internal/orchestrator/service.go:3511-3545 | Over any mix of serialized sync, commit and pull-request steps, each ended half-way or not, no record is lost and no status goes back, if and only if no sync among them writes a record that is ahead of what it looks up. |
| ReviewFeedback.RunIsForward | internal/orchestrator/service.go:3511-3545 | So none goes back over steps without bars in tickets and repositories, each sync reading the table it writes to. |
| ReviewFeedback.RecordsAreWellFormed | internal/orchestrator/service.go:964 | From an empty table, with syncs that have read it as it was then or earlier, only queued, new and addressed occur, and a record has an addressing time if and only if it is addressed. |
| ReviewFeedback.MoveMeaning | internal/orchestrator/service.go:3511-3545 | A commit makes the queued records of its ticket and repository new, a pull request the new ones addressed at its time; all others stay. |
| ReviewFeedback.StaleSyncExactly | internal/orchestrator/service.go:1318-1326 | A sync takes no lock: when a commit or pull request ran since it read, statuses go back if and only if a record it writes was ahead of what it read. |
| ReviewFeedback.SyncMayGoBackExactly | internal/orchestrator/service.go:1318-1326 | Some remote answers make it set a status back if and only if some record of the table is ahead of what it has read. |
| ReviewFeedback.StaleSyncGoesBack | internal/orchestrator/service.go:1318-1326 | It happens: a comment read as queued and committed meanwhile is queued again. |
| ReviewFeedback.FeedbackTable.SyncReviewFeedback | internal/orchestrator/service.go:1308-1508 | A cap that is not positive is an error without effect; otherwise the loops leave the table of the pass, and fail where a fetch or a write fails. |
| ReviewFeedback.FeedbackTable.TransitionStatus | internal/orchestrator/service.go:3511-3545 | Succeeds if and only if no row it concerns fails, and then moves exactly the rows of the given status whose ticket and repository match, whatever their case; otherwise it leaves some of those rows moved and nothing else changed. |

## Left out

- SQL text, JSON encoding, Redis and watermill internals, HTTP routing, the user interfaces, the command line and text output: no property of their own.
- Shelling out to tmux, git, gh, docmgr and wsm: a command's result is an input that may be anything.
- Reading clocks: the time of each step is an input. Stored times are whole seconds in one time zone. Sleeping and the 300 ms consume deadline become the choice of how much a pass consumes.
- Partial execution of one multi-statement SQL string: taken as all or nothing. Statements sent separately can be interrupted in between.
- `forum_assignments`, `message_key`, `last_error`, `sent_at`, correlation and causation ids, event version and the stats rows' `updated_at`: written, never decided on.
- `ForumMarkThreadSeen`, actor and priority normalisers, default titles, policy validation: single-branch checks. Identifiers reach the model trimmed.
- Search and queue results: only their predicates are modelled; their order is by priority first, so cursors do not page them completely.
- Trimming and case folding: on ASCII text only (`Text`).
- ForumRuntime.PassReaches: takes it that each message a round yields is un-acked in Redis at its turn; the observers told of a handled message are left out.
- ForumRuntime.Runtime.ProcessOnce: does not model several processes on one database; there is one handler table and one pass at a time.
- ForumCalls.AnswerMeaning: is about a call whose commands are handled before it returns, with ids new to the log; `ForumLifecycle.HandledKeepsExactly` is about commands delivered later.
- ForumSystem.NothingForgotten: assumes that message ids are not reused; `ForumBus.EnqueueExactly` says what reuse does.
- Integration events never reach the bus and are never marked, so the queue row of a thread that ends with one may stay behind: the convergence theorems are about marked events and events carried by the bus.
- Plans that mark a step done which the table does not: Run and Resume build none (`StepExecutor.Consistent`).
- The gate's theorem is about the posts the control fold reads, at most 1000 a thread; `RunControl.GateWindowExactly` relates them to the whole threads. Errors reading the signals leave the status alone.
- ControlSignals.ControlStates: takes the posts in the order listed; the store orders them by whole seconds only, and `ControlSignals.SameSecondExactly` says when that shows.
- Agent statuses: the program does not hold them to its agent table.
- A restart of the operator process, which forgets counters and alerts: covered only where it looks like ticks at which the run is inactive.
- Operator.Supervisor.Observe: does not model printing, notification commands and the escalation summary.
- EventBroker.Broker.Publish: does not model a publish that overlaps an unsubscribe or a close; broker methods run one at a time.
- EventStream.StreamForumEvents: does not model failing writes; every prefix of its inputs is an input, and the theorems hold for each.
- DocFederation.MergeWorkspaceFirst: puts both lists in order by insertion where the program calls a library sort; `DocFederation.MergeIsDetermined` shows that the tickets are the same, `DocFederation.HealthIsDeterminedExactly` when the health list is. Parsing timestamps is an input.
- ReviewFeedback.FeedbackTable.SyncReviewFeedback: does not model the checks on run, ticket and policy before the cap, `error_text`, which is always empty, and the truncation of stored times, on which only the count of updated records depends. Comment and pull-request numbers are integers, so their decimal forms have no bars.
- Dispatching queued review feedback, which does not change a record.
