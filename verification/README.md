# Verified model of the harness: realtime delivery, task graph, durable execution and their neighbours

This project models the parts of the harness whose correctness is a matter of state and
order rather than of I/O, and proves what they promise. Every module follows one component:

| module | component |
|---|---|
| `EventTable`, `Bridge` | durable event rows with dense per-project sequence numbers, the commit hook that publishes them, the bounded event bus |
| `Gateway`, `Route` | fan-out over bounded queues that drop, and one stream request: replay from the table, then live frames |
| `Sse` | the frames the server prints and the browser's incremental parser |
| `Handoff` | what one stream request sends, delivered to the page |
| `Reducer`, `Office`, `Realtime` | the browser's event reducer, its store (session generation, cursor, single-flight resync), and the whole protocol as a transition system |
| `Replay` | the timeline's fold beside the live reducer |
| `TaskGraph`, `Layout`, `Placement` | cycle detection, readiness, and the two longest-chain layouts |
| `Lifecycle`, `Recovery`, `TaskRows`, `Workflow` | the agent and task transition tables, the recovery policy, the rows the activities write, and the durable task workflow |
| `ContextBroker` | token budgets, line truncation and tier assembly |
| `Indexer` | the hash-driven symbol index |
| `RateLimiter`, `Neighborhood`, `ModelRetry`, `Fuzzy` | the rate limiter, the bounded breadth-first search, bounded retries under injected faults, and fuzzy matching |
| `Wrappers`, `Subsequences`, `Decimals` | shared definitions |

Objects whose methods update fields are classes here, and each of their methods is proved
against a function of its inputs and old state; the promises are then lemmas about those
functions or invariants of the class. `Realtime` is a state machine whose steps are the
store's own functions, with any number of database sessions, a network that may lose,
repeat and reorder, and a user who starts, stops and switches projects at any time.

## How to read the main results

- **Realtime.** `Realtime.RunKeepsInv` holds in every reachable state of the system. Its
  consequences are `SessionSafety` and `ListsChangeLawfully` (lists are only ever those of a
  completed resync of the current session and project plus the committed rows cursor+1,
  cursor+2, and so on), `EveryRowIsHandled` (an old row is ignored, the next row applied, a
  later row starts a resync), `LossHeals` (and the page then shows what that resync read) and
  `ConvergesToTheLog`. The lists an answer carries are any rows at all; `TaskInStepExactly`
  and `AgentInStepExactly` say which of them a synced page then shows in step with the log. On the server side,
  `Bridge`, `Gateway` and `Route` account for every frame that is kept, dropped or lost, and
  `Route.HandoffGap` says exactly when what the generator sends leaves a gap where replay
  meets live frames; `Handoff.StreamReachesPage` carries that to the page at the other end.
- **SSE.** `Sse.RoundTrip` and `Sse.RoundTripWithinLimit`: parsing undoes printing for every
  list of frames and heartbeats and every chunking that stays under the client's limit.
  `Sse.ChunkInvariance` holds for either kind of line end, even when the cut goes through one.
- **Task graph.** `TaskGraph.FindCycle` is exact, `PlanEditIsExact` shows that the plan
  service's reduced check loses nothing, and `NoDeadlock` follows for every graph built by
  accepted edits. Which cycle the search reports depends on the order of the edges;
  `EndsWithTaskInEveryOrder` says exactly when every order ends with the edited task.
- **Workflow.** `Workflow.TaskExecutionWorkflow.Run` holds for every recovery policy, every
  activity result, every interleaving of signals and outside status changes, and with
  activities that fail or lose their answer at any point. `reliable` and `calm` name the two
  assumptions that only some promises need: activities do not fail by themselves, and nobody
  else writes the task's status. The workflow keeps a record of every step it asks for, and
  its methods say which steps those are, in order; lemmas such as `PauseIsHeeded`,
  `AttemptStepsFacts` and `RecoverStepsFacts` say what that order is worth.

## Where the code and its own documentation differ

The model follows the code; these lemmas say what then holds.

- `truncate_text` promises a result within `max_tokens`
  (services/api/app/agents_runtime/context_broker.py:85), but a lone marker may cost more:
  `ContextBroker.FitsExactlyWhen` gives the exact condition and `MarkerMayOverflow` an input.
  The comment at lines 99-100 expects the real marker to be longer than the placeholder; it
  never is (`ShrinkAcceptsAtOnce`).
- On overflow the gateway puts its control frames on the queue it has just found full, so they
  are never queued (services/api/app/realtime/gateway.py:192-202):
  `Gateway.Connection.HandleSlowClient` and `OnlyEventsQueued`. Recovery rests on the
  browser's gap check.
- `find_cycle` promises a cycle that ends with `task_id`
  (services/api/app/tasks/graph.py:28-30). `TaskGraph.CycleElsewhere` is an input where no cycle
  contains the task although one is reported. `FindCycle` ends with the task whenever every
  cycle the task reaches goes through it, as always on an acyclic graph. That condition is exact
  over the orders of the edges (`EndsWithTaskInEveryOrder`) and not for a single order: the
  search follows edges as they are listed and stops at the first cycle it closes, so one lucky
  order may end with the task although another cycle is in reach.
- Substring matches are said to win always (apps/web-ui/src/commands/registry.ts:381-385). For a
  query of at most 40 characters the filter does this exactly when no matching text starts at
  position 1000 or later, or none starts earlier and every fuzzy match is a text match
  (`Fuzzy.ShowsRightExactlyWhen`); `LateMatchIsHidden` is an input where a command containing
  the query is hidden. 40 is the exact bound (`LengthBoundIsExact`): from 41 characters on,
  `LongQueryIntrudes` shows a command that does not contain the query beside one that does.
- A rejected or timed-out gate is said to fail the task terminally with evidence
  (services/api/app/durable/workflows.py:492-495). A budget gate that is not approved, like a
  dependency deadline that passes, ends the run without a terminal record; under the
  repository's own policy these are exactly the failed runs without one
  (`Workflow.LadderRunsEndRecorded`); `RejectedBudgetIsUnrecorded` is such a run.
- Lists and event log are written apart, so a list row need not be what the log says. An agent
  is created with no event (services/api/app/services/orchestration/agents.py:63-73) and a list
  is one page of 100 by default (services/api/app/api/routes/orchestration/agents.py:29); a task
  is `ready` before the event that the reducer reads as `running`
  (services/api/app/api/routes/planning/tasks.py:120-127); a resumed task is set to `running`
  without an event after one that the reducer reads as `ready`
  (services/api/app/durable/workflows.py:146-147). Every result about runs holds whatever rows
  are read; `Realtime.ConvergesToTheLog` speaks of those rows that did agree, one by one, and
  `TaskInStepExactly` and `AgentInStepExactly` say exactly which rows are shown as the log has
  them. `ShownAheadOfTheLog` is a run whose page is synced and shows another status.
- Closing the bus cancels a publish that is waiting; that envelope is neither published nor
  counted as dropped (services/api/app/realtime/bus.py:89-97, 137-140).
  `Bridge.EventBus.AtMostOneMissing` makes it the only gap in the account.
- Reconnects are said to replay exactly what was missed
  (services/api/app/realtime/route.py:6-7). The replay is at most one page: `Route.HandoffGap`
  says exactly when that leaves a gap (`ShortPageGap` is an input), and two live copies that change places are enough for one
  (`Route.SwappedCopiesGap`). Either costs the browser a resync and no data.
- Escalation is guarded against the role asked for, not against the route that failed, so it
  may call the same route again: `ModelRetry.FallbackMayRepeat` says exactly when, and
  `RepeatsTheFailedRoute` is such a registry.
- `draining` is an agent state that no lawful path reaches (`Lifecycle.AgentPathFacts`).
- A start of an attempt or an agent whose answer is lost is repeated and leaves an extra row
  (`TaskRows.StartAgainAddsRows`, `StartAgentAgain`); a repeated state change is refused.
- An index run keeps the old row of a file that can no longer be read
  (services/api/app/codeintel/indexer.py:95-101); `Indexer.RebuildExactlyWhen` makes that the
  only way in which it differs from a rebuild; `OldRowStays` is such a run.
- The replay fold and the live reducer differ when a task is created while it is not pending:
  `Replay.FoldsAgreeExactlyWhen`, with `StartBeforeCreation` as an input. Replaying agents
  converges exactly for logs that agree with themselves at the agent's creation
  (`Reducer.AgentConvergence`); `ChangeBeforeCreation` is a log that does not. The workflow's own
  logs do: the creation event is written in the transaction that makes the agent
  (services/api/app/durable/activities/agents.py:53-67), before any change of its state.
- The wait a rejected client is told is rounded up to whole seconds
  (services/api/app/api/middleware.py:106). A client that comes back earlier, once its window is
  over, opens the next window and can use it up by the moment it was told:
  `RateLimiter.RetryAfterExactly` says exactly when that can happen, `ToldTooLate` is such a run.
- Each chunk's line ends are rewritten together with what is left in the buffer
  (apps/web-ui/src/api/sse.ts:30), so a line feed behind two carriage returns is rewritten twice
  when the text is cut behind it: `Sse.SecondReturnSplits`. Without such a line end the cut does
  not matter (`Sse.ChunkInvariance`).

## Model

| member | source | states |
|---|---|---|
| EventTable.InsertKeepsTable | services/api/app/db/models/core/events.py:54-74 | an insert takes the next dense number of its project and leaves the log, the stashes and what was published lawful |
| EventTable.CommitKeepsTable | services/api/app/realtime/bridge.py:90-100 | a commit appends the session's rows to the log and publishes only rows that are then committed |
| EventTable.CommitPublishesStash | services/api/app/realtime/bridge.py:85-100 | a commit publishes the session's stash and empties it while a bus is attached, and neither without one |
| EventTable.RollbackKeepsTable | services/api/app/realtime/bridge.py:103-104 | a rollback discards the session's rows and its stash, and frees their numbers |
| EventTable.AttachKeepsTable | services/api/app/realtime/bridge.py:41-50 | attaching or detaching the bus at any moment publishes nothing that is not committed |
| Bridge.EventBridge.OnAfterInsert | services/api/app/realtime/bridge.py:74-82 | a row is stashed on its session exactly while a started bus is attached |
| Bridge.EventBridge.OnAfterCommit | services/api/app/realtime/bridge.py:85-100 | the whole stash is offered to the bus, in order and once; without a bus it is kept |
| Bridge.EventBridge.OnAfterRollback | services/api/app/realtime/bridge.py:103-104 | the stash of the session, and only that, is discarded |
| Bridge.EventBus.PublishNowait | services/api/app/realtime/bus.py:99-121 | accepted exactly when open, small enough and not full; a refusal while open is one drop |
| Bridge.EventBus.TakeNext | services/api/app/realtime/bus.py:123-136 | while open and connected the oldest envelope is taken, else nothing; nothing once closed |
| Bridge.EventBus.PublishOne | services/api/app/realtime/bus.py:137-144 | the envelope in flight is published, or counted as one drop |
| Bridge.EventBus.Close | services/api/app/realtime/bus.py:89-97 | the drain ends, and an envelope in flight is then lost without being counted |
| Bridge.EventBus.AtMostOneMissing | services/api/app/realtime/bus.py:79-144 | everything offered is published, queued, in flight or counted as dropped, but for at most one envelope and only once closed |
| Bridge.HookKeepsMirror | services/api/app/realtime/bridge.py:74-104 | every hook keeps the bridge's stashes equal to the event table's and everything ever offered committed |
| Bridge.OnlyCommittedIsOffered | services/api/app/realtime/bridge.py:12-14 | over any run of hooks, with the bus attached, detached, opened and closed at will, everything the bridge ever offered is a committed row |
| Bridge.EveryCommitIsOffered | services/api/app/realtime/bridge.py:74-100 | with the bus attached and open throughout, exactly the committed rows have been offered to it |
| Gateway.Connection.HandleSlowClient | services/api/app/realtime/gateway.py:182-202 | the drop is counted, the client marked dead at the limit, and neither control frame is queued |
| Gateway.Connection.Deliver | services/api/app/realtime/gateway.py:175-180 | a matching envelope is queued, or dropped and counted when the queue is full |
| Gateway.Connection.Take | services/api/app/realtime/route.py:173-176 | frames leave in queue order and the account stays balanced |
| Gateway.Connection.LosslessUntilDrop | services/api/app/realtime/gateway.py:165-202 | with no drop, the frames taken and queued are exactly the matching broadcasts |
| Gateway.Connection.OnlyEventsQueued | services/api/app/realtime/gateway.py:192-202 | no control frame is ever in a queue |
| Gateway.Connection.OnlyOwnProject | services/api/app/realtime/gateway.py:170-172 | every frame queued for or taken by a subscriber of a project is an event of that project |
| Gateway.RealtimeGateway.Register | services/api/app/realtime/gateway.py:146-159 | refused exactly at the connection limit, else a fresh empty connection is added |
| Gateway.RealtimeGateway.Unregister | services/api/app/realtime/gateway.py:161-163 | this connection alone is removed |
| Gateway.RealtimeGateway.Broadcast | services/api/app/realtime/gateway.py:165-173 | each subscriber without a project or with the envelope's is offered it exactly once, queued when there is room and a counted drop otherwise; no other subscriber is touched |
| Route.Live | services/api/app/realtime/route.py:170-185 | the output has a frame for each round in order, stops at the first dead mark or disconnect and not before |
| Route.Generate | services/api/app/realtime/route.py:143-190 | one status frame first; with a cursor the replayed rows' numbers, after a resync notice exactly if history was pruned; then a live half as above |
| Route.StreamNumbers | services/api/app/realtime/route.py:156-185 | the event numbers a stream sends are those of the replayed rows and then those pulled before the round that ends it |
| Route.GateIsSequenceCheck | apps/web-ui/src/state/eventReducer.ts:63-72 | the gate of the handoff results is the reducer's own check |
| Route.PassRange | apps/web-ui/src/state/eventReducer.ts:63-72 | a dense range passes without a gap exactly when it starts at most one above the cursor |
| Route.HandoffGap | services/api/app/realtime/route.py:118-185 | on the generator's output, with nothing pruned and live copies pulled in order and without loss, the browser's gate meets a gap exactly when the page limit cut the replay short of rows already broadcast, and otherwise ends up to date |
| Route.ShortPageGap | services/api/app/realtime/route.py:118-185 | an output of the generator with such a gap |
| Route.SwappedCopiesGap | services/api/app/realtime/route.py:118-128 | two live copies in the wrong order are a gap for every cursor |
| Route.PrunedReplayIsAnnounced | services/api/app/realtime/route.py:159-169 | a stream without live frames carries the resync notice exactly when the events it sends leave a gap |
| Handoff.PageFollowsGate | apps/web-ui/src/state/officeStore.ts:189-207 | a settled page to which committed rows are delivered, any of them in any order, stands where the gate stands: at its cursor with no resync, or waiting for the one resync it started |
| Handoff.StreamReachesPage | services/api/app/realtime/route.py:118-185 | the generator's output, delivered to the page that asked for it, leaves it at the last row sent without a resync when the replay reaches what was already broadcast, and otherwise makes it start exactly one |
| Sse.SseParser.Push | apps/web-ui/src/api/sse.ts:29-42 | throws exactly over the limit, else drains the buffer's complete blocks and keeps the rest |
| Sse.SseParser.Consume | apps/web-ui/src/api/sse.ts:44-57 | one block's frame, and the event name and data kept over a block without data |
| Sse.ChunkInvariance | apps/web-ui/src/api/sse.ts:29-42 | frames do not depend on where text is cut, as long as no line feed has two carriage returns before it |
| Sse.SecondReturnSplits | apps/web-ui/src/api/sse.ts:30 | any two printed events with such a line end between them arrive as two when cut behind it and as at most one uncut |
| Sse.PartialDelivery | apps/web-ui/src/api/sse.ts:29-57 | a received prefix yields a prefix of the frames |
| Sse.RoundTrip | services/api/app/realtime/route.py:46-62 | for every list of frames and heartbeats and every chunking under the limit, parsing gives back the list of events with trimmed values, heartbeats giving none |
| Sse.ArrivesUnchanged | apps/web-ui/src/api/sse.ts:47-48 | a value arrives unchanged exactly when no white space surrounds it |
| Sse.SpacesAre | apps/web-ui/src/api/sse.ts:47-48 | the white space that trimming removes, by code point |
| Sse.IdTellsSequence | services/api/app/realtime/route.py:46-62 | the id line of a printed event tells its sequence number and is missing without one |
| Sse.LeftoverIsShort | apps/web-ui/src/api/sse.ts:30-31 | between chunks the buffer holds nothing or a proper prefix of one frame |
| Sse.RoundTripWithinLimit | apps/web-ui/src/api/sse.ts:31 | the round trip whenever the longest chunk and the longest frame together fit the limit |
| Sse.SplitJoin | apps/web-ui/src/api/sse.ts:45 | splitting at newlines undoes joining |
| Reducer.ProjectionFromLists | apps/web-ui/src/state/eventReducer.ts:31-51 | the loop's cursor is the timeline's largest sequence number |
| Reducer.MaxSequenceIsMax | apps/web-ui/src/state/eventReducer.ts:37-42 | that number bounds every entry and is met by one |
| Reducer.NewestFirst | apps/web-ui/src/state/eventReducer.ts:200 | an applied event comes first on the timeline and the rest follows, at most 120 in all |
| Reducer.AppliedOnce | apps/web-ui/src/state/eventReducer.ts:63-97 | an applied event is a duplicate from then on; an unsequenced one is always applied and moves no cursor |
| Reducer.EventReads | apps/web-ui/src/state/eventReducer.ts:101-130 | which agent an event is about and what state it sets, by its fields |
| Reducer.TaskTargets | apps/web-ui/src/state/eventReducer.ts:134-157 | what status each kind of event gives the task it names |
| Reducer.AgentListGrows | apps/web-ui/src/state/eventReducer.ts:101-130 | a new agent comes last with its project and state; no other entry moves or changes its project |
| Reducer.AnswerRemoves | apps/web-ui/src/state/eventReducer.ts:161-174 | an answer drops exactly the requests pending for its task and keeps the order of the others; no other event touches them |
| Reducer.TasksFollowFold | apps/web-ui/src/state/eventReducer.ts:148-157 | each listed task follows its own fold over the log and nothing else |
| Reducer.AgentsFollowFold | apps/web-ui/src/state/eventReducer.ts:101-130 | each agent's entry follows its own fold over the log |
| Reducer.TaskReplayIdempotent | apps/web-ui/src/state/eventReducer.ts:148-157 | events already accounted for change nothing when replayed |
| Reducer.TaskConvergence | apps/web-ui/src/state/officeStore.ts:345-363 | rows reflecting log prefix m, replayed from any cursor c <= m to any n >= m, end where the log up to n ends |
| Reducer.AgentConvergence | apps/web-ui/src/state/eventReducer.ts:101-130 | the same for agents, for every cursor, snapshot and end, exactly when the log agrees with itself at the agent's creation |
| Reducer.AgentFoldsMeet | apps/web-ui/src/state/eventReducer.ts:101-130 | when two folds over the same events meet, for an agent present or absent in either |
| Reducer.AgentDiverges | apps/web-ui/src/state/eventReducer.ts:105-117 | a log that does not is replayed to a wrong state |
| Reducer.ChangeBeforeCreation | apps/web-ui/src/state/eventReducer.ts:105-117 | such a log: a change of an agent listed before its creation |
| Office.OfficeStore.Start | apps/web-ui/src/state/officeStore.ts:292-326 | a new project opens a new session with no cursor and a resync under way |
| Office.OfficeStore.Stop | apps/web-ui/src/state/officeStore.ts:328-338 | the session ends and its resync is disowned |
| Office.OfficeStore.Resync | apps/web-ui/src/state/officeStore.ts:340-376 | single flight: a running job, a missing project or a stopped page starts none |
| Office.OfficeStore.FinishResync | apps/web-ui/src/state/officeStore.ts:357-366 | lists and cursor are replaced together, by a job of the current session only |
| Office.OfficeStore.ApplyEnvelopeToStore | apps/web-ui/src/state/officeStore.ts:179-209 | ignored, applied or turned into a resync, by the sequence check |
| Realtime.RunKeepsInv | apps/web-ui/src/state/officeStore.ts:157-376 | every reachable state of sessions, network and page keeps the invariant |
| Realtime.StepKeepsInv | apps/web-ui/src/state/officeStore.ts:157-376 | every single step keeps it |
| Realtime.FinishKeepsInv | apps/web-ui/src/state/officeStore.ts:345-366 | a completed resync loads lists read after the cursor it sets |
| Realtime.AppliedIsNext | apps/web-ui/src/state/eventReducer.ts:63-97 | whatever passes the gate is the committed row right after the cursor |
| Realtime.SessionSafety | apps/web-ui/src/state/officeStore.ts:179-209 | in every run, trusted lists come from a completed resync of this session and project plus exactly the committed rows cursor+1, cursor+2, and so on, and the timeline shows those rows newest first, then what was read |
| Realtime.ListsChangeLawfully | apps/web-ui/src/state/officeStore.ts:211-252 | lists and cursor change only by such a resync or by the next committed row on a stream of the current session |
| Realtime.EveryRowIsHandled | apps/web-ui/src/state/officeStore.ts:189-207 | on a settled page an old row changes nothing, the next row is applied, and any later row starts a resync of the same project |
| Realtime.TaskInStepExactly | apps/web-ui/src/state/eventReducer.ts:148-157 | whatever rows were read, a listed task of a synced page agrees with the log up to the cursor exactly when an applied event set it or its row agreed already |
| Realtime.AgentInStepExactly | apps/web-ui/src/state/eventReducer.ts:101-130 | whatever rows were read, a synced page agrees with the log up to the cursor on an agent, listed or not, exactly when list and log agreed on it at the cursor of the resync or the applied events bring them together |
| Realtime.ShownAheadOfTheLog | services/api/app/api/routes/planning/tasks.py:120-127 | a run whose page is synced and shows a task ready that the log leaves pending |
| Realtime.ConvergesToTheLog | apps/web-ui/src/state/officeStore.ts:346-363 | once past the point where the lists were read, every listed task and every agent whose row agreed with the log there has the state the log gives it, whatever the other rows say |
| Realtime.ResyncHeals | apps/web-ui/src/state/officeStore.ts:340-376 | once the requests of the current session's resync are answered, with any lists, the page is synced and shows exactly what it read |
| Realtime.LossHeals | apps/web-ui/src/state/officeStore.ts:189-195 | after any loss, the first later row starts a resync whose answers, whatever lists they carry, bring the cursor to the end of the timeline read |
| Realtime.RunIsSingleFlight | apps/web-ui/src/state/officeStore.ts:340-376 | in every run at most one resync of the current session is under way: the one the store names |
| Realtime.StartLeadsToResync | apps/web-ui/src/state/officeStore.ts:292-326 | opening a project that is open changes nothing; any other opens a new session with a resync under way |
| Realtime.StopEndsSession | apps/web-ui/src/state/officeStore.ts:328-338 | leaving ends the session, and no resync of it is named any more |
| Realtime.ResyncStartsOnce | apps/web-ui/src/state/officeStore.ts:340-346 | a page asked for a resync goes on with the one it has or starts one; a stopped page stays as it is |
| Realtime.NoticeLeadsToResync | apps/web-ui/src/state/officeStore.ts:169-173 | the server's notice, like an event of another project, makes a page of the stream's session resync, and no other |
| Realtime.FailureIsRemembered | apps/web-ui/src/state/officeStore.ts:367-371 | a failed resync stays wanted in its own session, and one of an ended session reads no lists |
| Realtime.SettledIsFree | apps/web-ui/src/state/officeStore.ts:373-374 | once settled a resync leaves its session free for the next |
| Replay.FoldReplay | apps/web-ui/src/timeline/model.ts:456-519 | the task map is each task's fold over the cut, and the commits are its last 50 |
| Replay.CommitsInOrder | apps/web-ui/src/timeline/model.ts:456-519 | the commits are the commit events, each at its place in their order |
| Replay.FoldsAgreeExactlyWhen | apps/web-ui/src/timeline/model.ts:474-485 | replay and live reducer agree at every cut exactly when every creation of the task finds it pending |
| Replay.StartBeforeCreation | apps/web-ui/src/timeline/model.ts:474-485 | a log of two events on which the two folds differ |
| Replay.CreationFirstAgrees | apps/web-ui/src/timeline/model.ts:474-485 | so they agree on every log in which the creation comes first |
| TaskGraph.CycleFinder.Visit | services/api/app/tasks/graph.py:40-54 | the three-colour search from a white node either reports a closed path of edges or blackens what it reaches in topological order |
| TaskGraph.FindCycle | services/api/app/tasks/graph.py:22-56 | none means no cycle is reachable; a result is a reachable closed path of real edges that starts and ends at the task or avoids it, and ends at the task when every reachable cycle goes through it; on an acyclic graph none means the extended graph is acyclic |
| TaskGraph.CycleElsewhere | services/api/app/tasks/graph.py:28-30 | an input with a cycle to report and none that contains the task |
| TaskGraph.EndsWithTaskInEveryOrder | services/api/app/tasks/graph.py:40-54 | every cycle the task reaches goes through it exactly when no order of the edges leads the search round another |
| TaskGraph.LocalCheckIsGlobal | services/api/app/tasks/graph.py:28-30 | adding edges at one node to an acyclic graph keeps it acyclic exactly when no cycle is reachable from that node |
| TaskGraph.PlanEditIsExact | services/api/app/services/planning/plans.py:74-80 | dropping the task's own edges before the check neither misses nor invents a cycle |
| TaskGraph.RunEditsAcyclic | services/api/app/services/planning/plans.py:74-80 | every sequence of checked edits leaves the graph acyclic |
| TaskGraph.EditsTakeEffect | services/api/app/services/planning/plans.py:74-80 | the edges are exactly those of the edits that closed no cycle when they were made |
| TaskGraph.ReadyExactly | services/api/app/tasks/graph.py:59-61 | a task is blocked exactly when some dependency is not completed |
| TaskGraph.StuckSetHasCycle | services/api/app/tasks/graph.py:59-61 | a non-empty set in which every task depends on the set contains a cycle |
| TaskGraph.NoDeadlock | services/api/app/tasks/graph.py:59-61 | after any edits, while some task is uncompleted some uncompleted task is ready |
| Layout.DepthIsLongestChain | apps/web-ui/src/graph/build.ts:787-792 | on an acyclic graph the recursive depth is the longest dependency chain |
| Layout.DepthIgnoresTrail | apps/web-ui/src/office/selectors.ts:513-523 | on an acyclic graph the trail never matters, so memoising is sound |
| Layout.DependencyIsLower | apps/web-ui/src/office/selectors.ts:520 | every dependency lies in a strictly lower layer |
| Layout.LassoDepth | apps/web-ui/src/graph/build.ts:787-792 | on a chain that runs back into itself the repeated id counts with its place on the way |
| Layout.DepthMemo.Visit | apps/web-ui/src/office/selectors.ts:513-523 | terminates on every input, and on acyclic ones returns and remembers the true depth |
| Placement.Group | apps/web-ui/src/office/selectors.ts:525-529 | every position is in the row of its key and in no other, at its rank among those of that key |
| Placement.InnerEdges | apps/web-ui/src/office/selectors.ts:506-519 | the edges walked are exactly those from the last task with an id to the dependencies it names that are listed |
| Placement.LayoutDeps | apps/web-ui/src/office/selectors.ts:505-545 | exactly one node a task, rows in order and filled from the left, no shared position; without cyclic dependencies every task lies strictly below each listed dependency, in the layer of its longest chain; the edges returned are the listed dependencies |
| Placement.TaskDepsEdges | apps/web-ui/src/graph/build.ts:781-785 | the same for the graph view: the edges are those to dependencies that are nodes |
| Placement.LayoutGraph | apps/web-ui/src/graph/build.ts:775-820 | every node is placed and different ids never share a position; with distinct ids kind or layer gives the column and the rank there the height; without cycles a task stands strictly right of each dependency, one column more than its longest chain |
| Placement.OfKindInOrder | apps/web-ui/src/graph/build.ts:777-780 | the nodes of a kind are listed each at its rank |
| Lifecycle.AgentPathFacts | services/api/app/agents_runtime/lifecycle.py:43-58 | completed and cancelled are final, draining is unreachable, completion comes only out of verification |
| Lifecycle.FinalStatusSticks | services/api/app/services/planning/tasks.py:22-34 | a completed or cancelled task stays so, whoever writes |
| Recovery.LadderIs | services/api/app/services/orchestration/recovery.py:235-308 | the ladder of every failure class: what is never retried, what the last attempt leads to, and the one before it, and which classes each earlier action is for |
| TaskRows.PerformKeepsLawful | services/api/app/durable/activities/agents.py:80-104 | every activity keeps agent histories lawful and attempt numbers dense, except exactly a close of an agent that may not fail and a record for an attempt that does not exist |
| TaskRows.AgainIsOnce | services/api/app/durable/activities/recovery.py:206-289 | repeated delivery of a state change, a finish, a record or a close has the effect of one |
| TaskRows.StartAgainAddsRows | services/api/app/durable/activities/tasks.py:80-94 | repeated starts of an attempt leave that many unfinished rows |
| TaskRows.StartAgentAgain | services/api/app/durable/activities/agents.py:21-75 | repeated starts of an agent leave that many agents, the attempt linked to the newest |
| Workflow.TaskExecutionWorkflow.ExecuteActivity | services/api/app/durable/workflows.py:27-28 | at-least-once delivery: the rows are those after some number of deliveries, and an answer is that of the last; every step asked for is on record with whether a pause was asked for |
| Workflow.TaskExecutionWorkflow.SetAgentState | services/api/app/durable/activities/agents.py:80-104 | a state is written once along a lawful edge or not at all; without outside failures the request is refused only when the edge is unlawful |
| Workflow.TaskExecutionWorkflow.Checkpoint | services/api/app/durable/workflows.py:73-96 | a pause that is asked for is heeded: the agent goes through pause requested, paused, resuming and running, in that order and only once no pause is asked for any more; without one nothing happens |
| Workflow.TaskExecutionWorkflow.Work | services/api/app/durable/workflows.py:306-342 | snapshot, execution and verification in order, each checkpoint before the step it guards; the agent's states show every pause |
| Workflow.PauseIsHeeded | services/api/app/durable/workflows.py:73-96 | no snapshot is taken and no verification begun while a pause is asked for, unless the four steps just before led into a pause and out of it |
| Workflow.TaskExecutionWorkflow.SetStatus | services/api/app/durable/activities/tasks.py:200-219 | idempotent, lawful, and refused otherwise |
| Workflow.TaskExecutionWorkflow.WaitForDependency | services/api/app/durable/workflows.py:114-148 | the steps asked for, in order; with unfinished dependencies it is met only by a signal that came since, and missed only without one; running again when met, running or blocked otherwise |
| Workflow.TaskExecutionWorkflow.RunAttempt | services/api/app/durable/workflows.py:277-358 | one attempt: all the steps it asks for, in order; its row, its agent's whole history, its predecessor and its outcome agree, and no other attempt is finished |
| Workflow.AttemptStepsFacts | services/api/app/durable/workflows.py:277-358 | one execution an attempt, right after a snapshot; started first, finished with its outcome before the agent's last state |
| Workflow.TaskExecutionWorkflow.Recover | services/api/app/durable/workflows.py:359-638 | for every policy: all the steps asked for, by decision and answers, each question put exactly when it has to be; how the step may end, when the terminal failure is recorded, and that attempts and agents are untouched |
| Workflow.RecoverStepsFacts | services/api/app/durable/workflows.py:381-638 | the budget is asked for before anything that costs; the terminal record comes last, exactly when the step ends that way; a retry is announced exactly when the run goes on with one |
| Workflow.FollowUpFacts | services/api/app/durable/workflows.py:410-615 | which follow-up each action asks for, once the budget lets it |
| Workflow.TaskExecutionWorkflow.AttemptLoop | services/api/app/durable/workflows.py:276-643 | never more attempts than the clamped limit, whatever activities do; without outside failures exactly one new row an attempt, numbered in order, and otherwise at most three for each start; on a normal end exactly one recovery record per failed attempt, only the last may succeed, and the steps asked for are those of the attempts and their recoveries, one after the other |
| Workflow.TaskExecutionWorkflow.ExecuteTask | services/api/app/durable/workflows.py:252-666 | a normal end is completed exactly when the last attempt succeeded, and none happens on a finished task; entry, attempts and end ask for their steps in order |
| Workflow.EnterStepsFacts | services/api/app/durable/workflows.py:261-267 | the task is set running before its attempts, through ready if it was pending |
| Workflow.ConcludeStepsFacts | services/api/app/durable/workflows.py:647-665 | the final status comes before its event, and dependents are woken exactly after a success |
| Workflow.TaskExecutionWorkflow.ReconcileTerminalFailure | services/api/app/durable/workflows.py:150-236 | a completed or cancelled task is never touched and, while nobody else writes, neither is a failed one; a finished attempt is never rewritten; any other task ends cancelled if it was pending, else failed; every clean-up step is tried whatever became of the one before |
| Workflow.TaskExecutionWorkflow.Run | services/api/app/durable/workflows.py:238-250 | all of this for a whole run: it ends normally exactly when nothing it asked for came back with an exception; without outside trouble nothing does, so no request of its own is ever refused |
| Workflow.TriesGrow | services/api/app/durable/workflows.py:276-358 | one more attempt extends the story the rows tell |
| Workflow.RunStepsGrow | services/api/app/durable/workflows.py:276-643 | the steps of one more attempt and its recovery follow those of the earlier ones |
| Workflow.AfterFailure | services/api/app/durable/workflows.py:359-643 | a failed attempt and its recovery step continue the story or end it truthfully |
| Workflow.LadderRunsEndRecorded | services/api/app/services/orchestration/recovery.py:235-308 | under the repository's policy a failed run lacks its terminal record exactly when the last decision's budget gate was not approved or its dependency deadline passed; its last action is then waiting or one the budget is asked for, with attempts left; every earlier failure was retryable |
| Workflow.RejectedBudgetIsUnrecorded | services/api/app/durable/workflows.py:492-495 | such a run: over budget and not approved on the first of three attempts |
| Workflow.FrozenWhenFinal | services/api/app/durable/workflows.py:164-166 | no status is written after a final one |
| ContextBroker.TruncateText | services/api/app/agents_runtime/context_broker.py:78-108 | both loops compute the longest fitting lines with the real marker |
| ContextBroker.SplitLinesIs | services/api/app/agents_runtime/context_broker.py:91 | splitting into lines loses nothing but the boundaries, of which a carriage return and its line feed are one |
| ContextBroker.BreaksAre | services/api/app/agents_runtime/context_broker.py:91 | the line boundaries, by code point |
| ContextBroker.TruncatedIs | services/api/app/agents_runtime/context_broker.py:78-108 | what truncation returns, by the largest number of lines that fits and without its loops |
| ContextBroker.EstIs | services/api/app/agents_runtime/providers.py:16-18 | four characters a token, rounded down, and never less than one |
| Decimals.DigitsDenote | services/api/app/agents_runtime/context_broker.py:118-119 | the decimal digits denote the number, without a leading zero |
| ContextBroker.KeptIsLongest | services/api/app/agents_runtime/context_broker.py:91-98 | the greedy count is the longest prefix that fits with the worst-case marker |
| ContextBroker.KeptLines | services/api/app/agents_runtime/context_broker.py:92-93 | head keeps the first lines, tail the last ones, never reordered |
| ContextBroker.ShrinkAcceptsAtOnce | services/api/app/agents_runtime/context_broker.py:99-106 | the shrink loop returns on its first turn |
| ContextBroker.FitsExactlyWhen | services/api/app/agents_runtime/context_broker.py:85-108 | the result fits exactly when the text or the bare marker does |
| ContextBroker.MarkerMayOverflow | services/api/app/agents_runtime/context_broker.py:107-108 | an input whose result exceeds the limit and whose omitted count is negative |
| ContextBroker.Assemble | services/api/app/agents_runtime/context_broker.py:122-186 | for every input: the total is within budget exactly when the safety tier can be, given a floor that covers the markers of the tiers with text; safety first and all in tier order; each tier with text in exactly one of sections and dropped tiers; a drop only below the floor; nothing cut or dropped when everything fits |
| ContextBroker.CandidateTiers | services/api/app/agents_runtime/context_broker.py:141-153 | safety always and exactly the tiers with text are candidates |
| ContextBroker.WithinBudget | services/api/app/agents_runtime/context_broker.py:155-186 | given a floor that covers the other markers, the total is within budget exactly when the safety tier can be |
| ContextBroker.DefaultFloorCovers | services/api/app/agents_runtime/context_broker.py:35 | the default floor covers every marker whose count has at most 37 digits, and no longer one |
| ContextBroker.AssemblyIsTidy | services/api/app/agents_runtime/context_broker.py:155-186 | safety comes first, sections and dropped tiers are in order |
| ContextBroker.EveryTierOnce | services/api/app/agents_runtime/context_broker.py:155-186 | every candidate tier is in exactly one of sections and dropped tiers |
| ContextBroker.DropsOnlyBelowFloor | services/api/app/agents_runtime/context_broker.py:173-185 | a tier is dropped only when less than the floor is left |
| ContextBroker.AllFitKeptWhole | services/api/app/agents_runtime/context_broker.py:170-172 | when everything fits nothing is cut or dropped |
| Indexer.CodeIndex.UpdateIndex | services/api/app/codeintel/indexer.py:72-159 | the loops leave exactly the specified rows and symbols and count them truly |
| Indexer.UpdateKeepsConsistent | services/api/app/codeintel/indexer.py:82-148 | every row stays made from a content with its hash |
| Indexer.IncrementalIsFull | services/api/app/codeintel/indexer.py:102-106 | from a consistent index and without collisions an incremental run leaves the very table a full run does |
| Indexer.UpdateEntry | services/api/app/codeintel/indexer.py:88-148 | what the index holds for every path after a run |
| Indexer.UpdateCandidate | services/api/app/codeintel/indexer.py:88-148 | a candidate's entry is made from its content, unless that cannot be read or is longer than the cap; then the old one stays |
| Indexer.RebuildExactlyWhen | services/api/app/codeintel/indexer.py:95-101 | a run agrees with a rebuild from nothing exactly when no unreadable or oversized candidate has an old row |
| Indexer.OldRowStays | services/api/app/codeintel/indexer.py:95-101 | a file indexed once and then unreadable keeps its entry, and a rebuild has none |
| Indexer.SecondRunOnlySkips | services/api/app/codeintel/indexer.py:102-106 | a second run on an unchanged tree changes nothing and only skips |
| Indexer.CrashAndRerun | services/api/app/codeintel/indexer.py:139 | a run cut short between files and started again ends where an uninterrupted one does |
| Indexer.CountsAddUp | services/api/app/codeintel/indexer.py:86-115 | every candidate is counted exactly one way |
| Indexer.RowsConserved | services/api/app/codeintel/indexer.py:141-159 | rows afterwards plus removed are rows before plus indexed |
| RateLimiter.Limiter.Dispatch | services/api/app/api/middleware.py:89-113 | the bucket logic of one request |
| RateLimiter.AnswerIs | services/api/app/api/middleware.py:89-113 | the whole policy without buckets: a request opens a window unless one its client opened before covers it, is admitted exactly while no more than the limit was asked in its window, and is otherwise told what is left of it |
| RateLimiter.EvictsExactly | services/api/app/api/middleware.py:94-102 | other clients' buckets go exactly when more than 10,000 are kept and their window is over |
| RateLimiter.EvictionIsInvisible | services/api/app/api/middleware.py:94-102 | evicting expired buckets never changes an answer of any run |
| RateLimiter.AtMostTwice | services/api/app/api/middleware.py:91-107 | at most 2N-1 admitted per client in any half-open window, over any run with a monotonic clock |
| RateLimiter.BoundIsMet | services/api/app/api/middleware.py:91-107 | that bound is met for every limit and every window |
| RateLimiter.RejectedOnlyWhenFull | services/api/app/api/middleware.py:91-107 | a rejected request finds the limit of its client admitted less than one window before |
| RateLimiter.RetryAfterIsEnough | services/api/app/api/middleware.py:106-112 | a rejected client is admitted by its first request after what it was told, whatever it sent before its window ended |
| RateLimiter.RetryAfterExactly | services/api/app/api/middleware.py:106-112 | whatever the client does in the meantime, that first request is admitted in every continuation exactly when what was left of the window is a whole number of seconds |
| RateLimiter.ToldTooLate | services/api/app/api/middleware.py:106-112 | a run in which a client is rejected although it came back when told |
| RateLimiter.RetryAfterIsTight | services/api/app/api/middleware.py:106 | and it is not told to wait a second too long |
| Neighborhood.BallIsDistance | apps/web-ui/src/graph/build.ts:555-560 | the ball is what walks of at most that many edges reach |
| Neighborhood.NeighborsOf | apps/web-ui/src/graph/build.ts:478-485 | exactly the undirected neighbours, each once |
| Neighborhood.Search | apps/web-ui/src/graph/build.ts:571-588 | within the ball and the cap, nearest first; the whole ball exactly when it fits and a full cap otherwise; the count of what was turned away is that of the neighbours not shown of each id nearer than the depth |
| Neighborhood.ClampIs | apps/web-ui/src/graph/build.ts:567 | the depth is brought between 1 and 3 |
| Neighborhood.InvestigationNeighborhood | apps/web-ui/src/graph/build.ts:561-592 | the same for the nodes, the count and the edges returned, for every lens and clamped depth |
| Neighborhood.InsideIsExact | apps/web-ui/src/graph/build.ts:589-591 | the edges returned are exactly the allowed ones with both ends shown |
| Neighborhood.AllowedIsExact | apps/web-ui/src/graph/build.ts:568 | with an authority filter exactly the edges of those authorities are followed and returned, without one all |
| ModelRetry.FaultState.Armed | services/api/app/chaos/faults.py:44-64 | when a point fires, and what is left of its budget |
| ModelRetry.FiresExactly | services/api/app/chaos/faults.py:44-64 | an unset point never fires, one without a readable budget always, and a budget of n the first n times it is asked for, each scope by itself |
| ModelRetry.DelayBounded | services/api/app/agents_runtime/models_registry.py:135-149 | no delay is negative or above the stretched cap |
| ModelRetry.DelayGrows | services/api/app/agents_runtime/models_registry.py:135-139 | without jitter: the base, multiplied by the factor for each further attempt, up to the cap |
| ModelRetry.DelayJitters | services/api/app/agents_runtime/models_registry.py:139-149 | jitter stretches that delay by its share, never below zero |
| ModelRetry.ModelRegistry.Attempts | services/api/app/agents_runtime/models_registry.py:121-149 | bounded calls, and sleeps that are the delays of their attempts; only transient errors are retried, all attempts are used before giving up on them, and an outage that is switched on lets no call through |
| ModelRetry.ModelRegistry.Complete | services/api/app/agents_runtime/models_registry.py:106-159 | at most one call beyond the attempts, to the fallback; with N injected failures and healthy providers, the primary after N sleeps if N is below the attempts, the fallback after all of them otherwise |
| ModelRetry.FallbackMayRepeat | services/api/app/agents_runtime/models_registry.py:97-101 | when escalation leads back to the route that failed |
| ModelRetry.RepeatsTheFailedRoute | services/api/app/agents_runtime/models_registry.py:97-101 | a registry in which every role without a route escalates to the route that failed |
| Fuzzy.FuzzyScore | apps/web-ui/src/commands/registry.ts:354-379 | the scanning loop computes the score |
| Fuzzy.ScoreIsSubsequence | apps/web-ui/src/commands/registry.ts:354-379 | a score is given exactly for subsequences |
| Fuzzy.Tiers | apps/web-ui/src/commands/registry.ts:351-379 | substring scores are negative exactly before position 1000, and for up to 40 characters no other score is |
| Fuzzy.LongQueryFallsIn | apps/web-ui/src/commands/registry.ts:362-377 | for every length from 41 on, a query and a text without it whose fuzzy score is negative |
| Fuzzy.LengthBoundIsExact | apps/web-ui/src/commands/registry.ts:351-379 | fuzzy scores of queries of n characters are never negative exactly for n up to 40 |
| Fuzzy.LateMatchFallsOut | apps/web-ui/src/commands/registry.ts:359-360 | a substring match that is not negative |
| Fuzzy.ShownFacts | apps/web-ui/src/commands/registry.ts:386-396 | what is shown is sorted, and is the negative tier if it is not empty |
| Fuzzy.EmptyQueryShowsAll | apps/web-ui/src/commands/registry.ts:386-387 | an empty query shows every command in order |
| Fuzzy.FilteredOnce | apps/web-ui/src/commands/registry.ts:386-396 | no command is shown twice |
| Fuzzy.FilterShows | apps/web-ui/src/commands/registry.ts:381-396 | for up to 40 characters: exactly the texts matched before position 1000 if there are any, else exactly the subsequence matches |
| Fuzzy.ShowsRightExactlyWhen | apps/web-ui/src/commands/registry.ts:381-385 | for up to 40 characters the documented promise holds exactly when matches from position 1000 on do not meet other matches |
| Fuzzy.LateMatchIsHidden | apps/web-ui/src/commands/registry.ts:381-396 | an input where a command that contains the query is not shown |
| Fuzzy.LongQueryIntrudes | apps/web-ui/src/commands/registry.ts:381-396 | for every length from 41 on, an input where a command without the query is shown beside one with it |

## Left out

- NATS, Temporal, SQLAlchemy, HTTP, clocks and timers: they appear as steps chosen freely, as parameters, or not at all; savepoints are not modelled, transactions are flat.
- Identifiers, event types and statuses are numbers and enumerations; the number 0 stands for the empty string, which JavaScript treats as absent.
- EventTable works on values: rows in a database have no object identity to model.
- Realtime: the network is any loss, repetition, reordering and delay of committed rows; abort handles, connection state, back-off and rate display are not modelled. An aborted stream may still deliver in the model.
- Realtime: the pending human-approval list is refreshed by an unguarded request, so the session properties speak of agents, tasks, timeline and cursor only.
- Realtime.ConvergesToTheLog: speaks of rows that agreed with the log when they were read, because others may never come into step (Realtime.TaskInStepExactly and AgentInStepExactly are exact for them), and of agents whose log agrees with itself at their creation, because others do not converge (Reducer.AgentDiverges).
- Route.HandoffGap: assumes that live copies arrive in order and none is lost; Route.SwappedCopiesGap shows that order is needed, and losses and reorderings are covered by Realtime.EveryRowIsHandled and LossHeals.
- Sse: decoding of bytes and the JSON inside frames.
- Sse, Fuzzy: a character is a code point; JavaScript counts UTF-16 units, so lengths and positions differ for text outside the basic plane.
- TaskGraph: Python's recursion limit.
- Placement: the width and height of a drawing.
- Workflow: signals and a wait that never ends are covered only in that every promise holds at each point where an activity may raise; that a parked dependency wait is woken is not claimed, since its flag is cleared after the status check.
- Workflow: supervision and the session endpoints may also write agent states; the model's agents are written by the workflow only.
- Workflow: backoff seconds, evidence, child tasks and event payloads.
- ContextBroker.WithinBudget: asks that the floor covers the bare markers of the tiers with text, which the default floor of 16 does for any estimate of at most 37 digits (ContextBroker.DefaultFloorCovers).
- Indexer: other projects' rows, embeddings, the symbol total and the file walk; candidates are distinct paths with a content or none.
- RateLimiter: exempt paths and floating-point rounding of the clock.
- ModelRetry: the jitter distribution and HTTP behaviour of providers.
- Fuzzy: trimming and lower-casing, done before the modelled part.
- Replay: agents, counters, milestones and requirements of the snapshot, which would only add further folds.
- Auth, command policies, toolchains, DTOs and the user interface.
