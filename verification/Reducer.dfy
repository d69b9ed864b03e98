/** The browser's event reducer (apps/web-ui/src/state/eventReducer.ts).
    Ids are numbers and 0 is the empty string, which JavaScript treats as absent;
    event types and statuses are enumerated. */
module Reducer {
  import opened Wrappers

  type Id = nat

  datatype EventType =
    | AgentCreated | AgentStatusChanged | AgentStarted | AgentOther
    | TaskCreated | TaskScheduled | TaskExecutionStarted | TaskCompleted | TaskFailed
    | TaskTerminallyFailed | TaskCancelled | TaskReplanned | TaskOther
    | DependencyWaitStarted | DependencyResumed | DependencyOther
    | HitlResponded | HitlRecoveryResponded | HitlOther
    | GitCommit | Other

  datatype Status =
    | EmptyText | Created | Pending | Ready | Running | Blocked
    | Completed | Failed | Cancelled | OtherText(code: nat)

  /** An event envelope; the timeline entry made from it keeps the same fields. */
  datatype Envelope = Envelope(
    id: Id, kind: EventType, project: Id, sequence: Option<nat>,
    taskId: Option<Id>, agentId: Option<Id>, payloadAgentId: Option<Id>, payloadTo: Option<Status>)

  datatype AgentInfo = AgentInfo(id: Id, project: Id, state: Status)
  datatype TaskInfo = TaskInfo(id: Id, status: Status)
  datatype HitlRequest = HitlRequest(id: Id, taskId: Option<Id>, pending: bool)

  datatype Projection = Projection(
    agents: seq<AgentInfo>, tasks: seq<TaskInfo>, hitl: seq<HitlRequest>, events: seq<Envelope>,
    lastSequence: Option<nat>, seen: seq<Id>)

  const MAX_TIMELINE_EVENTS := 120
  const DEDUP_WINDOW := 512

  function Take<T>(s: seq<T>, n: nat): seq<T> {
    if |s| <= n then s else s[..n]
  }

  // ------------------------------------------------------------- sequencing

  /** Largest sequence number in a list. */
  function MaxSequence(events: seq<Envelope>): Option<nat> {
    if events == [] then None
    else Later(MaxSequence(events[..|events| - 1]), events[|events| - 1].sequence)
  }

  function Later(a: Option<nat>, b: Option<nat>): Option<nat> {
    if b.Some? && (a.None? || b.value > a.value) then b else a
  }

  function Ids(events: seq<Envelope>): seq<Id> {
    seq(|events|, i requires 0 <= i < |events| => events[i].id)
  }

  function FromLists(agents: seq<AgentInfo>, tasks: seq<TaskInfo>, hitl: seq<HitlRequest>, events: seq<Envelope>): Projection {
    Projection(agents, tasks, hitl, events, MaxSequence(events), Ids(Take(events, DEDUP_WINDOW)))
  }

  /** `projectionFromLists`, with its loop over the timeline. */
  method ProjectionFromLists(agents: seq<AgentInfo>, tasks: seq<TaskInfo>, hitl: seq<HitlRequest>, events: seq<Envelope>)
      returns (p: Projection)
    ensures p == FromLists(agents, tasks, hitl, events)
  {
    var lastSequence: Option<nat> := None;
    var i := 0;
    while i < |events|
      invariant i <= |events| && lastSequence == MaxSequence(events[..i])
    {
      assert events[..i + 1][..i] == events[..i];
      var s := events[i].sequence;
      if s.Some? && (lastSequence.None? || s.value > lastSequence.value) {
        lastSequence := s;
      }
      i := i + 1;
    }
    assert events[..|events|] == events;
    p := Projection(agents, tasks, hitl, events, lastSequence, Ids(Take(events, DEDUP_WINDOW)));
  }

  datatype Verdict = Apply | Duplicate | Gap

  function SequenceCheck(p: Projection, e: Envelope): Verdict {
    if e.sequence.None? then Apply
    else if e.id in p.seen then Duplicate
    else if p.lastSequence.Some? && e.sequence.value > p.lastSequence.value + 1 then Gap
    else if p.lastSequence.Some? && e.sequence.value <= p.lastSequence.value then Duplicate
    else Apply
  }

  function RecordSeen(p: Projection, e: Envelope): Projection {
    p.(seen := Take([e.id] + p.seen, DEDUP_WINDOW), lastSequence := Later(p.lastSequence, e.sequence))
  }

  /** The list's largest sequence number bounds every entry and is met by one. */
  lemma {:induction false} MaxSequenceIsMax(events: seq<Envelope>)
    ensures forall e | e in events && e.sequence.Some? ::
              MaxSequence(events).Some? && e.sequence.value <= MaxSequence(events).value
    ensures MaxSequence(events).Some? ==> exists e :: e in events && e.sequence == MaxSequence(events)
  {
    if events != [] {
      var init, last := events[..|events| - 1], events[|events| - 1];
      MaxSequenceIsMax(init);
      assert events == init + [last];
      if MaxSequence(events) != last.sequence {
        var e :| e in init && e.sequence == MaxSequence(init);
        assert e in events;
      }
    }
  }

  // ----------------------------------------------------------------- agents

  predicate Present(id: Option<Id>) {
    id.Some? && id.value != 0
  }

  /** `agent_id ?? payload.agent_id`, absent when empty. */
  function AgentOf(e: Envelope): Option<Id> {
    var id := if e.agentId.Some? then e.agentId else e.payloadAgentId;
    if Present(id) then id else None
  }

  /** The state an event sets on an existing agent, if any. */
  function StateSet(e: Envelope): Option<Status> {
    if (e.kind == AgentStatusChanged || e.kind == AgentStarted) && e.payloadTo.Some? && e.payloadTo.value != EmptyText
    then e.payloadTo else None
  }

  function InitialState(e: Envelope): Status {
    if e.payloadTo.Some? then e.payloadTo.value else Created
  }

  function UpdateAgents(agents: seq<AgentInfo>, id: Id, state: Status): seq<AgentInfo> {
    seq(|agents|, i requires 0 <= i < |agents| =>
      if agents[i].id == id then agents[i].(state := state) else agents[i])
  }

  predicate HasAgent(agents: seq<AgentInfo>, id: Id) {
    exists i | 0 <= i < |agents| :: agents[i].id == id
  }

  function ApplyAgentEvent(agents: seq<AgentInfo>, e: Envelope): seq<AgentInfo> {
    var id := AgentOf(e);
    if id.None? then agents
    else if e.kind == AgentCreated then
      if HasAgent(agents, id.value) then agents
      else agents + [AgentInfo(id.value, e.project, InitialState(e))]
    else if StateSet(e).Some? then UpdateAgents(agents, id.value, StateSet(e).value)
    else agents
  }

  // ------------------------------------------------------------------ tasks

  /** `TASK_TERMINAL` and `TASK_TRANSITIONS`. */
  function TaskTarget(kind: EventType): Option<Status> {
    match kind
    case TaskCompleted => Some(Completed)
    case TaskFailed => Some(Failed)
    case TaskTerminallyFailed => Some(Failed)
    case TaskCancelled => Some(Cancelled)
    case TaskScheduled => Some(Running)
    case TaskExecutionStarted => Some(Running)
    case TaskReplanned => Some(Pending)
    case DependencyWaitStarted => Some(Blocked)
    case DependencyResumed => Some(Ready)
    case _ => None
  }

  function StepTask(t: TaskInfo, e: Envelope): TaskInfo {
    if Present(e.taskId) && TaskTarget(e.kind).Some? && t.id == e.taskId.value
       && t.status != TaskTarget(e.kind).value
    then t.(status := TaskTarget(e.kind).value) else t
  }

  function ApplyTaskEvent(tasks: seq<TaskInfo>, e: Envelope): seq<TaskInfo> {
    seq(|tasks|, i requires 0 <= i < |tasks| => StepTask(tasks[i], e))
  }

  function ApplyHitlEvent(hitl: seq<HitlRequest>, e: Envelope): seq<HitlRequest> {
    if e.kind == HitlResponded || e.kind == HitlRecoveryResponded then KeepUnanswered(hitl, e) else hitl
  }

  function KeepUnanswered(hitl: seq<HitlRequest>, e: Envelope): seq<HitlRequest> {
    if hitl == [] then []
    else
      (if !Present(e.taskId) || hitl[0].taskId != e.taskId || !hitl[0].pending then [hitl[0]] else [])
      + KeepUnanswered(hitl[1..], e)
  }

  // -------------------------------------------------------------- the reducer

  predicate IsAgentKind(k: EventType) {
    k.AgentCreated? || k.AgentStatusChanged? || k.AgentStarted? || k.AgentOther?
  }

  predicate IsTaskKind(k: EventType) {
    || k.TaskCreated? || k.TaskScheduled? || k.TaskExecutionStarted? || k.TaskCompleted? || k.TaskFailed?
    || k.TaskTerminallyFailed? || k.TaskCancelled? || k.TaskReplanned? || k.TaskOther?
    || k.DependencyWaitStarted? || k.DependencyResumed? || k.DependencyOther?
  }

  predicate IsHitlKind(k: EventType) {
    k.HitlResponded? || k.HitlRecoveryResponded? || k.HitlOther?
  }

  function ApplyEnvelope(p: Projection, e: Envelope): Projection {
    var next := RecordSeen(p, e);
    var projected :=
      if IsAgentKind(e.kind) then next.(agents := ApplyAgentEvent(next.agents, e))
      else if IsTaskKind(e.kind) then next.(tasks := ApplyTaskEvent(next.tasks, e))
      else if IsHitlKind(e.kind) then next.(hitl := ApplyHitlEvent(next.hitl, e))
      else next;
    projected.(events := Take([e] + projected.events, MAX_TIMELINE_EVENTS))
  }

  /** An applied event comes first on the timeline, before what was shown, of which at most 119 stay. */
  lemma NewestFirst(p: Projection, e: Envelope)
    ensures var shown := ApplyEnvelope(p, e).events;
            && |shown| == (if |p.events| < 120 then |p.events| + 1 else 120) && shown[0] == e
            && forall i | 0 < i < |shown| :: shown[i] == p.events[i - 1]
  {
  }

  lemma {:induction false} KeepAppend(hitl: seq<HitlRequest>, more: seq<HitlRequest>, e: Envelope)
    ensures KeepUnanswered(hitl + more, e) == KeepUnanswered(hitl, e) + KeepUnanswered(more, e)
  {
    if hitl == [] {
      assert hitl + more == more;
    } else {
      assert (hitl + more)[0] == hitl[0] && (hitl + more)[1..] == hitl[1..] + more;
      KeepAppend(hitl[1..], more, e);
    }
  }

  lemma HitlAfter(p: Projection, e: Envelope)
    ensures ApplyEnvelope(p, e).hitl == ApplyHitlEvent(p.hitl, e)
  {
  }

  /** An event goes through the requests one by one, in order, and drops exactly those that were pending
      for the task it answers; any other event leaves them alone. */
  lemma AnswerRemoves(p: Projection, hitl: seq<HitlRequest>, more: seq<HitlRequest>, h: HitlRequest, e: Envelope)
    ensures ApplyEnvelope(p.(hitl := []), e).hitl == []
    ensures ApplyEnvelope(p.(hitl := [h]), e).hitl
            == if (e.kind == HitlResponded || e.kind == HitlRecoveryResponded) && Present(e.taskId)
                  && h.taskId == e.taskId && h.pending
               then [] else [h]
    ensures ApplyEnvelope(p.(hitl := hitl + more), e).hitl
            == ApplyEnvelope(p.(hitl := hitl), e).hitl + ApplyEnvelope(p.(hitl := more), e).hitl
  {
    hide ApplyEnvelope;
    HitlAfter(p.(hitl := []), e);
    HitlAfter(p.(hitl := [h]), e);
    HitlAfter(p.(hitl := hitl), e);
    HitlAfter(p.(hitl := more), e);
    HitlAfter(p.(hitl := hitl + more), e);
    KeepAppend(hitl, more, e);
    assert [h][1..] == [];
  }

  /** An event applied once is a duplicate from then on, and an unsequenced one is always applied and
      never moves the cursor. */
  lemma AppliedOnce(p: Projection, e: Envelope)
    ensures e.sequence.Some? ==> SequenceCheck(ApplyEnvelope(p, e), e) == Duplicate
    ensures e.sequence.None? ==> SequenceCheck(p, e) == Apply && ApplyEnvelope(p, e).lastSequence == p.lastSequence
    ensures e.sequence.Some? && p.lastSequence.None? ==> SequenceCheck(p, e) == if e.id in p.seen then Duplicate else Apply
  {
    assert ApplyEnvelope(p, e).seen[0] == e.id;
  }

  /** Which agent an event is about: the envelope's agent if it names one at all, else the payload's;
      an empty name is nobody. What it says of its state: a change or a start sets the state it
      names, if that is not empty; a creation starts from the state it names, or from `created`. */
  lemma EventReads(e: Envelope)
    ensures e.agentId.Some? ==> AgentOf(e) == if e.agentId.value == 0 then None else e.agentId
    ensures e.agentId.None? && e.payloadAgentId.Some? ==> AgentOf(e) == if e.payloadAgentId.value == 0 then None else e.payloadAgentId
    ensures e.agentId.None? && e.payloadAgentId.None? ==> AgentOf(e) == None
    ensures StateSet(e).Some? ==> StateSet(e) == e.payloadTo
    ensures StateSet(e).Some? <==> e.kind in {AgentStatusChanged, AgentStarted} && e.payloadTo != None && e.payloadTo != Some(EmptyText)
    ensures (forall s :: e.payloadTo == Some(s) ==> InitialState(e) == s) && (e.payloadTo == None ==> InitialState(e) == Created)
  {
  }

  /** What each event makes of the task it names: nothing when it names none. */
  lemma TaskTargets(e: Envelope, id: Id)
    ensures TargetsTask(e, id) <==> e.taskId == Some(id) && id != 0 && TaskTarget(e.kind).Some?
    ensures TaskTarget(e.kind) == Some(Completed) <==> e.kind == TaskCompleted
    ensures TaskTarget(e.kind) == Some(Failed) <==> e.kind in {TaskFailed, TaskTerminallyFailed}
    ensures TaskTarget(e.kind) == Some(Cancelled) <==> e.kind == TaskCancelled
    ensures TaskTarget(e.kind) == Some(Running) <==> e.kind in {TaskScheduled, TaskExecutionStarted}
    ensures TaskTarget(e.kind) == Some(Pending) <==> e.kind == TaskReplanned
    ensures TaskTarget(e.kind) == Some(Blocked) <==> e.kind == DependencyWaitStarted
    ensures TaskTarget(e.kind) == Some(Ready) <==> e.kind == DependencyResumed
  {
  }

  /** A new agent comes last in the list, with its project and first state; one already listed and
      every other entry stays where it is, and no list entry changes its id or project. */
  lemma AgentListGrows(agents: seq<AgentInfo>, e: Envelope)
    ensures var after, id := ApplyAgentEvent(agents, e), AgentOf(e);
            var joins := e.kind == AgentCreated && id.Some? && !HasAgent(agents, id.value);
            && |after| == |agents| + (if joins then 1 else 0)
            && (joins ==> after[|agents|] == AgentInfo(id.value, e.project, InitialState(e)))
            && forall i | 0 <= i < |agents| :: after[i].id == agents[i].id && after[i].project == agents[i].project
  {
  }

  /** The agent and task lists after a run of events. */
  function AgentsAfter(agents: seq<AgentInfo>, log: seq<Envelope>): seq<AgentInfo> {
    if log == [] then agents
    else
      var before, e := AgentsAfter(agents, log[..|log| - 1]), log[|log| - 1];
      if IsAgentKind(e.kind) then ApplyAgentEvent(before, e) else before
  }

  function TasksAfter(tasks: seq<TaskInfo>, log: seq<Envelope>): seq<TaskInfo> {
    if log == [] then tasks
    else
      var before, e := TasksAfter(tasks, log[..|log| - 1]), log[|log| - 1];
      if IsTaskKind(e.kind) then ApplyTaskEvent(before, e) else before
  }

  // ------------------------------------------------- what the log says of one task

  function FoldTask(status: Status, id: Id, log: seq<Envelope>): Status {
    if log == [] then status
    else
      var e := log[|log| - 1];
      if TargetsTask(e, id) then TaskTarget(e.kind).value else FoldTask(status, id, log[..|log| - 1])
  }

  predicate TargetsTask(e: Envelope, id: Id) {
    Present(e.taskId) && e.taskId.value == id && TaskTarget(e.kind).Some?
  }

  /** The status the whole log gives a task, from `pending`. */
  function TaskTruth(log: seq<Envelope>, id: Id): Status {
    FoldTask(Pending, id, log)
  }

  /** Each row of the list follows its own fold. */
  lemma {:induction false} TasksFollowFold(tasks: seq<TaskInfo>, log: seq<Envelope>)
    ensures |TasksAfter(tasks, log)| == |tasks|
    ensures forall i | 0 <= i < |tasks| ::
              TasksAfter(tasks, log)[i] == TaskInfo(tasks[i].id, FoldTask(tasks[i].status, tasks[i].id, log))
  {
    if log != [] {
      TasksFollowFold(tasks, log[..|log| - 1]);
    }
  }

  lemma {:induction false} FoldTaskAppend(status: Status, id: Id, a: seq<Envelope>, b: seq<Envelope>)
    ensures FoldTask(status, id, a + b) == FoldTask(FoldTask(status, id, a), id, b)
  {
    if b == [] {
      assert a + b == a;
    } else {
      assert (a + b)[..|a + b| - 1] == a + b[..|b| - 1];
      FoldTaskAppend(status, id, a, b[..|b| - 1]);
    }
  }

  /** Replaying events already accounted for changes nothing: the last writer wins. */
  lemma TaskReplayIdempotent(s: Status, id: Id, w: seq<Envelope>)
    ensures FoldTask(FoldTask(s, id, w), id, w) == FoldTask(s, id, w)
  {
  }

  /** Some event of the log sets the task's status. */
  predicate TouchedTask(id: Id, log: seq<Envelope>) {
    exists i :: 0 <= i < |log| && TargetsTask(log[i], id)
  }

  /** Two folds over the same events meet exactly when they start alike or an event sets the task. */
  lemma {:induction false} FoldsMeet(s: Status, t: Status, id: Id, w: seq<Envelope>)
    ensures FoldTask(s, id, w) == FoldTask(t, id, w) <==> TouchedTask(id, w) || s == t
    ensures !TouchedTask(id, w) ==> FoldTask(s, id, w) == s
  {
    if w != [] {
      var n := |w| - 1;
      FoldsMeet(s, t, id, w[..n]);
      if TouchedTask(id, w) && !TargetsTask(w[n], id) {
        var i :| 0 <= i < |w| && TargetsTask(w[i], id);
        assert w[..n][i] == w[i];
      }
      if TouchedTask(id, w[..n]) {
        var i :| 0 <= i < n && TargetsTask(w[..n][i], id);
        assert w[i] == w[..n][i];
      }
    }
  }

  /** A row that reflects log prefix `m`, replayed from a cursor `c <= m` to any
      `n >= m`, ends where the log up to `n` ends. */
  lemma TaskConvergence(log: seq<Envelope>, id: Id, c: nat, m: nat, n: nat)
    requires c <= m <= n <= |log|
    ensures FoldTask(TaskTruth(log[..m], id), id, log[c..n]) == TaskTruth(log[..n], id)
  {
    var w, rest := log[c..m], log[m..n];
    assert log[c..n] == w + rest && log[..n] == log[..m] + rest && log[..m] == log[..c] + w;
    FoldTaskAppend(Pending, id, log[..c], w);
    FoldTaskAppend(Pending, id, log[..m], rest);
    FoldTaskAppend(TaskTruth(log[..m], id), id, w, rest);
    TaskReplayIdempotent(TaskTruth(log[..c], id), id, w);
  }

  // ------------------------------------------------ what the log says of one agent

  /** State of the first listed agent with this id. */
  function AgentState(agents: seq<AgentInfo>, id: Id): Option<Status> {
    if agents == [] then None
    else if agents[0].id == id then Some(agents[0].state)
    else AgentState(agents[1..], id)
  }

  predicate Creates(e: Envelope, id: Id) {
    e.kind == AgentCreated && AgentOf(e) == Some(id)
  }

  predicate Sets(e: Envelope, id: Id) {
    AgentOf(e) == Some(id) && StateSet(e).Some?
  }

  function StepAgent(s: Option<Status>, id: Id, e: Envelope): Option<Status> {
    if Creates(e, id) && s.None? then Some(InitialState(e))
    else if Sets(e, id) && s.Some? then StateSet(e)
    else s
  }

  function FoldAgent(s: Option<Status>, id: Id, log: seq<Envelope>): Option<Status> {
    if log == [] then s
    else StepAgent(FoldAgent(s, id, log[..|log| - 1]), id, log[|log| - 1])
  }

  /** The state the whole log gives an agent, from its absence. */
  function AgentTruth(log: seq<Envelope>, id: Id): Option<Status> {
    FoldAgent(None, id, log)
  }

  lemma {:induction false} AgentStateUpdate(agents: seq<AgentInfo>, id: Id, state: Status, who: Id)
    ensures AgentState(UpdateAgents(agents, id, state), who) ==
              if who == id && AgentState(agents, who).Some? then Some(state) else AgentState(agents, who)
  {
    if agents != [] {
      assert UpdateAgents(agents, id, state)[1..] == UpdateAgents(agents[1..], id, state);
      AgentStateUpdate(agents[1..], id, state, who);
    }
  }

  lemma {:induction false} AgentStateAppend(agents: seq<AgentInfo>, a: AgentInfo, who: Id)
    ensures AgentState(agents + [a], who) ==
              if AgentState(agents, who).Some? then AgentState(agents, who)
              else if a.id == who then Some(a.state) else None
    ensures AgentState(agents, who).Some? <==> HasAgent(agents, who)
  {
    if agents != [] {
      assert (agents + [a])[1..] == agents[1..] + [a];
      AgentStateAppend(agents[1..], a, who);
      if HasAgent(agents, who) && agents[0].id != who {
        var i :| 0 <= i < |agents| && agents[i].id == who;
        assert agents[1..][i - 1].id == who;
      }
    }
  }

  lemma AgentStep(agents: seq<AgentInfo>, e: Envelope, who: Id)
    ensures AgentState(if IsAgentKind(e.kind) then ApplyAgentEvent(agents, e) else agents, who)
            == StepAgent(AgentState(agents, who), who, e)
  {
    var id := AgentOf(e);
    if id.Some? {
      AgentStateAppend(agents, AgentInfo(id.value, e.project, InitialState(e)), who);
      if StateSet(e).Some? {
        AgentStateUpdate(agents, id.value, StateSet(e).value, who);
      }
    }
  }

  /** The list's entry for an agent follows its own fold. */
  lemma {:induction false} AgentsFollowFold(agents: seq<AgentInfo>, log: seq<Envelope>, who: Id)
    ensures AgentState(AgentsAfter(agents, log), who) == FoldAgent(AgentState(agents, who), who, log)
  {
    if log != [] {
      AgentsFollowFold(agents, log[..|log| - 1], who);
      AgentStep(AgentsAfter(agents, log[..|log| - 1]), log[|log| - 1], who);
    }
  }

  lemma {:induction false} FoldAgentAppend(s: Option<Status>, id: Id, a: seq<Envelope>, b: seq<Envelope>)
    ensures FoldAgent(s, id, a + b) == FoldAgent(FoldAgent(s, id, a), id, b)
  {
    if b == [] {
      assert a + b == a;
    } else {
      assert (a + b)[..|a + b| - 1] == a + b[..|b| - 1];
      FoldAgentAppend(s, id, a, b[..|b| - 1]);
    }
  }

  /** Status of the last event that sets the agent's state. */
  function LastSet(id: Id, log: seq<Envelope>): Option<Status> {
    if log == [] then None
    else if Sets(log[|log| - 1], id) then StateSet(log[|log| - 1])
    else LastSet(id, log[..|log| - 1])
  }

  /** A present agent ends with the last state set, creations being ignored. */
  lemma {:induction false} PresentAgentFold(s: Status, id: Id, w: seq<Envelope>)
    ensures FoldAgent(Some(s), id, w) == if LastSet(id, w).Some? then LastSet(id, w) else Some(s)
  {
    if w != [] {
      PresentAgentFold(s, id, w[..|w| - 1]);
    }
  }

  ghost predicate NeverCreated(id: Id, w: seq<Envelope>) {
    forall i | 0 <= i < |w| :: !Creates(w[i], id)
  }

  lemma {:induction false} AbsentAgentFold(id: Id, w: seq<Envelope>)
    requires NeverCreated(id, w)
    ensures FoldAgent(None, id, w) == None
  {
    if w != [] {
      AbsentAgentFold(id, w[..|w| - 1]);
    }
  }

  lemma {:induction false} LastSetAppend(id: Id, a: seq<Envelope>, b: seq<Envelope>)
    ensures LastSet(id, a + b) == if LastSet(id, b).Some? then LastSet(id, b) else LastSet(id, a)
  {
    if b == [] {
      assert a + b == a;
    } else {
      assert (a + b)[..|a + b| - 1] == a + b[..|b| - 1];
      LastSetAppend(id, a, b[..|b| - 1]);
    }
  }

  /** `k` is where the agent is first created. */
  ghost predicate FirstCreation(log: seq<Envelope>, id: Id, k: nat) {
    k < |log| && Creates(log[k], id) && NeverCreated(id, log[..k])
  }

  /** No state set before the agent's creation differs, at last, from its initial state. */
  ghost predicate CreationAgrees(log: seq<Envelope>, id: Id) {
    forall k: nat | FirstCreation(log, id, k) ::
      LastSet(id, log[..k]).Some? ==> LastSet(id, log[..k]).value == InitialState(log[k])
  }

  /** Where events without a creation leave a present agent. */
  function Before(present: Status, id: Id, w: seq<Envelope>): Status {
    if LastSet(id, w).Some? then LastSet(id, w).value else present
  }

  /** The agent joins the list within these events and is then where one present all along, from
      this state, is: a state is set later, or the last one before is its initial state. */
  ghost predicate JoinsInStep(present: Status, id: Id, w: seq<Envelope>) {
    exists k: nat :: FirstCreation(w, id, k)
      && (LastSet(id, w[k + 1..]).Some? || Before(present, id, w[..k]) == InitialState(w[k]))
  }

  ghost predicate AgentFoldsAgree(s: Option<Status>, t: Option<Status>, id: Id, w: seq<Envelope>) {
    match (s, t)
    case (Some(a), Some(b)) => a == b || LastSet(id, w).Some?
    case (Some(a), None) => JoinsInStep(a, id, w)
    case (None, Some(b)) => JoinsInStep(b, id, w)
    case (None, None) => true
  }

  lemma FirstCreationIsOne(w: seq<Envelope>, id: Id, j: nat, k: nat)
    requires FirstCreation(w, id, j) && FirstCreation(w, id, k)
    ensures j == k
  {
  }

  lemma AbsentMeetsPresent(a: Status, id: Id, w: seq<Envelope>)
    ensures FoldAgent(None, id, w) == FoldAgent(Some(a), id, w) <==> JoinsInStep(a, id, w)
  {
    hide FoldAgent, LastSet;
    PresentAgentFold(a, id, w);
    if NeverCreated(id, w) {
      AbsentAgentFold(id, w);
    } else {
      var k := FindCreation(w, id);
      AgentTruthFromCreation(w, id, k, |w|);
      PresentAgentFold(InitialState(w[k]), id, w[k + 1..]);
      LastSetAround(id, w, k);
      assert w[..|w|] == w;
      forall j: nat | FirstCreation(w, id, j) ensures j == k {
        FirstCreationIsOne(w, id, j, k);
      }
    }
  }

  /** A creation sets no state. */
  lemma LastSetAround(id: Id, w: seq<Envelope>, k: nat)
    requires k < |w| && Creates(w[k], id)
    ensures LastSet(id, w) == if LastSet(id, w[k + 1..]).Some? then LastSet(id, w[k + 1..]) else LastSet(id, w[..k])
  {
    assert w == w[..k] + [w[k]] + w[k + 1..] && (w[..k] + [w[k]])[..k] == w[..k];
    LastSetAppend(id, w[..k] + [w[k]], w[k + 1..]);
  }

  /** When two folds over the same events meet, wherever each of them starts. */
  lemma AgentFoldsMeet(s: Option<Status>, t: Option<Status>, id: Id, w: seq<Envelope>)
    ensures FoldAgent(s, id, w) == FoldAgent(t, id, w) <==> AgentFoldsAgree(s, t, id, w)
  {
    match (s, t)
    case (Some(a), Some(b)) =>
      PresentAgentFold(a, id, w);
      PresentAgentFold(b, id, w);
    case (Some(a), None) => AbsentMeetsPresent(a, id, w);
    case (None, Some(b)) => AbsentMeetsPresent(b, id, w);
    case (None, None) =>
  }

  ghost predicate AgentConverges(log: seq<Envelope>, id: Id, c: nat, m: nat, n: nat)
    requires c <= m <= n <= |log|
  {
    FoldAgent(AgentTruth(log[..m], id), id, log[c..n]) == AgentTruth(log[..n], id)
  }

  lemma {:induction false} FindCreation(w: seq<Envelope>, id: Id) returns (k: nat)
    requires !NeverCreated(id, w)
    ensures FirstCreation(w, id, k)
  {
    k := 0;
    while !Creates(w[k], id)
      invariant k < |w| && NeverCreated(id, w[..k])
      invariant exists i | k <= i < |w| :: Creates(w[i], id)
      decreases |w| - k
    {
      k := k + 1;
    }
  }

  /** The log up to `m`, cut at the creation. */
  lemma AgentTruthFromCreation(log: seq<Envelope>, id: Id, k: nat, m: nat)
    requires FirstCreation(log, id, k) && k < m <= |log|
    ensures AgentTruth(log[..m], id) == FoldAgent(Some(InitialState(log[k])), id, log[k + 1..m])
  {
    assert log[..m] == log[..k] + [log[k]] + log[k + 1..m];
    AbsentAgentFold(id, log[..k]);
    assert (log[..k] + [log[k]])[..k] == log[..k];
    FoldAgentAppend(None, id, log[..k] + [log[k]], log[k + 1..m]);
  }

  lemma ReplayAfterCreation(log: seq<Envelope>, id: Id, k: nat, c: nat, m: nat)
    requires FirstCreation(log, id, k) && k < c <= m <= |log|
    ensures FoldAgent(AgentTruth(log[..m], id), id, log[c..m]) == AgentTruth(log[..m], id)
  {
    var w := log[c..m];
    AgentTruthFromCreation(log, id, k, c);
    PresentAgentFold(InitialState(log[k]), id, log[k + 1..c]);
    var s := AgentTruth(log[..c], id).value;
    assert log[..m] == log[..c] + w;
    FoldAgentAppend(None, id, log[..c], w);
    PresentAgentFold(s, id, w);
    PresentAgentFold(AgentTruth(log[..m], id).value, id, w);
  }

  lemma ReplayAcrossCreation(log: seq<Envelope>, id: Id, k: nat, c: nat, m: nat)
    requires FirstCreation(log, id, k) && c <= k < m <= |log| && CreationAgrees(log, id)
    ensures FoldAgent(AgentTruth(log[..m], id), id, log[c..m]) == AgentTruth(log[..m], id)
  {
    var w, early, late := log[c..m], log[c..k], log[k + 1..m];
    AgentTruthFromCreation(log, id, k, m);
    PresentAgentFold(InitialState(log[k]), id, late);
    PresentAgentFold(AgentTruth(log[..m], id).value, id, w);
    assert w == early + [log[k]] + late;
    LastSetAppend(id, early + [log[k]], late);
    assert (early + [log[k]])[..|early|] == early;
    assert log[..k] == log[..c] + early;
    LastSetAppend(id, log[..c], early);
  }

  /** Replaying what an agreeing log already said changes nothing. */
  lemma AgentReplayIdempotent(log: seq<Envelope>, id: Id, c: nat, m: nat)
    requires c <= m <= |log| && CreationAgrees(log, id)
    ensures FoldAgent(AgentTruth(log[..m], id), id, log[c..m]) == AgentTruth(log[..m], id)
  {
    if NeverCreated(id, log[..m]) {
      AbsentAgentFold(id, log[..m]);
      assert log[c..m] == log[..m][c..];
      AbsentAgentFold(id, log[c..m]);
    } else {
      var k := FindCreation(log[..m], id);
      assert log[..m][..k] == log[..k];
      if k < c {
        ReplayAfterCreation(log, id, k, c, m);
      } else {
        ReplayAcrossCreation(log, id, k, c, m);
      }
    }
  }

  /** The agent replay converges for every cursor, snapshot and end of the log
      exactly when the log agrees with itself at the agent's creation. */
  lemma AgentConvergence(log: seq<Envelope>, id: Id)
    ensures CreationAgrees(log, id) <==>
              forall c: nat, m: nat, n: nat | c <= m <= n <= |log| :: AgentConverges(log, id, c, m, n)
  {
    if CreationAgrees(log, id) {
      forall c: nat, m: nat, n: nat | c <= m <= n <= |log| ensures AgentConverges(log, id, c, m, n) {
        AgentConvergesHere(log, id, c, m, n);
      }
    } else {
      var k: nat :| FirstCreation(log, id, k) && LastSet(id, log[..k]).Some?
               && LastSet(id, log[..k]).value != InitialState(log[k]);
      AgentDiverges(log, id, k);
      assert !AgentConverges(log, id, 0, k + 1, k + 1);
    }
  }

  lemma AgentConvergesHere(log: seq<Envelope>, id: Id, c: nat, m: nat, n: nat)
    requires c <= m <= n <= |log| && CreationAgrees(log, id)
    ensures AgentConverges(log, id, c, m, n)
  {
    assert log[c..n] == log[c..m] + log[m..n] && log[..n] == log[..m] + log[m..n];
    AgentReplayIdempotent(log, id, c, m);
    FoldAgentAppend(AgentTruth(log[..m], id), id, log[c..m], log[m..n]);
    FoldAgentAppend(None, id, log[..m], log[m..n]);
  }

  lemma AgentDiverges(log: seq<Envelope>, id: Id, k: nat)
    requires FirstCreation(log, id, k)
    requires LastSet(id, log[..k]).Some? && LastSet(id, log[..k]).value != InitialState(log[k])
    ensures !AgentConverges(log, id, 0, k + 1, k + 1)
  {
    AgentTruthFromCreation(log, id, k, k + 1);
    var w := log[0..k + 1];
    assert log[k + 1..k + 1] == [] && w == log[..k] + [log[k]] && w[..k] == log[..k];
    PresentAgentFold(InitialState(log[k]), id, w);
  }

  /** A log that lists an agent's change before its creation: read from the whole log and replayed
      from its start, the agent is `running`, and the log itself leaves it `created`. */
  lemma ChangeBeforeCreation(change: Envelope, creation: Envelope, id: Id)
    requires Sets(change, id) && StateSet(change) == Some(Running)
    requires Creates(creation, id) && creation.payloadTo.None?
    ensures var log := [change, creation];
            AgentTruth(log, id) == Some(Created) && !AgentConverges(log, id, 0, 2, 2)
  {
    var log := [change, creation];
    assert log[..1] == [change] && log[..2] == log && !Creates(change, id);
    assert FirstCreation(log, id, 1);
    assert LastSet(id, [change]) == Some(Running);
    AgentDiverges(log, id, 1);
    AgentTruthFromCreation(log, id, 1, 2);
    assert log[2..2] == [];
  }
}
