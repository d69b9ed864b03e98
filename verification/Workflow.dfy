/** The durable task workflow (services/api/app/durable/workflows.py) over the rows its
    activities write. Signals, outside status changes, activity results, lost
    acknowledgements and activity failures are all chosen freely. */
module Workflow {
  import opened Wrappers
  import opened Lifecycle
  import opened Recovery
  import opened TaskRows

  type Policy = (FailureClass, nat, nat) -> Decision

  /** One attempt that ran to its end, and whether a pause was asked for at its first and at its
      second checkpoint. */
  datatype Try = Try(attempt: nat, agent: nat, outcome: Outcome, failure: FailureClass, paused: bool, pausedAgain: bool)

  datatype Entry = Entry(attempt: nat, attemptId: nat, failure: FailureClass, action: Action)

  datatype Exit = Succeeded | TerminalRecorded | GateRejected | WaitTimedOut

  datatype Summary = Summary(attempts: nat, success: bool, history: seq<Entry>)

  /** What a recovery step was told: whether the budget was enough, what the budget's and the
      operator's gates answered, and whether dependencies were unfinished and the wait for them met. */
  datatype Answers = Answers(
    withinBudget: Option<bool>, budgetGate: Option<bool>, operatorGate: Option<bool>, unfinished: Option<bool>,
    waitMet: Option<bool>)

  const UNASKED := Answers(None, None, None, None, None)

  datatype EventKind =
    | RecoverySelected | RetryStarted | ModelSwitched | ContextCompacted | AgentReplaced
    | DependencyWaitStarted | DependencyResumed | TaskCompleted | TaskFailed

  /** What the workflow asks for: activities on the rows kept here and others by name. `Backoff` is
      its durable timer and `Wake` the signal to dependent tasks. */
  datatype Activity =
    | On(c: Command) | SetTaskStatus(s: TaskStatus) | RecordEvent(e: EventKind) | LoadTask | Snapshot | ExecuteAgent
    | DependencyStatus | RecoveryBudget | HitlGate | Replan | Rollback | SpawnChild(integration: bool)
    | Dependents | Wake | Backoff

  datatype Verdict = Continues | Ends(exit: Exit) | Raises

  const DELIVERIES: nat := 3

  function MaxAttempts(n: int): (m: nat)
    ensures 1 <= m <= 10 && (1 <= n <= 10 ==> m == n) && (n < 1 ==> m == 1) && (n > 10 ==> m == 10)
  {
    if n < 1 then 1 else if n > 10 then 10 else n
  }

  ghost predicate Extends(before: Rows, after: Rows) {
    before.attempts <= after.attempts && before.agents <= after.agents && before.terminal <= after.terminal
  }

  /** The rows tell this attempt's story. */
  ghost predicate Told(r: Rows, t: Try, predecessor: Option<nat>) {
    && t.attempt < |r.attempts| && t.agent < |r.agents|
    && r.attempts[t.attempt].agent == Some(t.agent)
    && r.attempts[t.attempt].outcome == Some(t.outcome)
    && r.agents[t.agent].predecessor == predecessor
    && r.agents[t.agent].history == AttemptStates(t)
    && Last(r.agents[t.agent].history) == (if t.outcome == Success then AgentState.Completed else AgentState.Failed)
  }

  /** How often an activity is delivered at most: the agent's execution and the operator's gate are
      never retried. */
  function Deliveries(act: Activity): nat {
    if act == ExecuteAgent || act == HitlGate then 1 else DELIVERIES
  }

  // ------------------------------------------------------------ what is asked for, in order

  function Move(a: nat, s: AgentState): Activity {
    On(Command.SetAgentState(a, s))
  }

  function PauseStates(paused: bool): seq<AgentState> {
    if paused then [PauseRequested, Paused, Resuming, AgentState.Running] else []
  }

  function PauseSteps(a: nat, paused: bool): seq<Activity> {
    if paused then [Move(a, PauseRequested), Move(a, Paused), Move(a, Resuming), Move(a, AgentState.Running)] else []
  }

  function EndState(o: Outcome): AgentState {
    if o == Success then AgentState.Completed else AgentState.Failed
  }

  /** The states of an attempt's agent. */
  function AttemptStates(t: Try): seq<AgentState> {
    [Created, AgentState.Running] + PauseStates(t.paused) + PauseStates(t.pausedAgain) + [Verifying, EndState(t.outcome)]
  }

  function WorkSteps(a: nat, paused: bool, again: bool): seq<Activity> {
    PauseSteps(a, paused) + [Snapshot, ExecuteAgent] + PauseSteps(a, again) + [Move(a, Verifying)]
  }

  function OpenSteps(attempt: nat, agent: nat, predecessor: Option<nat>): seq<Activity> {
    [On(StartAttempt), On(StartAgent(attempt, predecessor)), Move(agent, AgentState.Running)]
  }

  function CloseSteps(attempt: nat, agent: nat, o: Outcome): seq<Activity> {
    [On(FinishAttempt(attempt, o)), Move(agent, EndState(o))]
  }

  /** All that one attempt asks for. */
  function AttemptSteps(t: Try, predecessor: Option<nat>): seq<Activity> {
    OpenSteps(t.attempt, t.agent, predecessor) + WorkSteps(t.agent, t.paused, t.pausedAgain)
    + CloseSteps(t.attempt, t.agent, t.outcome)
  }

  function RecordFailure(attempt: nat): Activity {
    On(RecordTerminal(Terminal(attempt)))
  }

  function WaitSteps(unfinished: bool, met: bool): seq<Activity> {
    [DependencyStatus, RecordEvent(DependencyWaitStarted)]
    + if !unfinished then [RecordEvent(DependencyResumed)]
      else [SetTaskStatus(TaskStatus.Blocked)]
           + if met then [RecordEvent(DependencyResumed), SetTaskStatus(TaskStatus.Running)] else []
  }

  /** What an action asks for once the budget lets it. */
  function ActionSteps(d: Decision, a: Answers, attempt: nat, agent: nat): seq<Activity> {
    match d.action
    case SpawnDebugger => [SpawnChild(false), RecordFailure(attempt)]
    case CreateIntegrationTask => [Rollback, SpawnChild(true), RecordFailure(attempt)]
    case WaitForDependency => WaitSteps(a.unfinished == Some(true), a.waitMet == Some(true))
    case RequestHitl => [HitlGate] + if No(a.operatorGate) then [RecordFailure(attempt)] else []
    case ReplaceAgent => [On(EndSession(agent)), RecordEvent(AgentReplaced)]
    case RetryAlternateModel => [RecordEvent(ModelSwitched)]
    case EscalateModel => [RecordEvent(ModelSwitched)]
    case RebuildContext => [RecordEvent(ContextCompacted)]
    case _ => []
  }

  function RetrySteps(d: Decision): seq<Activity> {
    if d.retryable && StartsRetry(d.action) then [RecordEvent(RetryStarted), Backoff] else []
  }

  /** All that a recovery step asks for, after the answers it was given. */
  function RecoverSteps(d: Decision, a: Answers, attempt: nat, agent: nat): seq<Activity> {
    [RecordEvent(RecoverySelected)]
    + if d.action == Stop then [RecordFailure(attempt)]
      else if d.action == EscalateOrReplan then [Replan, RecordFailure(attempt)]
      else [RecoveryBudget] + (if a.budgetGate.Some? then [HitlGate] else [])
           + if BudgetRejects(d, a) then [] else ActionSteps(d, a, attempt, agent) + RetrySteps(d)
  }

  /** Each question was put exactly when it had to be. */
  ghost predicate AskedRight(d: Decision, a: Answers) {
    && (a.withinBudget.Some? <==> d.action != Stop && d.action != EscalateOrReplan)
    && (a.budgetGate.Some? <==> d.budgetSensitive && No(a.withinBudget))
    && (a.operatorGate.Some? <==> d.action == RequestHitl && !BudgetRejects(d, a))
    && (a.waitMet.Some? <==> d.action == WaitForDependency && !BudgetRejects(d, a))
    && (a.unfinished.Some? <==> a.waitMet.Some?) && (No(a.waitMet) ==> a.unfinished == Some(true))
  }

  function EnterSteps(loaded: TaskStatus): seq<Activity> {
    (if loaded == Pending then [SetTaskStatus(Ready)] else []) + [SetTaskStatus(TaskStatus.Running)]
  }

  function ConcludeSteps(success: bool): seq<Activity> {
    if success then [SetTaskStatus(TaskStatus.Completed), RecordEvent(TaskCompleted), Dependents, Wake]
    else [SetTaskStatus(TaskStatus.Failed), RecordEvent(TaskFailed)]
  }

  /** All that the first `n` attempts and their recovery steps ask for. */
  function RunSteps(policy: Policy, max: nat, tries: seq<Try>, notes: seq<Answers>, n: nat): seq<Activity>
    requires n <= |tries| && n <= |notes|
  {
    if n == 0 then []
    else
      var t := tries[n - 1];
      RunSteps(policy, max, tries, notes, n - 1) + AttemptSteps(t, Predecessor(tries, n - 1))
      + if t.outcome == Success then [] else RecoverSteps(policy(t.failure, n, max), notes[n - 1], t.attempt, t.agent)
  }

  ghost predicate NotesRight(policy: Policy, max: nat, tries: seq<Try>, notes: seq<Answers>) {
    && |notes| == |tries|
    && forall i: nat | i < |tries| && tries[i].outcome != Success :: AskedRight(policy(tries[i].failure, i + 1, max), notes[i])
  }

  lemma {:induction false} RunStepsPrefix(policy: Policy, max: nat, tries: seq<Try>, notes: seq<Answers>, t: Try, note: Answers, n: nat)
    requires n <= |tries| && n <= |notes|
    ensures RunSteps(policy, max, tries + [t], notes + [note], n) == RunSteps(policy, max, tries, notes, n)
  {
    hide AttemptSteps, RecoverSteps;
    if n > 0 {
      RunStepsPrefix(policy, max, tries, notes, t, note, n - 1);
      assert Predecessor(tries + [t], n - 1) == Predecessor(tries, n - 1);
    }
  }

  /** One more attempt, and unless it succeeded its recovery step. */
  lemma RunStepsGrow(policy: Policy, max: nat, tries: seq<Try>, notes: seq<Answers>, t: Try, note: Answers,
                     start: seq<Activity>, acts: seq<Activity>)
    requires |notes| == |tries|
    requires acts == start + RunSteps(policy, max, tries, notes, |tries|) + AttemptSteps(t, Predecessor(tries, |tries|))
                     + if t.outcome == Success then [] else RecoverSteps(policy(t.failure, |tries| + 1, max), note, t.attempt, t.agent)
    ensures acts == start + RunSteps(policy, max, tries + [t], notes + [note], |tries| + 1)
  {
    hide AttemptSteps, RecoverSteps;
    RunStepsPrefix(policy, max, tries, notes, t, note, |tries|);
    assert Predecessor(tries + [t], |tries|) == Predecessor(tries, |tries|);
    var run, attempt := RunSteps(policy, max, tries, notes, |tries|), AttemptSteps(t, Predecessor(tries, |tries|));
    Regroup(start, run, attempt);
    Regroup(start, run + attempt,
            if t.outcome == Success then [] else RecoverSteps(policy(t.failure, |tries| + 1, max), note, t.attempt, t.agent));
  }

  // ------------------------------------------------------------------------ heeding a pause

  predicate IsMove(act: Activity, s: AgentState) {
    act.On? && act.c.SetAgentState? && act.c.state == s
  }

  /** The steps before which the workflow heeds a pause. */
  predicate WorksNext(act: Activity) {
    act == Snapshot || IsMove(act, Verifying)
  }

  /** The last four of the first `n` steps led an agent through a pause. */
  predicate JustResumed(acts: seq<Activity>, n: nat)
    requires n <= |acts|
  {
    && n >= 4 && IsMove(acts[n - 4], PauseRequested) && IsMove(acts[n - 3], Paused)
    && IsMove(acts[n - 2], Resuming) && IsMove(acts[n - 1], AgentState.Running)
  }

  predicate MayWork(acts: seq<Activity>, paused: bool) {
    !paused || JustResumed(acts, |acts|)
  }

  /** Work goes on when no pause is asked for, or right after one; an agent is told to pause only
      when one is, and to resume only when none is any more. */
  predicate MayAsk(acts: seq<Activity>, n: nat, paused: bool, act: Activity)
    requires n <= |acts|
  {
    && (WorksNext(act) ==> !paused || JustResumed(acts, n))
    && (IsMove(act, PauseRequested) ==> paused) && (IsMove(act, Resuming) ==> !paused)
  }

  /** `flags` tells whether a pause was asked for when each step was taken. */
  ghost predicate Heeded(acts: seq<Activity>, flags: seq<bool>) {
    |flags| == |acts| && forall i: nat | i < |acts| :: MayAsk(acts, i, flags[i], acts[i])
  }

  lemma HeededGrows(acts: seq<Activity>, flags: seq<bool>, act: Activity, paused: bool)
    requires Heeded(acts, flags) && MayAsk(acts, |acts|, paused, act)
    ensures Heeded(acts + [act], flags + [paused])
  {
    var grown, more := acts + [act], flags + [paused];
    forall i: nat | i < |grown| ensures MayAsk(grown, i, more[i], grown[i]) {
      if i < |acts| {
        assert MayAsk(acts, i, flags[i], acts[i]);
      }
    }
  }

  /** A snapshot is taken or a verification begun while a pause is asked for only when the four steps
      just before it led an agent into a pause and out of it again. */
  lemma PauseIsHeeded(acts: seq<Activity>, flags: seq<bool>, i: nat, a: nat)
    requires Heeded(acts, flags) && i < |acts| && flags[i] && (acts[i] == Snapshot || acts[i] == Move(a, Verifying))
    ensures i >= 4
    ensures exists x, y, z, w ::
              acts[i - 4..i] == [Move(x, PauseRequested), Move(y, Paused), Move(z, Resuming), Move(w, AgentState.Running)]
  {
    assert MayAsk(acts, i, flags[i], acts[i]);
    var x, y, z, w := acts[i - 4].c.agent, acts[i - 3].c.agent, acts[i - 2].c.agent, acts[i - 1].c.agent;
    assert acts[i - 4..i] == [Move(x, PauseRequested), Move(y, Paused), Move(z, Resuming), Move(w, AgentState.Running)];
  }

  // ---------------------------------------------------------- what the steps say

  /** An attempt starts itself and its agent first, executes it once, right after a snapshot, and is
      finished with the reported outcome before the agent's last state is written. */
  lemma AttemptStepsFacts(t: Try, predecessor: Option<nat>)
    ensures var acts := AttemptSteps(t, predecessor);
            var n := 3 + if t.paused then 4 else 0;
            && |acts| == 8 + (if t.paused then 4 else 0) + (if t.pausedAgain then 4 else 0)
            && acts[0] == On(StartAttempt) && acts[1] == On(StartAgent(t.attempt, predecessor))
            && acts[n] == Snapshot && acts[n + 1] == ExecuteAgent
            && (forall i | 0 <= i < |acts| && acts[i] == ExecuteAgent :: i == n + 1)
            && acts[|acts| - 3] == Move(t.agent, Verifying) && acts[|acts| - 2] == On(FinishAttempt(t.attempt, t.outcome))
            && acts[|acts| - 1] == Move(t.agent, if t.outcome == Success then AgentState.Completed else AgentState.Failed)
  {
  }

  /** A recovery step announces itself first; asks for the budget before anything that could cost;
      records the failure as terminal, as its last step, exactly when it ends the run that way; and
      announces a retry exactly when it goes on with a retryable action that is one. */
  lemma RecoverStepsFacts(d: Decision, a: Answers, attempt: nat, agent: nat)
    requires AskedRight(d, a)
    ensures var acts := RecoverSteps(d, a, attempt, agent);
            && acts[0] == RecordEvent(RecoverySelected)
            && (d.action != Stop && d.action != EscalateOrReplan <==> |acts| > 1 && acts[1] == RecoveryBudget)
            && (RecordFailure(attempt) in acts <==> Concluded(d, a) == Ends(TerminalRecorded))
            && (RecordFailure(attempt) in acts ==> acts[|acts| - 1] == RecordFailure(attempt))
            && (RecordEvent(RetryStarted) in acts <==> Concluded(d, a).Continues? && d.retryable && StartsRetry(d.action))
            && (RecordEvent(RetryStarted) in acts ==> acts[|acts| - 2..] == [RecordEvent(RetryStarted), Backoff])
  {
    hide ActionSteps;
    RecoverMembers(d, a, attempt, agent, RecordFailure(attempt));
    RecoverMembers(d, a, attempt, agent, RecordEvent(RetryStarted));
    if d.action != Stop && d.action != EscalateOrReplan {
      RecoverTail(d, a, attempt, agent);
      if !BudgetRejects(d, a) {
        ActionFacts(d, a, attempt, agent);
      }
    }
  }

  lemma RecoverTail(d: Decision, a: Answers, attempt: nat, agent: nat)
    requires d.action != Stop && d.action != EscalateOrReplan
    ensures var acts, tail := RecoverSteps(d, a, attempt, agent), ActionSteps(d, a, attempt, agent) + RetrySteps(d);
            var head := [RecordEvent(RecoverySelected), RecoveryBudget] + if a.budgetGate.Some? then [HitlGate] else [];
            acts == head + if BudgetRejects(d, a) then [] else tail
  {
    hide ActionSteps, RetrySteps;
  }

  /** What a recovery step asks for at all. */
  lemma RecoverMembers(d: Decision, a: Answers, attempt: nat, agent: nat, x: Activity)
    ensures x in RecoverSteps(d, a, attempt, agent)
            <==> x == RecordEvent(RecoverySelected)
                 || (x == RecordFailure(attempt) && (d.action == Stop || d.action == EscalateOrReplan))
                 || (x == Replan && d.action == EscalateOrReplan)
                 || (d.action != Stop && d.action != EscalateOrReplan
                     && (x == RecoveryBudget || (x == HitlGate && a.budgetGate.Some?)
                         || (!BudgetRejects(d, a)
                             && (x in ActionSteps(d, a, attempt, agent)
                                 || ((x == RecordEvent(RetryStarted) || x == Backoff) && d.retryable && StartsRetry(d.action))))))
  {
    hide ActionSteps;
  }

  /** The same of the part behind the budget. */
  lemma ActionFacts(d: Decision, a: Answers, attempt: nat, agent: nat)
    requires AskedRight(d, a) && d.action != Stop && d.action != EscalateOrReplan && !BudgetRejects(d, a)
    ensures var acts := ActionSteps(d, a, attempt, agent);
            && (RecordFailure(attempt) in acts <==> Concluded(d, a) == Ends(TerminalRecorded))
            && (RecordFailure(attempt) in acts ==> acts[|acts| - 1] == RecordFailure(attempt) && RetrySteps(d) == [])
            && RecordEvent(RetryStarted) !in acts && RecordEvent(RecoverySelected) !in acts
            && (RetrySteps(d) != [] ==> Concluded(d, a).Continues?)
  {
    hide WaitSteps;
    WaitStepsFacts(a.unfinished == Some(true), a.waitMet == Some(true), attempt);
  }

  lemma WaitStepsFacts(unfinished: bool, met: bool, attempt: nat)
    ensures var acts := WaitSteps(unfinished, met);
            && acts[..2] == [DependencyStatus, RecordEvent(DependencyWaitStarted)] && DependencyStatus in acts
            && RecordFailure(attempt) !in acts && RecordEvent(RetryStarted) !in acts
            && (SetTaskStatus(TaskStatus.Blocked) in acts <==> unfinished)
            && RecordEvent(RecoverySelected) !in acts
            && (forall act | act in acts :: act in {DependencyStatus, RecordEvent(DependencyWaitStarted), RecordEvent(DependencyResumed),
                                                    SetTaskStatus(TaskStatus.Blocked), SetTaskStatus(TaskStatus.Running)})
            && (RecordEvent(DependencyResumed) in acts <==> !unfinished || met)
            && (SetTaskStatus(TaskStatus.Running) in acts <==> unfinished && met)
  {
    assert WaitSteps(unfinished, met)[0] == DependencyStatus;
  }

  /** Which follow-up each action asks for, once the budget lets it. */
  lemma FollowUpFacts(d: Decision, a: Answers, attempt: nat, agent: nat)
    requires AskedRight(d, a)
    ensures var acts, goes := RecoverSteps(d, a, attempt, agent), !BudgetRejects(d, a);
            && (Replan in acts <==> d.action == EscalateOrReplan)
            && (SpawnChild(false) in acts <==> goes && d.action == SpawnDebugger)
            && (SpawnChild(true) in acts <==> goes && d.action == CreateIntegrationTask)
            && (Rollback in acts <==> SpawnChild(true) in acts)
            && (DependencyStatus in acts <==> goes && d.action == WaitForDependency)
            && (On(EndSession(agent)) in acts <==> goes && d.action == ReplaceAgent)
            && (RecordEvent(AgentReplaced) in acts <==> goes && d.action == ReplaceAgent)
            && (RecordEvent(ModelSwitched) in acts <==> goes && d.action in {RetryAlternateModel, EscalateModel})
            && (RecordEvent(ContextCompacted) in acts <==> goes && d.action == RebuildContext)
            && (HitlGate in acts <==> a.budgetGate.Some? || a.operatorGate.Some?)
  {
    hide ActionSteps, RecoverSteps, RetrySteps, BudgetRejects, StartsRetry, Concluded;
    if d.action != Stop && d.action != EscalateOrReplan {
      ActionFollowUps(d, a, attempt, agent);
    }
    RecoverMembers(d, a, attempt, agent, Replan);
    RecoverMembers(d, a, attempt, agent, SpawnChild(false));
    RecoverMembers(d, a, attempt, agent, SpawnChild(true));
    RecoverMembers(d, a, attempt, agent, Rollback);
    RecoverMembers(d, a, attempt, agent, DependencyStatus);
    RecoverMembers(d, a, attempt, agent, On(EndSession(agent)));
    RecoverMembers(d, a, attempt, agent, RecordEvent(AgentReplaced));
    RecoverMembers(d, a, attempt, agent, RecordEvent(ModelSwitched));
    RecoverMembers(d, a, attempt, agent, RecordEvent(ContextCompacted));
    RecoverMembers(d, a, attempt, agent, HitlGate);
  }

  lemma ActionFollowUps(d: Decision, a: Answers, attempt: nat, agent: nat)
    requires AskedRight(d, a) && d.action != Stop && d.action != EscalateOrReplan
    ensures var acts := ActionSteps(d, a, attempt, agent);
            && Replan !in acts
            && (SpawnChild(false) in acts <==> d.action == SpawnDebugger)
            && (SpawnChild(true) in acts <==> d.action == CreateIntegrationTask)
            && (Rollback in acts <==> SpawnChild(true) in acts)
            && (DependencyStatus in acts <==> d.action == Action.WaitForDependency)
            && (On(EndSession(agent)) in acts <==> d.action == ReplaceAgent)
            && (RecordEvent(AgentReplaced) in acts <==> d.action == ReplaceAgent)
            && (RecordEvent(ModelSwitched) in acts <==> d.action in {RetryAlternateModel, EscalateModel})
            && (RecordEvent(ContextCompacted) in acts <==> d.action == RebuildContext)
            && (HitlGate in acts <==> d.action == RequestHitl)
  {
    hide WaitSteps;
    WaitStepsFacts(a.unfinished == Some(true), a.waitMet == Some(true), attempt);
  }

  /** The task is running when its attempts begin, through ready if it was pending. */
  lemma EnterStepsFacts(loaded: TaskStatus)
    ensures EnterSteps(loaded) == if loaded == Pending then [SetTaskStatus(Ready), SetTaskStatus(TaskStatus.Running)]
                                  else [SetTaskStatus(TaskStatus.Running)]
  {
  }

  /** It gets its final status before anyone is told, and dependents are woken exactly after a success. */
  lemma ConcludeStepsFacts(success: bool)
    ensures var acts := ConcludeSteps(success);
            && acts[0] == SetTaskStatus(if success then TaskStatus.Completed else TaskStatus.Failed)
            && acts[1] == RecordEvent(if success then TaskCompleted else TaskFailed)
            && if success then |acts| == 4 && acts[2] == Dependents && acts[3] == Wake else |acts| == 2
  {
  }

  lemma Regroup(a: seq<Activity>, b: seq<Activity>, c: seq<Activity>)
    ensures a + b + c == a + (b + c)
  {
  }

  function Predecessor(tries: seq<Try>, i: nat): Option<nat>
    requires i <= |tries|
  {
    if i == 0 then None else Some(tries[i - 1].agent)
  }

  /** One attempt was finished and its agent moved; nothing else changed. */
  ghost predicate Closed(before: Rows, after: Rows, attempt: nat, agent: nat) {
    && attempt < |before.attempts| == |after.attempts| && agent < |before.agents| == |after.agents|
    && after.terminal == before.terminal
    && after.attempts[attempt].agent == before.attempts[attempt].agent
    && after.agents[agent].predecessor == before.agents[agent].predecessor
    && (forall j | 0 <= j < |before.attempts| && j != attempt :: after.attempts[j] == before.attempts[j])
    && (forall i | 0 <= i < |before.agents| && i != agent :: after.agents[i] == before.agents[i])
  }

  /** Of the new attempts, only this one is finished. */
  ghost predicate OneFinished(before: Rows, after: Rows, attempt: nat) {
    && |before.attempts| <= attempt
    && forall j | |before.attempts| <= j < |after.attempts| && j != attempt :: after.attempts[j].outcome.None?
  }

  /** The task had this status at some point from `from` on. */
  ghost predicate Had(statuses: seq<TaskStatus>, from: int, s: TaskStatus) {
    exists i :: 0 <= i < |statuses| && from <= i && statuses[i] == s
  }

  /** Only unfinished attempts and new agents were added. */
  ghost predicate Opened(before: Rows, after: Rows) {
    && before.attempts <= after.attempts && before.agents <= after.agents && after.terminal == before.terminal
    && forall j | |before.attempts| <= j < |after.attempts| :: after.attempts[j].outcome.None?
  }

  /** Only new agents were added, perhaps linked to this attempt. */
  ghost predicate AgentOpened(before: Rows, after: Rows, attempt: nat) {
    && attempt < |before.attempts| == |after.attempts|
    && before.agents <= after.agents && after.terminal == before.terminal
    && after.attempts[attempt].outcome == before.attempts[attempt].outcome
    && forall j | 0 <= j < |before.attempts| && j != attempt :: after.attempts[j] == before.attempts[j]
  }

  /** A new agent, linked to this attempt. */
  ghost predicate InHand(before: Rows, after: Rows, attempt: nat, agent: nat, predecessor: Option<nat>) {
    && attempt < |after.attempts| && |before.agents| <= agent < |after.agents|
    && after.attempts[attempt].agent == Some(agent)
    && after.agents[agent].predecessor == predecessor
  }

  /** Only this agent's history changed, and it only grew. */
  ghost predicate OnlyAgent(before: Rows, after: Rows, a: nat) {
    && a < |before.agents|
    && after.attempts == before.attempts && after.terminal == before.terminal
    && |after.agents| == |before.agents|
    && after.agents[a].predecessor == before.agents[a].predecessor
    && forall i | 0 <= i < |before.agents| && i != a :: after.agents[i] == before.agents[i]
  }

  lemma DeliverOnce(r: Rows, c: Command, n: nat)
    requires !c.StartAttempt? && !c.StartAgent?
    ensures Deliver(r, c, n) == if n >= 1 && Perform(r, c).Some? then Perform(r, c).value.0 else r
  {
  }

  lemma DeliverElsewhere(r: Rows, n: nat)
    ensures Deliver(r, Command.Elsewhere, n) == r
  {
  }

  lemma DeliverState(r: Rows, a: nat, s: AgentState, n: nat)
    ensures var d := Deliver(r, Command.SetAgentState(a, s), n);
            d == if n >= 1 && MayMove(r, a, s) then Moved(r, a, s) else r
    ensures n >= 1 && Perform(Deliver(r, Command.SetAgentState(a, s), n - 1), Command.SetAgentState(a, s)).Some? ==> MayMove(r, a, s)
  {
    var c := Command.SetAgentState(a, s);
    assert Deliver(r, c, 0) == r;
    if n >= 1 {
      AgainIsOnce(r, c, n);
      if n >= 2 {
        AgainIsOnce(r, c, n - 1);
      }
    }
  }

  /** Statuses only grow, and stand still when nobody else writes them. */
  ghost predicate StatusesGrow(before: seq<TaskStatus>, after: seq<TaskStatus>, calm: bool) {
    before <= after && (calm ==> after == before)
  }

  lemma HadFinalIsLast(statuses: seq<TaskStatus>, from: int, s: TaskStatus)
    requires TaskPath(statuses) && Had(statuses, from, s) && Final(s)
    ensures Last(statuses) == s
  {
    var i :| 0 <= i < |statuses| && from <= i && statuses[i] == s;
    FinalStatusSticks(statuses, i);
  }

  /** The actions that announce a retry and back off. */
  predicate StartsRetry(a: Action) {
    a in {RetryIfSafe, RetryThenReplan, RecreateRuntime, ThrottleThenRetry, RebuildContext,
          RetryAlternateModel, EscalateModel, ReplaceAgent}
  }

  /** The question was asked and answered with no. */
  predicate No(answer: Option<bool>) {
    answer.Some? && !answer.value
  }

  /** The decision costs more than the budget allows and its gate was not approved. */
  predicate BudgetRejects(d: Decision, a: Answers) {
    d.budgetSensitive && d.action != Stop && d.action != EscalateOrReplan
    && No(a.withinBudget) && No(a.budgetGate)
  }

  /** The decision was to wait, and the deadline passed first. */
  predicate DeadlinePasses(d: Decision, a: Answers) {
    d.action == WaitForDependency && No(a.waitMet)
  }

  /** How a recovery step ends, unless an activity raises. */
  function Concluded(d: Decision, a: Answers): Verdict {
    if BudgetRejects(d, a) then Ends(GateRejected)
    else if EndsRun(d.action) || (d.action == RequestHitl && No(a.operatorGate)) then Ends(TerminalRecorded)
    else if DeadlinePasses(d, a) then Ends(WaitTimedOut)
    else Continues
  }

  /** At most this terminal record was added. */
  ghost predicate OnlyTerminal(before: Rows, after: Rows, k: Key) {
    after == before || after == before.(terminal := before.terminal + {k})
  }

  // --------------------------------------------------------------- the story of a run

  /** Try `i` is told by the rows, started after try `i - 1`, and its agent replaces that try's agent. */
  ghost predicate TryTold(before: Rows, r: Rows, tries: seq<Try>, i: nat)
    requires i < |tries|
  {
    && Told(r, tries[i], Predecessor(tries, i))
    && (if i == 0 then |before.attempts| else tries[i - 1].attempt + 1) <= tries[i].attempt
  }

  ghost predicate TriesTold(before: Rows, r: Rows, tries: seq<Try>) {
    forall i: nat | i < |tries| :: TryTold(before, r, tries, i)
  }

  ghost predicate Tried(tries: seq<Try>, attempt: nat) {
    exists i :: 0 <= i < |tries| && tries[i].attempt == attempt
  }

  /** Every attempt the run finished is one of the tries. */
  ghost predicate AllAccounted(before: Rows, r: Rows, tries: seq<Try>) {
    forall j: nat | |before.attempts| <= j < |r.attempts| && r.attempts[j].outcome.Some? :: Tried(tries, j)
  }

  lemma TriesStayTold(before: Rows, r: Rows, later: Rows, tries: seq<Try>)
    requires TriesTold(before, r, tries) && Extends(r, later)
    ensures TriesTold(before, later, tries)
  {
    forall i: nat | i < |tries| ensures TryTold(before, later, tries, i) {
      assert TryTold(before, r, tries, i);
    }
  }

  lemma TriesGrow(before: Rows, r: Rows, later: Rows, tries: seq<Try>, t: Try)
    requires Extends(before, r) && Extends(r, later)
    requires TriesTold(before, r, tries) && AllAccounted(before, r, tries)
    requires Told(later, t, Predecessor(tries, |tries|)) && OneFinished(r, later, t.attempt)
    ensures TriesTold(before, later, tries + [t]) && AllAccounted(before, later, tries + [t])
  {
    var grown := tries + [t];
    TriesStayTold(before, r, later, tries);
    forall i: nat | i < |grown| ensures TryTold(before, later, grown, i) {
      if i < |tries| {
        assert TryTold(before, later, tries, i);
      } else if i > 0 {
        assert TryTold(before, r, tries, i - 1);
      }
    }
    forall j: nat | |before.attempts| <= j < |later.attempts| && later.attempts[j].outcome.Some? ensures Tried(grown, j) {
      if j < |r.attempts| {
        assert Tried(tries, j);
        var i :| 0 <= i < |tries| && tries[i].attempt == j;
        assert grown[i].attempt == j;
      } else {
        assert grown[|tries|].attempt == j;
      }
    }
  }

  /** The recovery record of failed try `i`. */
  function EntryOf(policy: Policy, max: nat, tries: seq<Try>, i: nat): Entry
    requires i < |tries|
  {
    Entry(i + 1, tries[i].attempt, tries[i].failure, policy(tries[i].failure, i + 1, max).action)
  }

  /** One record per failed attempt, in order, and every attempt but a last successful one failed. */
  ghost predicate HistoryFits(policy: Policy, max: nat, tries: seq<Try>, history: seq<Entry>) {
    && |history| <= |tries|
    && forall i: nat | i < |history| :: tries[i].outcome != Success && history[i] == EntryOf(policy, max, tries, i)
  }

  /** Every recorded action but the last lets the run continue. */
  ghost predicate AllContinue(history: seq<Entry>, n: nat) {
    forall i: nat | i < n && i < |history| :: !EndsRun(history[i].action)
  }

  /** The decision on the last try. */
  function LastDecision(policy: Policy, max: nat, tries: seq<Try>): Decision
    requires tries != []
  {
    policy(Last(tries).failure, |tries|, max)
  }

  /** A summary tells the truth about the rows, the tries and the answers to the last recovery step. */
  ghost predicate SummaryFits(policy: Policy, max: nat, r: Rows, tries: seq<Try>, asked: Answers, s: Summary) {
    && 1 <= |tries| <= max
    && s.attempts == |tries|
    && HistoryFits(policy, max, tries, s.history)
    && s.success == (Last(tries).outcome == Success)
    && |s.history| == (if s.success then |tries| - 1 else |tries|)
    && AllContinue(s.history, |tries| - 1)
    && (!s.success ==> FailureFits(LastDecision(policy, max, tries), max, r, tries, asked))
  }

  /** Why a failed run stopped, and that its failure was recorded as terminal exactly when the
      last recovery step ended that way. */
  ghost predicate FailureFits(d: Decision, max: nat, r: Rows, tries: seq<Try>, asked: Answers)
    requires tries != []
  {
    && (Terminal(Last(tries).attempt) in r.terminal <==> Concluded(d, asked) == Ends(TerminalRecorded))
    && (Concluded(d, asked).Continues? ==> |tries| == max)
  }

  /** A finished run: its tries are told by the rows, cover every attempt it finished, and fit the summary. */
  ghost predicate RunTold(policy: Policy, max: nat, before: Rows, r: Rows, tries: seq<Try>, asked: Answers, s: Summary) {
    TriesTold(before, r, tries) && AllAccounted(before, r, tries) && SummaryFits(policy, max, r, tries, asked, s)
  }

  /** The attempt rows a run added, counting one more start for an attempt still open when
      `open` is 1: a start is delivered at most so often, and exactly once when nothing is lost. */
  ghost predicate Counted(reliable: bool, before: Rows, r: Rows, tries: seq<Try>, open: nat) {
    && |r.attempts| <= |before.attempts| + DELIVERIES * (|tries| + open)
    && (reliable ==> |r.attempts| == |before.attempts| + |tries|
                     && forall i | 0 <= i < |tries| :: tries[i].attempt == |before.attempts| + i)
  }

  lemma FrozenWhenFinal(before: seq<TaskStatus>, after: seq<TaskStatus>)
    requires TaskPath(before) && TaskPath(after) && before <= after && Final(Last(before))
    ensures after == before
  {
    FinalStatusSticks(after, |before| - 1);
  }

  /** Under the repository's own policy attempts never run out silently. A failed run lacks a
      terminal record exactly when the budget was exceeded and its gate not approved, or a
      dependency deadline passed; its last recorded action is then to wait, or one that the
      budget is asked for, and attempts were left. Every earlier failure was called retryable. */
  lemma LadderRunsEndRecorded(max: nat, r: Rows, tries: seq<Try>, asked: Answers, s: Summary)
    requires SummaryFits(Decide, max, r, tries, asked, s) && !s.success
    ensures var d := LastDecision(Decide, max, tries);
            Terminal(Last(tries).attempt) !in r.terminal <==> BudgetRejects(d, asked) || DeadlinePasses(d, asked)
    ensures Terminal(Last(tries).attempt) !in r.terminal ==>
              && Last(s.history).action in {WaitForDependency, RetryAlternateModel, EscalateModel, ReplaceAgent, SpawnDebugger}
              && |tries| < max
    ensures forall i: nat | i < |tries| - 1 :: Decide(tries[i].failure, i + 1, max).retryable
  {
    hide Decide;
    var n: nat := |tries| - 1;
    assert s.history[n] == EntryOf(Decide, max, tries, n);
    if |tries| == max {
      LadderEnds(tries[n].failure, |tries|, max);
    }
    BudgetSensitiveActions(tries[n].failure, |tries|, max);
    forall i: nat | i < n ensures Decide(tries[i].failure, i + 1, max).retryable {
      assert s.history[i] == EntryOf(Decide, max, tries, i);
      RetryableContinues(tries[i].failure, i + 1, max);
    }
  }

  /** Such a run: a model failure on the first of three attempts, over budget and not approved. */
  lemma RejectedBudgetIsUnrecorded()
    ensures var before, r := Rows([], [], {}),
                Rows([Attempt(1, Some(0), Some(Failure))],
                     [Agent(None, [Created, AgentState.Running, Verifying, AgentState.Failed])], {});
            var tries := [Try(0, 0, Failure, ModelFailure, false, false)];
            var asked := Answers(Some(false), Some(false), None, None, None);
            var s := Summary(1, false, [Entry(1, 0, ModelFailure, RetryAlternateModel)]);
            && Lawful(before) && Lawful(r) && RunTold(Decide, 3, before, r, tries, asked, s)
            && BudgetRejects(LastDecision(Decide, 3, tries), asked) && Terminal(0) !in r.terminal
  {
    var tries := [Try(0, 0, Failure, ModelFailure, false, false)];
    assert tries[0].attempt == 0;
    assert Tried(tries, 0);
    assert Decide(ModelFailure, 1, 3) == Decision(RetryAlternateModel, true, true);
  }

  lemma CountedAfterTry(reliable: bool, before: Rows, r: Rows, later: Rows, tries: seq<Try>, t: Try)
    requires Counted(reliable, before, r, tries, 0) && |later.attempts| <= |r.attempts| + DELIVERIES
    requires reliable ==> |later.attempts| == |r.attempts| + 1 && t.attempt == |r.attempts|
    ensures Counted(reliable, before, later, tries + [t], 0)
  {
  }

  lemma CountedNone(reliable: bool, r: Rows)
    ensures Counted(reliable, r, r, [], 0) && Counted(reliable, r, r, [], 1)
  {
  }

  lemma CountedOpen(reliable: bool, before: Rows, r: Rows, later: Rows, tries: seq<Try>)
    requires Counted(reliable, before, r, tries, 0) && |later.attempts| <= |r.attempts| + DELIVERIES
    requires !reliable
    ensures Counted(reliable, before, later, tries, 1)
  {
  }

  lemma CountedStays(reliable: bool, before: Rows, r: Rows, later: Rows, tries: seq<Try>, open: nat)
    requires Counted(reliable, before, r, tries, open) && |later.attempts| == |r.attempts|
    ensures Counted(reliable, before, later, tries, open) && Counted(reliable, before, later, tries, open + 1)
  {
  }

  /** Where the loop stands between two attempts: every try so far failed and was recovered from. */
  ghost predicate MidRun(policy: Policy, max: nat, before: Rows, r: Rows, tries: seq<Try>, history: seq<Entry>) {
    && Extends(before, r) && TriesTold(before, r, tries) && AllAccounted(before, r, tries)
    && HistoryFits(policy, max, tries, history) && |history| == |tries| && AllContinue(history, |tries|)
    && (|tries| > 0 ==> Terminal(Last(tries).attempt) !in r.terminal)
  }

  /** The task is running when the run continues or succeeded, running or blocked otherwise. */
  predicate SteadyAfter(v: Verdict, status: TaskStatus) {
    status == TaskStatus.Running || (status == TaskStatus.Blocked && !v.Continues? && v != Ends(Succeeded))
  }

  lemma AfterSuccess(policy: Policy, max: nat, before: Rows, r: Rows, later: Rows, tries: seq<Try>, history: seq<Entry>, t: Try,
                     asked: Answers)
    requires MidRun(policy, max, before, r, tries, history) && |tries| < max
    requires Extends(r, later) && Told(later, t, Predecessor(tries, |tries|)) && OneFinished(r, later, t.attempt)
    requires t.outcome == Success
    ensures TriesTold(before, later, tries + [t]) && AllAccounted(before, later, tries + [t])
    ensures SummaryFits(policy, max, later, tries + [t], asked, Summary(|tries| + 1, true, history))
  {
    TriesGrow(before, r, later, tries, t);
  }

  /** A failed attempt `t`, then a recovery step that ended in `v`. */
  lemma AfterFailure(policy: Policy, max: nat, before: Rows, r: Rows, failed: Rows, later: Rows,
                     tries: seq<Try>, history: seq<Entry>, t: Try, asked: Answers, v: Verdict)
    requires MidRun(policy, max, before, r, tries, history) && |tries| < max
    requires Lawful(r) && Extends(r, failed) && failed.terminal == r.terminal
    requires Told(failed, t, Predecessor(tries, |tries|)) && OneFinished(r, failed, t.attempt) && t.outcome != Success
    requires OnlyTerminal(failed, later, Terminal(t.attempt))
    requires v == Raises || v == Concluded(policy(t.failure, |tries| + 1, max), asked)
    requires v.Ends? ==> if v.exit == TerminalRecorded then Terminal(t.attempt) in later.terminal else later == failed
    requires v.Continues? ==> later == failed
    ensures Extends(before, later) && TriesTold(before, later, tries + [t])
    ensures var grown := history + [EntryOf(policy, max, tries + [t], |tries|)];
            && (v.Continues? ==> MidRun(policy, max, before, later, tries + [t], grown))
            && (v.Ends? ==> AllAccounted(before, later, tries + [t])
                            && SummaryFits(policy, max, later, tries + [t], asked, Summary(|tries| + 1, false, grown)))
  {
    TriesGrow(before, r, failed, tries, t);
    TriesStayTold(before, failed, later, tries + [t]);
    assert Terminal(t.attempt) !in failed.terminal;
  }

  /** What marking a task terminal makes of the status it was loaded with. */
  predicate Marked(loaded: TaskStatus, after: TaskStatus, reliable: bool) {
    var target := if loaded == Pending then TaskStatus.Cancelled else TaskStatus.Failed;
    after == target || (!reliable && (after == loaded || (loaded == Ready && after == TaskStatus.Running)))
  }

  /** No agent moved; at most this attempt was finished, and it was not finished before. */
  ghost predicate Reconciled(before: Rows, after: Rows, attemptId: Option<nat>) {
    && after.agents == before.agents
    && before.terminal <= after.terminal <= before.terminal + {Key.Reconcile}
    && (after.attempts == before.attempts
        || (attemptId.Some? && attemptId.value < |before.attempts| && before.attempts[attemptId.value].outcome.None?
            && exists o: Outcome :: o != Success && after.attempts == Finished(before, attemptId.value, o).attempts))
  }

  /** Attempts finished earlier keep their record, and agents keep the states they went through. */
  ghost predicate NoneRewritten(before: Rows, after: Rows) {
    && |before.attempts| <= |after.attempts| && before.agents <= after.agents
    && forall j | 0 <= j < |before.attempts| && before.attempts[j].outcome.Some? :: after.attempts[j] == before.attempts[j]
  }

  function FollowUps(action: Action): seq<Activity> {
    if action == CreateIntegrationTask then [Rollback, SpawnChild(true)] else [SpawnChild(false)]
  }

  lemma HandedOver(d: Decision, a: Answers, attempt: nat, agent: nat)
    requires d.action == SpawnDebugger || d.action == CreateIntegrationTask
    requires a.withinBudget.Some? && (a.budgetGate.Some? <==> d.budgetSensitive && No(a.withinBudget))
    requires a.operatorGate.None? && a.unfinished.None? && a.waitMet.None?
    ensures AskedRight(d, a) && RetrySteps(d) == []
    ensures FollowUps(d.action) + [RecordFailure(attempt)] == ActionSteps(d, a, attempt, agent)
  {
  }

  lemma Waited(d: Decision, a: Answers, attempt: nat, agent: nat)
    requires d.action == WaitForDependency && a.waitMet.Some? && a.unfinished.Some? && !BudgetRejects(d, a)
    requires a.withinBudget.Some? && (a.budgetGate.Some? <==> d.budgetSensitive && No(a.withinBudget)) && a.operatorGate.None?
    requires No(a.waitMet) ==> a.unfinished == Some(true)
    ensures AskedRight(d, a) && RetrySteps(d) == []
    ensures ActionSteps(d, a, attempt, agent) == WaitSteps(a.unfinished.value, a.waitMet.value)
  {
  }

  lemma OperatorAsked(d: Decision, a: Answers, attempt: nat, agent: nat, start: seq<Activity>)
    requires d.action == RequestHitl && !BudgetRejects(d, a) && a.unfinished.None? && a.waitMet.None?
    requires a.withinBudget.Some? && (a.budgetGate.Some? <==> d.budgetSensitive && No(a.withinBudget))
    ensures a.operatorGate.Some? ==> AskedRight(d, a)
    ensures RetrySteps(d) == []
    ensures ActionSteps(d, a, attempt, agent) == if No(a.operatorGate) then [HitlGate] + ([] + [RecordFailure(attempt)]) else [HitlGate]
  {
  }

  lemma EarlySteps(d: Decision, attempt: nat, agent: nat, start: seq<Activity>)
    requires d.action == Stop || d.action == EscalateOrReplan
    ensures AskedRight(d, UNASKED)
    ensures start + [RecordEvent(RecoverySelected)] + ((if d.action == Stop then [] else [Replan]) + [RecordFailure(attempt)])
            == start + RecoverSteps(d, UNASKED, attempt, agent)
  {
  }

  lemma RejectedSteps(d: Decision, a: Answers, attempt: nat, agent: nat, start: seq<Activity>)
    requires BudgetRejects(d, a) && a.operatorGate.None? && a.unfinished.None? && a.waitMet.None?
    ensures AskedRight(d, a)
    ensures start + [RecordEvent(RecoverySelected)] + [RecoveryBudget] + [HitlGate] == start + RecoverSteps(d, a, attempt, agent)
  {
  }

  lemma RecoverStepsAre(d: Decision, a: Answers, attempt: nat, agent: nat, start: seq<Activity>, gated: seq<Activity>, acts: seq<Activity>)
    requires d.action != Stop && d.action != EscalateOrReplan && !BudgetRejects(d, a)
    requires gated == start + [RecordEvent(RecoverySelected)] + [RecoveryBudget] + if a.budgetGate.Some? then [HitlGate] else []
    requires acts == gated + ActionSteps(d, a, attempt, agent) + RetrySteps(d)
    ensures acts == start + RecoverSteps(d, a, attempt, agent)
  {
    hide ActionSteps, RetrySteps;
  }

  lemma GrowTwice(a: seq<TaskStatus>, b: seq<TaskStatus>, c: seq<TaskStatus>, calm: bool)
    requires StatusesGrow(a, b, calm) && StatusesGrow(b, c, calm)
    ensures StatusesGrow(a, c, calm)
  {
  }

  lemma GrowNone(a: seq<TaskStatus>, calm: bool)
    ensures StatusesGrow(a, a, calm)
  {
  }

  lemma PauseAsked(acts: seq<Activity>, a: nat)
    ensures MayAsk(acts, |acts|, true, Move(a, PauseRequested)) && MayAsk(acts, |acts|, false, Move(a, Resuming))
  {
  }

  lemma PauseOver(start: seq<Activity>, a: nat)
    ensures var acts := start + PauseSteps(a, true);
            JustResumed(acts, |acts|)
            && acts == start + [Move(a, PauseRequested), Move(a, Paused)] + [Move(a, Resuming), Move(a, AgentState.Running)]
  {
  }

  lemma MayVerify(acts: seq<Activity>, paused: bool, a: nat)
    requires MayWork(acts, paused)
    ensures MayAsk(acts, |acts|, paused, Move(a, Verifying))
  {
  }

  lemma WorkStepsAre(start: seq<Activity>, a: nat, paused: bool, again: bool)
    ensures start + PauseSteps(a, paused) + [Snapshot] + [ExecuteAgent] + PauseSteps(a, again) + [Move(a, Verifying)]
            == start + WorkSteps(a, paused, again)
  {
    hide PauseSteps;
  }

  lemma AttemptAsked(start: seq<Activity>, t: Try, predecessor: Option<nat>)
    ensures start + OpenSteps(t.attempt, t.agent, predecessor) + WorkSteps(t.agent, t.paused, t.pausedAgain)
            + CloseSteps(t.attempt, t.agent, t.outcome) == start + AttemptSteps(t, predecessor)
  {
    hide OpenSteps, WorkSteps, CloseSteps;
  }

  lemma AttemptWentThrough(t: Try)
    ensures [Created, AgentState.Running] + PauseStates(t.paused) + PauseStates(t.pausedAgain) + [Verifying] + [EndState(t.outcome)]
            == AttemptStates(t)
    ensures Last(AttemptStates(t)) == if t.outcome == Success then AgentState.Completed else AgentState.Failed
  {
    hide PauseStates;
  }

  lemma OnlyTerminalKeeps(before: Rows, after: Rows, k: Key)
    requires OnlyTerminal(before, after, k)
    ensures after.attempts == before.attempts && after.agents == before.agents
  {
  }

  lemma LastTry(policy: Policy, max: nat, tries: seq<Try>, t: Try)
    ensures Predecessor(tries + [t], |tries| + 1) == Some(t.agent)
    ensures LastDecision(policy, max, tries + [t]) == policy(t.failure, |tries| + 1, max)
    ensures EntryOf(policy, max, tries + [t], |tries|)
            == Entry(|tries| + 1, t.attempt, t.failure, policy(t.failure, |tries| + 1, max).action)
  {
  }

  lemma FailedLast(r: Rows, t: Try, predecessor: Option<nat>)
    requires Told(r, t, predecessor) && t.outcome != Success
    ensures t.attempt < |r.attempts| && t.agent < |r.agents| && Last(r.agents[t.agent].history) == AgentState.Failed
  {
  }

  lemma NotesGrow(policy: Policy, max: nat, tries: seq<Try>, notes: seq<Answers>, t: Try, note: Answers)
    requires NotesRight(policy, max, tries, notes) && AskedRight(policy(t.failure, |tries| + 1, max), note)
    ensures NotesRight(policy, max, tries + [t], notes + [note])
  {
  }

  lemma NotesCount(policy: Policy, max: nat, tries: seq<Try>, notes: seq<Answers>)
    ensures NotesRight(policy, max, tries, notes) ==> |notes| == |tries|
  {
  }

  lemma NothingRun(policy: Policy, max: nat, reliable: bool, r: Rows)
    ensures NotesRight(policy, max, [], []) && RunSteps(policy, max, [], [], 0) == []
    ensures MidRun(policy, max, r, r, [], []) && Counted(reliable, r, r, [], 0)
  {
  }

  /** The attempts have run out. */
  lemma RunOut(policy: Policy, max: nat, before: Rows, r: Rows, tries: seq<Try>, history: seq<Entry>, asked: Answers)
    requires MidRun(policy, max, before, r, tries, history) && |tries| == max >= 1
    requires Concluded(LastDecision(policy, max, tries), asked) == Continues
    ensures Extends(before, r) && TriesTold(before, r, tries) && AllAccounted(before, r, tries)
    ensures SummaryFits(policy, max, r, tries, asked, Summary(max, false, history))
  {
  }

  /** All that a run asks for once the task is loaded: its entry, its attempts and their recovery
      steps, and its end. */
  ghost predicate RunAsked(policy: Policy, max: nat, loaded: TaskStatus, tries: seq<Try>, notes: seq<Answers>,
                           before: seq<Activity>, acts: seq<Activity>, success: bool) {
    && NotesRight(policy, max, tries, notes)
    && acts == before + EnterSteps(loaded) + RunSteps(policy, max, tries, notes, |tries|) + ConcludeSteps(success)
  }

  function MarkSteps(loaded: TaskStatus, through: bool): seq<Activity> {
    var target := if loaded == Pending then TaskStatus.Cancelled else TaskStatus.Failed;
    (if loaded == Ready then [SetTaskStatus(TaskStatus.Running)] else [])
    + if loaded == Ready && !through then [] else [SetTaskStatus(target)]
  }

  /** What the clean-up asks for after it has loaded the task, whatever its own steps come to. */
  function ReconcileSteps(loaded: Option<TaskStatus>, attemptId: Option<nat>, attempts: seq<Attempt>, through: bool): seq<Activity> {
    if loaded.None? || Final(loaded.value) || loaded.value == TaskStatus.Failed then []
    else
      (if attemptId.Some? && attemptId.value < |attempts| && attempts[attemptId.value].outcome.None?
       then [On(FinishAttempt(attemptId.value, if loaded.value == Pending then Withdrawn else Failure))] else [])
      + [On(RecordTerminal(Key.Reconcile))] + MarkSteps(loaded.value, through) + [RecordEvent(TaskFailed)]
  }

  class TaskExecutionWorkflow {
    var paused: bool
    var dependencyCompleted: bool
    var currentAttemptId: Option<nat>

    /** The rows of the task's attempts and agents, and every status the task has had. */
    var rows: Rows
    var statuses: seq<TaskStatus>

    /** Everything the workflow asked for, and whether a pause was asked for by then. */
    ghost var acts: seq<Activity>
    ghost var flags: seq<bool>

    /** How many of these came back with an exception. */
    ghost var raised: nat

    /** How many signals have told of a finished dependency. */
    ghost var finishes: nat

    /** The attempts of the current run that ran to their end, and what their recovery steps were told. */
    ghost var tries: seq<Try>
    ghost var notes: seq<Answers>

    /** What the last recovery step was told. */
    ghost var asked: Answers

    /** Assumptions some promises need: nobody outside writes the task's status; activities neither
        fail by themselves nor lose an answer. */
    const calm: bool
    const reliable: bool

    ghost predicate Valid()
      reads this
    {
      Lawful(rows) && TaskPath(statuses) && Heeded(acts, flags)
    }

    function Status(): TaskStatus
      reads this
      requires |statuses| > 0
    {
      Last(statuses)
    }

    constructor (rows: Rows, status: TaskStatus, calm: bool, reliable: bool)
      requires Lawful(rows)
      ensures Valid() && this.rows == rows && statuses == [status] && acts == []
      ensures !paused && !dependencyCompleted && currentAttemptId.None?
      ensures this.calm == calm && this.reliable == reliable
    {
      paused, dependencyCompleted, currentAttemptId := false, false, None;
      this.rows, statuses, tries, notes, asked := rows, [status], [], [], UNASKED;
      acts, flags, raised, finishes := [], [], 0, 0;
      this.calm, this.reliable := calm, reliable;
    }

    /** The dependency flag is set by signals alone. */
    twostate predicate OnlySignalled()
      reads this
    {
      finishes >= old(finishes) && (dependencyCompleted ==> old(dependencyCompleted) || finishes > old(finishes))
    }

    /** Time passes: signals arrive and others may move the task lawfully. */
    method Await()
      requires Valid()
      modifies `paused, `dependencyCompleted, `finishes, `statuses
      ensures Valid() && StatusesGrow(old(statuses), statuses, calm) && OnlySignalled()
      ensures old(dependencyCompleted) ==> dependencyCompleted
    {
      var moves: int := *;
      if calm || moves < 0 {
        moves := 0;
      }
      for i := 0 to moves
        invariant Valid() && StatusesGrow(old(statuses), statuses, calm)
        invariant finishes == old(finishes) && dependencyCompleted == old(dependencyCompleted)
      {
        var t: TaskStatus := *;
        if CanMove(Last(statuses), t) {
          statuses := statuses + [t];
        }
      }
      paused := *;
      var finished: bool := *;
      if finished {
        dependencyCompleted := true;
        finishes := finishes + 1;
      }
    }

    /** `execute_activity`: at least once, up to its number of deliveries. */
    method ExecuteActivity(act: Activity, c: Command) returns (reply: Option<nat>, ghost n: nat)
      requires Valid() && (act.On? ==> act.c == c) && (!act.On? ==> c.Elsewhere?)
      requires MayAsk(acts, |acts|, paused, act)
      requires c.EndSession? ==> c.agent < |rows.agents| && Last(rows.agents[c.agent].history) == AgentState.Failed
      requires c.RecordTerminal? && c.key.Terminal? ==> c.key.attempt < |rows.attempts|
      modifies `paused, `dependencyCompleted, `finishes, `statuses, `rows, `acts, `flags, `raised
      ensures Valid() && StatusesGrow(old(statuses), statuses, calm) && OnlySignalled()
      ensures acts == old(acts) + [act] && flags == old(flags) + [old(paused)]
      ensures rows == Deliver(old(rows), c, n) && n <= Deliveries(act)
      ensures raised == old(raised) + if reply.None? then 1 else 0
      ensures reply.Some? ==> n >= 1 && Perform(Deliver(old(rows), c, n - 1), c) == Some((rows, reply.value))
      ensures reliable && Perform(old(rows), c).Some? ==> reply.Some? && n == 1
    {
      hide Heeded, MayAsk, Lawful, TaskPath;
      HeededGrows(acts, flags, act, paused);
      acts, flags := acts + [act], flags + [paused];
      reply, n := DeliverUpTo(c, Deliveries(act));
      raised := raised + if reply.None? then 1 else 0;
    }

    /** The deliveries of one activity, of which the last may be answered. */
    method DeliverUpTo(c: Command, deliveries: nat) returns (reply: Option<nat>, ghost n: nat)
      requires Valid() && deliveries >= 1
      requires c.EndSession? ==> c.agent < |rows.agents| && Last(rows.agents[c.agent].history) == AgentState.Failed
      requires c.RecordTerminal? && c.key.Terminal? ==> c.key.attempt < |rows.attempts|
      modifies `paused, `dependencyCompleted, `finishes, `statuses, `rows
      ensures Valid() && StatusesGrow(old(statuses), statuses, calm) && OnlySignalled()
      ensures rows == Deliver(old(rows), c, n) && n <= deliveries
      ensures reply.Some? ==> n >= 1 && Perform(Deliver(old(rows), c, n - 1), c) == Some((rows, reply.value))
      ensures reliable && Perform(old(rows), c).Some? ==> reply.Some? && n == 1
    {
      hide Heeded, Lawful, TaskPath, StatusesGrow;
      n := 0;
      reply := None;
      GrowNone(statuses, calm);
      var i := 0;
      while i < deliveries
        invariant Valid() && StatusesGrow(old(statuses), statuses, calm) && n <= i <= deliveries && OnlySignalled()
        invariant rows == Deliver(old(rows), c, n) && reply.None?
        invariant c.EndSession? ==> rows == old(rows)
        invariant c.RecordTerminal? ==> rows.attempts == old(rows.attempts)
        invariant reliable && Perform(old(rows), c).Some? ==> i == 0
      {
        ghost var earlier := statuses;
        ghost var done;
        reply, done := TryDelivery(c);
        GrowTwice(old(statuses), earlier, statuses, calm);
        i, n := i + 1, if done then n + 1 else n;
        if reply.Some? {
          return;
        }
      }
    }

    /** One delivery: perhaps lost on the way, refused, performed, and perhaps answered. */
    method TryDelivery(c: Command) returns (reply: Option<nat>, ghost done: bool)
      requires Valid() && !Unguarded(rows, c)
      modifies `paused, `dependencyCompleted, `finishes, `statuses, `rows
      ensures Valid() && StatusesGrow(old(statuses), statuses, calm) && OnlySignalled()
      ensures rows == if done && Perform(old(rows), c).Some? then Perform(old(rows), c).value.0 else old(rows)
      ensures reply.Some? ==> done && Perform(old(rows), c) == Some((rows, reply.value))
      ensures reliable && Perform(old(rows), c).Some? ==> reply.Some?
    {
      hide Heeded, Lawful, TaskPath;
      Await();
      reply, done := None, false;
      var lost: bool := *;
      if !lost || reliable {
        done := true;
        PerformKeepsLawful(rows, c);
        var performed := Perform(rows, c);
        if performed.Some? {
          rows := performed.value.0;
          var acknowledged: bool := *;
          if acknowledged || reliable {
            reply := Some(performed.value.1);
          }
        }
      }
    }

    /** An activity that touches no row kept here. */
    method Elsewhere(act: Activity) returns (ok: bool)
      requires Valid() && !act.On? && (act == Snapshot ==> MayWork(acts, paused))
      modifies `paused, `dependencyCompleted, `finishes, `statuses, `rows, `acts, `flags, `raised
      ensures Valid() && StatusesGrow(old(statuses), statuses, calm) && rows == old(rows) && OnlySignalled()
      ensures acts == old(acts) + [act]
      ensures reliable ==> ok
      ensures raised >= old(raised) && (ok <==> raised == old(raised))
    {
      hide Heeded;
      var reply, n := ExecuteActivity(act, Command.Elsewhere);
      DeliverElsewhere(old(rows), n);
      ok := reply.Some?;
    }

    method SetAgentState(a: nat, s: AgentState) returns (ok: bool)
      requires Valid() && a < |rows.agents| && MayAsk(acts, |acts|, paused, Move(a, s))
      modifies `paused, `dependencyCompleted, `finishes, `statuses, `rows, `acts, `flags, `raised
      ensures Valid() && StatusesGrow(old(statuses), statuses, calm)
      ensures acts == old(acts) + [Move(a, s)]
      ensures rows == old(rows) || (MayMove(old(rows), a, s) && rows == Moved(old(rows), a, s))
      ensures ok ==> MayMove(old(rows), a, s) && rows == Moved(old(rows), a, s)
      ensures reliable && MayMove(old(rows), a, s) ==> ok
      ensures raised >= old(raised) && (ok <==> raised == old(raised))
    {
      hide Heeded;
      var reply, n := ExecuteActivity(Move(a, s), Command.SetAgentState(a, s));
      DeliverState(old(rows), a, s, n);
      ok := reply.Some?;
    }

    /** The way into a pause or out of one: two states in a row. */
    method SetAgentStates(a: nat, s: AgentState, t: AgentState) returns (ok: bool)
      requires Valid() && MayMove(rows, a, s) && CanTransition(s, t) && MayAsk(acts, |acts|, paused, Move(a, s))
      requires t == Paused || t == AgentState.Running
      modifies `paused, `dependencyCompleted, `finishes, `statuses, `rows, `acts, `flags, `raised
      ensures Valid() && StatusesGrow(old(statuses), statuses, calm)
      ensures OnlyAgent(old(rows), rows, a) && old(acts) <= acts
      ensures ok ==> rows.agents[a].history == old(rows.agents[a].history) + [s, t] && acts == old(acts) + [Move(a, s), Move(a, t)]
      ensures reliable ==> ok
      ensures raised >= old(raised) && (ok <==> raised == old(raised))
    {
      hide Lawful, TaskPath, Heeded, JustResumed;
      ok := SetAgentState(a, s);
      if ok {
        ok := SetAgentState(a, t);
      }
    }

    /** `_checkpoint`: when a pause was asked for, a running agent is told to pause, waits until none
        is, and runs again; otherwise nothing happens. */
    method Checkpoint(a: nat) returns (ok: bool)
      requires Valid() && a < |rows.agents| && Last(rows.agents[a].history) == AgentState.Running
      modifies `paused, `dependencyCompleted, `finishes, `statuses, `rows, `acts, `flags, `raised
      ensures Valid() && StatusesGrow(old(statuses), statuses, calm)
      ensures OnlyAgent(old(rows), rows, a) && old(acts) <= acts
      ensures ok ==> acts == old(acts) + PauseSteps(a, old(paused)) && MayWork(acts, paused)
      ensures ok ==> rows.agents[a].history == old(rows.agents[a].history) + PauseStates(old(paused))
                     && Last(rows.agents[a].history) == AgentState.Running
      ensures !old(paused) ==> ok && rows == old(rows) && acts == old(acts)
      ensures reliable ==> ok
      ensures raised >= old(raised) && (ok <==> raised == old(raised))
    {
      hide Lawful, TaskPath, Heeded, StatusesGrow, MayAsk, JustResumed;
      ok := true;
      GrowNone(statuses, calm);
      if paused {
        PauseAsked(acts, a);
        ok := SetAgentStates(a, PauseRequested, Paused);
        if ok {
          ghost var middle := statuses;
          Await();
          paused := false;
          ghost var later := statuses;
          GrowTwice(old(statuses), middle, later, calm);
          PauseAsked(acts, a);
          ok := SetAgentStates(a, Resuming, AgentState.Running);
          PauseOver(old(acts), a);
          GrowTwice(old(statuses), later, statuses, calm);
        }
      }
    }

    /** `start_attempt_activity`; a lost answer leaves an extra row, never finished. */
    method StartAttempt() returns (attempt: Option<nat>)
      requires Valid()
      modifies `paused, `dependencyCompleted, `finishes, `statuses, `rows, `acts, `flags, `raised
      ensures Valid() && StatusesGrow(old(statuses), statuses, calm)
      ensures acts == old(acts) + [On(Command.StartAttempt)]
      ensures Opened(old(rows), rows) && rows.agents == old(rows.agents)
      ensures attempt.Some? ==> |old(rows.attempts)| <= attempt.value < |rows.attempts|
      ensures |rows.attempts| <= |old(rows.attempts)| + DELIVERIES
      ensures reliable ==> attempt == Some(|old(rows.attempts)|) && |rows.attempts| == |old(rows.attempts)| + 1
      ensures raised >= old(raised) && (attempt.Some? <==> raised == old(raised))
    {
      hide Heeded;
      ghost var before := rows;
      ghost var n;
      attempt, n := ExecuteActivity(On(Command.StartAttempt), Command.StartAttempt);
      StartAgainAddsRows(before, n);
      if attempt.Some? {
        StartAgainAddsRows(before, n - 1);
      }
    }

    /** `start_agent_activity`. */
    method StartAgent(attempt: nat, predecessor: Option<nat>) returns (agent: Option<nat>)
      requires Valid() && attempt < |rows.attempts| && rows.attempts[attempt].outcome.None?
      modifies `paused, `dependencyCompleted, `finishes, `statuses, `rows, `acts, `flags, `raised
      ensures Valid() && StatusesGrow(old(statuses), statuses, calm)
      ensures acts == old(acts) + [On(Command.StartAgent(attempt, predecessor))]
      ensures AgentOpened(old(rows), rows, attempt)
      ensures agent.Some? ==> InHand(old(rows), rows, attempt, agent.value, predecessor)
                              && rows.agents[agent.value].history == [Created]
      ensures reliable ==> agent.Some?
      ensures raised >= old(raised) && (agent.Some? <==> raised == old(raised))
    {
      hide Heeded;
      ghost var before := rows;
      ghost var n;
      agent, n := ExecuteActivity(On(Command.StartAgent(attempt, predecessor)), Command.StartAgent(attempt, predecessor));
      StartAgentAgain(before, attempt, predecessor, n);
      if agent.Some? {
        StartAgentAgain(before, attempt, predecessor, n - 1);
      }
    }

    /** Attempt, agent, and the agent set running. */
    method Open(predecessor: Option<nat>) returns (pair: Option<(nat, nat)>)
      requires Valid()
      modifies `paused, `dependencyCompleted, `finishes, `statuses, `rows, `acts, `flags, `raised, `currentAttemptId
      ensures Valid() && StatusesGrow(old(statuses), statuses, calm)
      ensures Opened(old(rows), rows)
      ensures pair.Some? ==> pair.value.0 >= |old(rows.attempts)|
                             && InHand(old(rows), rows, pair.value.0, pair.value.1, predecessor)
                             && rows.agents[pair.value.1].history == [Created, AgentState.Running]
                             && acts == old(acts) + OpenSteps(pair.value.0, pair.value.1, predecessor)
                             && currentAttemptId == Some(pair.value.0)
      ensures old(acts) <= acts && |rows.attempts| <= |old(rows.attempts)| + DELIVERIES
      ensures currentAttemptId == old(currentAttemptId)
              || (currentAttemptId.Some? && |old(rows.attempts)| <= currentAttemptId.value < |rows.attempts|)
      ensures reliable ==> pair.Some? && pair.value.0 == |old(rows.attempts)| && |rows.attempts| == |old(rows.attempts)| + 1
      ensures raised >= old(raised) && (pair.Some? <==> raised == old(raised))
    {
      hide Lawful, TaskPath, Heeded;
      pair := None;
      var attempt := StartAttempt();
      if attempt.Some? {
        currentAttemptId := attempt;
        var agent := StartAgent(attempt.value, predecessor);
        if agent.Some? {
          var ok := SetAgentState(agent.value, AgentState.Running);
          if ok {
            pair := Some((attempt.value, agent.value));
          }
        }
      }
    }

    method FinishAttempt(a: nat, o: Outcome) returns (ok: bool)
      requires Valid() && a < |rows.attempts|
      modifies `paused, `dependencyCompleted, `finishes, `statuses, `rows, `acts, `flags, `raised
      ensures Valid() && StatusesGrow(old(statuses), statuses, calm)
      ensures acts == old(acts) + [On(Command.FinishAttempt(a, o))]
      ensures rows == old(rows) || rows == Finished(old(rows), a, o)
      ensures ok ==> rows == Finished(old(rows), a, o)
      ensures reliable ==> ok
      ensures raised >= old(raised) && (ok <==> raised == old(raised))
    {
      hide Heeded;
      ghost var before := rows;
      var reply, n := ExecuteActivity(On(Command.FinishAttempt(a, o)), Command.FinishAttempt(a, o));
      DeliverOnce(before, Command.FinishAttempt(a, o), n);
      ok := reply.Some?;
    }

    method RecordTerminal(k: Key) returns (ok: bool)
      requires Valid() && (k.Terminal? ==> k.attempt < |rows.attempts|)
      modifies `paused, `dependencyCompleted, `finishes, `statuses, `rows, `acts, `flags, `raised
      ensures Valid() && StatusesGrow(old(statuses), statuses, calm)
      ensures acts == old(acts) + [On(Command.RecordTerminal(k))]
      ensures rows == old(rows) || rows == old(rows).(terminal := old(rows).terminal + {k})
      ensures ok ==> k in rows.terminal
      ensures reliable ==> ok
      ensures raised >= old(raised) && (ok <==> raised == old(raised))
    {
      hide Heeded;
      ghost var before := rows;
      var reply, n := ExecuteActivity(On(Command.RecordTerminal(k)), Command.RecordTerminal(k));
      DeliverOnce(before, Command.RecordTerminal(k), n);
      ok := reply.Some?;
    }

    /** Closing the session of an agent that has failed writes no state. */
    method EndSession(a: nat) returns (ok: bool)
      requires Valid() && a < |rows.agents| && Last(rows.agents[a].history) == AgentState.Failed
      modifies `paused, `dependencyCompleted, `finishes, `statuses, `rows, `acts, `flags, `raised
      ensures Valid() && StatusesGrow(old(statuses), statuses, calm) && rows == old(rows)
      ensures acts == old(acts) + [On(Command.EndSession(a))]
      ensures reliable ==> ok
      ensures raised >= old(raised) && (ok <==> raised == old(raised))
    {
      hide Heeded;
      ghost var before := rows;
      var reply, n := ExecuteActivity(On(Command.EndSession(a)), Command.EndSession(a));
      DeliverOnce(before, Command.EndSession(a), n);
      ok := reply.Some?;
    }

    /** From a running agent to a verifying one: checkpoint, snapshot, execution, checkpoint. */
    method Work(a: nat) returns (ok: bool, again: bool)
      requires Valid() && a < |rows.agents| && Last(rows.agents[a].history) == AgentState.Running
      modifies `paused, `dependencyCompleted, `finishes, `statuses, `rows, `acts, `flags, `raised
      ensures Valid() && StatusesGrow(old(statuses), statuses, calm)
      ensures OnlyAgent(old(rows), rows, a) && old(acts) <= acts
      ensures ok ==> acts == old(acts) + WorkSteps(a, old(paused), again)
      ensures ok ==> rows.agents[a].history
                     == old(rows.agents[a].history) + PauseStates(old(paused)) + PauseStates(again) + [Verifying]
      ensures reliable ==> ok
      ensures raised >= old(raised) && (ok <==> raised == old(raised))
    {
      hide Lawful, TaskPath, Heeded, MayWork, MayAsk, PauseSteps, WorkSteps, PauseStates, StatusesGrow;
      again := false;
      ok := Execute(a);
      ghost var middle := statuses;
      if ok {
        again := paused;
        ok := Checkpoint(a);
        GrowTwice(old(statuses), middle, statuses, calm);
        if ok {
          ghost var later := statuses;
          MayVerify(acts, paused, a);
          ok := SetAgentState(a, Verifying);
          GrowTwice(old(statuses), later, statuses, calm);
          WorkStepsAre(old(acts), a, old(paused), again);
        }
      }
    }

    /** The work itself: a checkpoint, the snapshot and the agent's execution. */
    method Execute(a: nat) returns (ok: bool)
      requires Valid() && a < |rows.agents| && Last(rows.agents[a].history) == AgentState.Running
      modifies `paused, `dependencyCompleted, `finishes, `statuses, `rows, `acts, `flags, `raised
      ensures Valid() && StatusesGrow(old(statuses), statuses, calm)
      ensures OnlyAgent(old(rows), rows, a) && old(acts) <= acts
      ensures ok ==> acts == old(acts) + PauseSteps(a, old(paused)) + [Snapshot] + [ExecuteAgent]
      ensures ok ==> rows.agents[a].history == old(rows.agents[a].history) + PauseStates(old(paused))
                     && Last(rows.agents[a].history) == AgentState.Running
      ensures reliable ==> ok
      ensures raised >= old(raised) && (ok <==> raised == old(raised))
    {
      hide Lawful, TaskPath, Heeded, MayWork, MayAsk, PauseSteps, PauseStates, StatusesGrow;
      ok := Checkpoint(a);
      if ok {
        ghost var middle := statuses;
        ok := Elsewhere(Snapshot);
        GrowTwice(old(statuses), middle, statuses, calm);
        if ok {
          ghost var later := statuses;
          ok := Elsewhere(ExecuteAgent);
          GrowTwice(old(statuses), later, statuses, calm);
        }
      }
    }

    /** The verified attempt is finished and its agent completed or failed. */
    method Close(attempt: nat, agent: nat, o: Outcome) returns (ok: bool)
      requires Valid() && attempt < |rows.attempts| && agent < |rows.agents| && Last(rows.agents[agent].history) == Verifying
      modifies `paused, `dependencyCompleted, `finishes, `statuses, `rows, `acts, `flags, `raised
      ensures Valid() && StatusesGrow(old(statuses), statuses, calm)
      ensures Closed(old(rows), rows, attempt, agent) && old(acts) <= acts
      ensures ok ==> rows.attempts[attempt].outcome == Some(o) && acts == old(acts) + CloseSteps(attempt, agent, o)
                     && rows.agents[agent].history == old(rows.agents[agent].history) + [EndState(o)]
      ensures reliable ==> ok
      ensures raised >= old(raised) && (ok <==> raised == old(raised))
    {
      hide Lawful, TaskPath, Heeded;
      ok := FinishAttempt(attempt, o);
      if ok {
        ok := SetAgentState(agent, EndState(o));
        Regroup(old(acts), [On(Command.FinishAttempt(attempt, o))], [Move(agent, EndState(o))]);
      }
    }

    /** One attempt from start to finish; whatever the agent reports is the outcome. */
    method RunAttempt(predecessor: Option<nat>) returns (t: Option<Try>)
      requires Valid()
      modifies `paused, `dependencyCompleted, `finishes, `statuses, `rows, `acts, `flags, `raised, `currentAttemptId
      ensures Valid() && StatusesGrow(old(statuses), statuses, calm)
      ensures Extends(old(rows), rows) && rows.terminal == old(rows.terminal)
      ensures t.Some? ==> Told(rows, t.value, predecessor) && OneFinished(old(rows), rows, t.value.attempt)
                          && acts == old(acts) + AttemptSteps(t.value, predecessor) && currentAttemptId == Some(t.value.attempt)
      ensures old(acts) <= acts && |rows.attempts| <= |old(rows.attempts)| + DELIVERIES
      ensures currentAttemptId == old(currentAttemptId)
              || (currentAttemptId.Some? && |old(rows.attempts)| <= currentAttemptId.value < |rows.attempts|)
      ensures reliable ==> t.Some? && t.value.attempt == |old(rows.attempts)| && |rows.attempts| == |old(rows.attempts)| + 1
      ensures raised >= old(raised) && (t.Some? <==> raised == old(raised))
    {
      hide Lawful, TaskPath, Heeded, OpenSteps, WorkSteps, CloseSteps, AttemptSteps, AttemptStates, PauseStates, EndState;
      t := None;
      var pair := Open(predecessor);
      if pair.Some? {
        var attempt, agent := pair.value.0, pair.value.1;
        var first := paused;
        var ok, again := Work(agent);
        if ok {
          var o: Outcome := *;
          var f: FailureClass := *;
          ok := Close(attempt, agent, o);
          if ok {
            t := Some(Try(attempt, agent, o, f, first, again));
            AttemptAsked(old(acts), t.value, predecessor);
            AttemptWentThrough(t.value);
          }
        }
      }
    }

    /** `_set_status` and its activity: asking for the status the task has is already done. */
    method SetStatus(s: TaskStatus) returns (ok: bool)
      requires Valid()
      modifies `paused, `dependencyCompleted, `finishes, `statuses, `acts, `flags, `raised
      ensures Valid() && old(statuses) <= statuses && OnlySignalled() && acts == old(acts) + [SetTaskStatus(s)]
      ensures old(dependencyCompleted) ==> dependencyCompleted
      ensures calm ==> statuses == old(statuses) || (CanMove(old(Status()), s) && statuses == old(statuses) + [s])
      ensures ok ==> Had(statuses, |old(statuses)| - 1, s)
      ensures calm && ok ==> Status() == s
      ensures calm && reliable && (old(Status()) == s || CanMove(old(Status()), s)) ==> ok
      ensures raised >= old(raised) && (ok <==> raised == old(raised))
    {
      hide Heeded, Lawful;
      HeededGrows(acts, flags, SetTaskStatus(s), paused);
      acts, flags := acts + [SetTaskStatus(s)], flags + [paused];
      ok := false;
      var i := 0;
      while i < DELIVERIES
        invariant Valid() && old(statuses) <= statuses && OnlySignalled() && (old(dependencyCompleted) ==> dependencyCompleted)
        invariant acts == old(acts) + [SetTaskStatus(s)] && raised == old(raised)
        invariant calm ==> statuses == old(statuses) || (CanMove(old(Status()), s) && statuses == old(statuses) + [s])
        invariant calm && reliable && (old(Status()) == s || CanMove(old(Status()), s)) ==> i == 0
      {
        Await();
        i := i + 1;
        var lost: bool := *;
        if !lost || reliable {
          var lawful := Last(statuses) == s;
          if !lawful && CanMove(Last(statuses), s) {
            statuses := statuses + [s];
            lawful := true;
          }
          var acknowledged: bool := *;
          if lawful && (acknowledged || reliable) {
            assert |old(statuses)| - 1 <= |statuses| - 1 && statuses[|statuses| - 1] == s;
            ok := true;
            return;
          }
        }
      }
      raised := raised + 1;
    }

    /** `_wait_for_dependency`; nothing when an activity raised, else whether the wait was met, which
        for unfinished dependencies takes a signal that came after they were asked for. */
    method WaitForDependency() returns (met: Option<bool>, ghost unfinished: bool)
      requires Valid()
      modifies `paused, `dependencyCompleted, `finishes, `statuses, `rows, `acts, `flags, `raised
      ensures Valid() && old(statuses) <= statuses && rows == old(rows) && old(acts) <= acts
      ensures met.Some? ==> acts == old(acts) + WaitSteps(unfinished, met.value)
      ensures met.Some? ==> if unfinished && met.value then finishes > old(finishes)
                            else met.value == !unfinished && (unfinished ==> !dependencyCompleted)
      ensures calm && old(Status()) == TaskStatus.Running ==>
                Status() == (if met == Some(true) then TaskStatus.Running else Status())
                && (Status() == TaskStatus.Running || Status() == TaskStatus.Blocked)
                && (reliable ==> met.Some?)
      ensures raised >= old(raised) && (met.Some? <==> raised == old(raised))
    {
      hide Lawful, TaskPath, Heeded;
      met, unfinished := None, false;
      var ok := Elsewhere(DependencyStatus);
      if ok {
        var open: bool := *;
        unfinished := open;
        dependencyCompleted := false;
        ok := Elsewhere(RecordEvent(DependencyWaitStarted));
        if ok {
          if open {
            met := Park();
          } else {
            ok := Elsewhere(RecordEvent(DependencyResumed));
            met := if ok then Some(true) else None;
          }
        }
      }
    }

    /** Blocked until the signal or the deadline, then running again. */
    method Park() returns (met: Option<bool>)
      requires Valid()
      modifies `paused, `dependencyCompleted, `finishes, `statuses, `rows, `acts, `flags, `raised
      ensures Valid() && old(statuses) <= statuses && rows == old(rows) && old(acts) <= acts && finishes >= old(finishes)
      ensures met == Some(true) ==>
                acts == old(acts) + [SetTaskStatus(TaskStatus.Blocked), RecordEvent(DependencyResumed), SetTaskStatus(TaskStatus.Running)]
                && (old(dependencyCompleted) || finishes > old(finishes))
      ensures met == Some(false) ==> acts == old(acts) + [SetTaskStatus(TaskStatus.Blocked)] && !dependencyCompleted
      ensures calm && old(Status()) == TaskStatus.Running ==>
                Status() == (if met == Some(true) then TaskStatus.Running else Status())
                && (Status() == TaskStatus.Running || Status() == TaskStatus.Blocked)
                && (reliable ==> met.Some?)
      ensures raised >= old(raised) && (met.Some? <==> raised == old(raised))
    {
      hide Lawful, TaskPath, Heeded;
      met := None;
      var ok := SetStatus(TaskStatus.Blocked);
      if ok {
        Await();
        if !dependencyCompleted {
          return Some(false);
        }
        ok := Elsewhere(RecordEvent(DependencyResumed));
        if ok {
          ok := SetStatus(TaskStatus.Running);
          met := if ok then Some(true) else None;
        }
      }
    }

    /** An operator gate: nothing when the activity raised, else the answer. */
    method Gate() returns (approved: Option<bool>)
      requires Valid()
      modifies `paused, `dependencyCompleted, `finishes, `statuses, `rows, `acts, `flags, `raised
      ensures Valid() && StatusesGrow(old(statuses), statuses, calm) && rows == old(rows)
      ensures acts == old(acts) + [HitlGate]
      ensures reliable ==> approved.Some?
      ensures raised >= old(raised) && (approved.Some? <==> raised == old(raised))
    {
      hide Heeded;
      var ok := Elsewhere(HitlGate);
      var answer: bool := *;
      approved := if ok then Some(answer) else None;
    }

    /** Follow-up activities, then the terminal record. */
    method Terminate(attempt: nat, followUps: seq<Activity>) returns (v: Verdict)
      requires Valid() && attempt < |rows.attempts| && forall f | f in followUps :: !f.On? && f != Snapshot
      modifies `paused, `dependencyCompleted, `finishes, `statuses, `rows, `acts, `flags, `raised
      ensures Valid() && StatusesGrow(old(statuses), statuses, calm) && old(acts) <= acts
      ensures OnlyTerminal(old(rows), rows, Terminal(attempt))
      ensures v == Raises || (v == Ends(TerminalRecorded) && Terminal(attempt) in rows.terminal
                              && acts == old(acts) + (followUps + [RecordFailure(attempt)]))
      ensures reliable ==> v != Raises
      ensures raised >= old(raised) && (v != Raises <==> raised == old(raised))
    {
      hide Heeded;
      v := Raises;
      for i := 0 to |followUps|
        invariant Valid() && StatusesGrow(old(statuses), statuses, calm) && rows == old(rows)
        invariant acts == old(acts) + followUps[..i] && raised == old(raised)
      {
        var done := Elsewhere(followUps[i]);
        assert followUps[..i + 1] == followUps[..i] + [followUps[i]];
        if !done {
          return;
        }
      }
      assert followUps[..|followUps|] == followUps;
      var ok := RecordTerminal(Terminal(attempt));
      if ok {
        v := Ends(TerminalRecorded);
      }
    }

    /** The recovery step after a failed attempt, for whatever the policy decided. */
    method Recover(d: Decision, attempt: nat, agent: nat) returns (v: Verdict)
      requires Valid() && attempt < |rows.attempts|
      requires agent < |rows.agents| && Last(rows.agents[agent].history) == AgentState.Failed
      modifies `paused, `dependencyCompleted, `finishes, `statuses, `rows, `acts, `flags, `raised, `asked
      ensures Valid() && old(statuses) <= statuses && old(acts) <= acts
      ensures OnlyTerminal(old(rows), rows, Terminal(attempt))
      ensures (v == Raises || v == Concluded(d, asked)) && v != Ends(Succeeded) && (v.Continues? ==> rows == old(rows))
      ensures v.Ends? ==> if v.exit == TerminalRecorded then Terminal(attempt) in rows.terminal else rows == old(rows)
      ensures v != Raises ==> AskedRight(d, asked) && acts == old(acts) + RecoverSteps(d, asked, attempt, agent)
      ensures calm && old(Status()) == TaskStatus.Running ==>
                (Status() == TaskStatus.Running || (Status() == TaskStatus.Blocked && !v.Continues?))
                && (reliable ==> v != Raises)
      ensures raised >= old(raised) && (v != Raises <==> raised == old(raised))
    {
      hide Lawful, TaskPath, Heeded, RecoverSteps, ActionSteps, RetrySteps, AskedRight;
      v, asked := Raises, UNASKED;
      var ok := Elsewhere(RecordEvent(RecoverySelected));
      if !ok {
        return;
      }
      if d.action == Stop || d.action == EscalateOrReplan {
        v := Terminate(attempt, if d.action == Stop then [] else [Replan]);
        EarlySteps(d, attempt, agent, old(acts));
        return;
      }
      var go := AskBudget(d);
      if go.None? {
        return;
      }
      if No(go) {
        RejectedSteps(d, asked, attempt, agent, old(acts));
        return Ends(GateRejected);
      }
      ghost var gated := acts;
      v := Act(d, attempt, agent);
      if v != Raises {
        RecoverStepsAre(d, asked, attempt, agent, old(acts), gated, acts);
      }
    }

    /** The budget is checked, and its gate opened when the decision is sensitive to it and it is exceeded. */
    method AskBudget(d: Decision) returns (go: Option<bool>)
      requires Valid() && asked == UNASKED && d.action != Stop && d.action != EscalateOrReplan
      modifies `paused, `dependencyCompleted, `finishes, `statuses, `rows, `acts, `flags, `raised, `asked
      ensures Valid() && StatusesGrow(old(statuses), statuses, calm) && rows == old(rows) && old(acts) <= acts
      ensures asked == UNASKED.(withinBudget := asked.withinBudget, budgetGate := asked.budgetGate)
      ensures go.Some? ==> (go.value <==> !BudgetRejects(d, asked))
                           && asked.withinBudget.Some? && (asked.budgetGate.Some? <==> d.budgetSensitive && No(asked.withinBudget))
                           && acts == old(acts) + [RecoveryBudget] + if asked.budgetGate.Some? then [HitlGate] else []
      ensures reliable ==> go.Some?
      ensures raised >= old(raised) && (go.Some? <==> raised == old(raised))
    {
      hide Lawful, TaskPath, Heeded;
      go := None;
      var ok := Elsewhere(RecoveryBudget);
      if ok {
        var withinBudget: bool := *;
        asked := asked.(withinBudget := Some(withinBudget));
        if d.budgetSensitive && !withinBudget {
          go := Gate();
          asked := asked.(budgetGate := go);
        } else {
          go := Some(true);
        }
      }
    }

    /** What each continuing action does, and the retry that follows. */
    method Act(d: Decision, attempt: nat, agent: nat) returns (v: Verdict)
      requires Valid() && attempt < |rows.attempts|
      requires agent < |rows.agents| && Last(rows.agents[agent].history) == AgentState.Failed
      requires d.action != Stop && d.action != EscalateOrReplan
      requires !BudgetRejects(d, asked) && asked.operatorGate.None? && asked.waitMet.None? && asked.unfinished.None?
      requires asked.withinBudget.Some? && (asked.budgetGate.Some? <==> d.budgetSensitive && No(asked.withinBudget))
      modifies `paused, `dependencyCompleted, `finishes, `statuses, `rows, `acts, `flags, `raised, `asked
      ensures Valid() && old(statuses) <= statuses && old(acts) <= acts
      ensures OnlyTerminal(old(rows), rows, Terminal(attempt))
      ensures (v == Raises || v == Concluded(d, asked)) && v != Ends(GateRejected) && (v.Continues? ==> rows == old(rows))
      ensures v.Ends? ==> if v.exit == TerminalRecorded then Terminal(attempt) in rows.terminal else rows == old(rows)
      ensures asked.withinBudget == old(asked).withinBudget && asked.budgetGate == old(asked).budgetGate
      ensures v != Raises ==> AskedRight(d, asked)
                              && acts == old(acts) + ActionSteps(d, asked, attempt, agent) + RetrySteps(d)
      ensures calm && old(Status()) == TaskStatus.Running ==>
                (Status() == TaskStatus.Running || (Status() == TaskStatus.Blocked && !v.Continues?))
                && (reliable ==> v != Raises)
      ensures raised >= old(raised) && (v != Raises <==> raised == old(raised))
    {
      hide Lawful, TaskPath, Heeded, WaitSteps, ActionSteps, RetrySteps, AskedRight;
      v := Raises;
      var ok := true;
      if d.action == SpawnDebugger || d.action == CreateIntegrationTask {
        v := Terminate(attempt, FollowUps(d.action));
        HandedOver(d, asked, attempt, agent);
        return;
      }
      if d.action == Action.WaitForDependency {
        var met := ActWait(d, attempt, agent);
        if No(met) {
          return Ends(WaitTimedOut);
        }
        ok := met.Some?;
      } else if d.action == RequestHitl {
        var approved := Gate();
        asked := asked.(operatorGate := approved);
        OperatorAsked(d, asked, attempt, agent, old(acts));
        if No(approved) {
          v := Terminate(attempt, []);
          return;
        }
        ok := approved.Some?;
      } else {
        ok := Prepare(d, asked, attempt, agent);
      }
      if ok {
        ok := Retry(d);
      }
      v := if ok then Continues else Raises;
    }

    /** The wait for dependencies, as a recovery step. */
    method ActWait(d: Decision, ghost attempt: nat, ghost agent: nat) returns (met: Option<bool>)
      requires Valid() && d.action == Action.WaitForDependency && !BudgetRejects(d, asked)
      requires asked.operatorGate.None? && asked.waitMet.None? && asked.unfinished.None?
      requires asked.withinBudget.Some? && (asked.budgetGate.Some? <==> d.budgetSensitive && No(asked.withinBudget))
      modifies `paused, `dependencyCompleted, `finishes, `statuses, `rows, `acts, `flags, `raised, `asked
      ensures Valid() && old(statuses) <= statuses && rows == old(rows) && old(acts) <= acts
      ensures asked == old(asked).(waitMet := asked.waitMet, unfinished := asked.unfinished)
      ensures met.Some? ==> met == asked.waitMet && acts == old(acts) + ActionSteps(d, asked, attempt, agent)
                            && AskedRight(d, asked) && RetrySteps(d) == []
      ensures calm && old(Status()) == TaskStatus.Running ==>
                (Status() == TaskStatus.Running || (Status() == TaskStatus.Blocked && met != Some(true)))
                && (reliable ==> met.Some?)
      ensures raised >= old(raised) && (met.Some? <==> raised == old(raised))
    {
      hide Lawful, TaskPath, Heeded, WaitSteps, ActionSteps, RetrySteps, AskedRight;
      ghost var unfinished;
      met, unfinished := WaitForDependency();
      if met.Some? {
        asked := asked.(waitMet := met, unfinished := Some(unfinished));
        Waited(d, asked, attempt, agent);
      }
    }

    /** What an action does before the plain retry. */
    method Prepare(d: Decision, ghost a: Answers, ghost attempt: nat, agent: nat) returns (ok: bool)
      requires Valid() && agent < |rows.agents| && Last(rows.agents[agent].history) == AgentState.Failed
      requires !EndsRun(d.action) && d.action != Action.WaitForDependency && d.action != RequestHitl
      requires a.withinBudget.Some? && (a.budgetGate.Some? <==> d.budgetSensitive && No(a.withinBudget))
      requires a.operatorGate.None? && a.unfinished.None? && a.waitMet.None?
      modifies `paused, `dependencyCompleted, `finishes, `statuses, `rows, `acts, `flags, `raised
      ensures Valid() && StatusesGrow(old(statuses), statuses, calm) && rows == old(rows) && old(acts) <= acts
      ensures ok ==> acts == old(acts) + ActionSteps(d, a, attempt, agent) && AskedRight(d, a)
      ensures reliable ==> ok
      ensures raised >= old(raised) && (ok <==> raised == old(raised))
    {
      hide Lawful, TaskPath, Heeded;
      ok := true;
      match d.action {
        case ReplaceAgent =>
          ok := EndSession(agent);
          if ok {
            ok := Elsewhere(RecordEvent(AgentReplaced));
          }
        case RetryAlternateModel | EscalateModel =>
          ok := Elsewhere(RecordEvent(ModelSwitched));
        case RebuildContext =>
          ok := Elsewhere(RecordEvent(ContextCompacted));
        case _ =>
      }
    }

    /** A retryable action that starts a retry announces it, and the workflow sleeps. */
    method Retry(d: Decision) returns (ok: bool)
      requires Valid()
      modifies `paused, `dependencyCompleted, `finishes, `statuses, `rows, `acts, `flags, `raised
      ensures Valid() && StatusesGrow(old(statuses), statuses, calm) && rows == old(rows) && old(acts) <= acts
      ensures ok ==> acts == old(acts) + RetrySteps(d)
      ensures reliable ==> ok
      ensures raised >= old(raised) && (ok <==> raised == old(raised))
    {
      ok := true;
      if d.retryable && StartsRetry(d.action) {
        ok := Elsewhere(RecordEvent(RetryStarted));
        if ok {
          HeededGrows(acts, flags, Backoff, paused);
          acts, flags := acts + [Backoff], flags + [paused];
          hide Heeded;
          Await();
        }
      }
    }

    /** One turn of the attempt loop: an attempt and, unless it succeeded, its recovery. */
    method Turn(policy: Policy, max: nat, previous: Option<nat>, history: seq<Entry>, ghost before: Rows, ghost start: seq<Activity>)
        returns (v: Verdict, grown: seq<Entry>, agent: Option<nat>)
      requires Valid() && |tries| < max && previous == Predecessor(tries, |tries|)
      requires MidRun(policy, max, before, rows, tries, history) && Counted(reliable, before, rows, tries, 0)
      requires NotesRight(policy, max, tries, notes) && acts == start + RunSteps(policy, max, tries, notes, |tries|)
      modifies this
      ensures Valid() && old(statuses) <= statuses && old(acts) <= acts
      ensures Extends(before, rows) && TriesTold(before, rows, tries)
      ensures |tries| <= |old(tries)| + 1 && Counted(reliable, before, rows, tries, if v == Raises then 1 else 0)
      ensures v != Raises ==> |tries| == |old(tries)| + 1 && agent == Predecessor(tries, |tries|)
                              && NotesRight(policy, max, tries, notes)
                              && acts == start + RunSteps(policy, max, tries, notes, |tries|)
      ensures v.Continues? ==> MidRun(policy, max, before, rows, tries, grown)
                               && Concluded(LastDecision(policy, max, tries), asked) == Continues
      ensures v.Ends? ==> AllAccounted(before, rows, tries)
                          && SummaryFits(policy, max, rows, tries, asked, Summary(|tries|, v.exit == Succeeded, grown))
      ensures v != Raises && v != Ends(Succeeded) ==> asked == Last(notes)
      ensures calm && old(Status()) == TaskStatus.Running ==> SteadyAfter(v, Status()) && (reliable ==> v != Raises)
      ensures raised >= old(raised) && (v != Raises <==> raised == old(raised))
    {
      hide Told, OneFinished, Lawful, Counted, SummaryFits, AllAccounted, TriesTold, HistoryFits, AllContinue, Concluded, OnlyTerminal;
      hide Heeded, TaskPath, AttemptSteps, RecoverSteps, AskedRight, RunSteps, Predecessor, LastDecision, EntryOf;
      assert |history| == |tries| && Extends(before, rows) && TriesTold(before, rows, tries);
      hide MidRun;
      v, grown, agent := Raises, history, None;
      ghost var earlier, done, told := rows, tries, notes;
      var t := RunAttempt(previous);
      if t.None? {
        TriesStayTold(before, earlier, rows, tries);
        CountedOpen(reliable, before, earlier, rows, tries);
        return;
      }
      CountedAfterTry(reliable, before, earlier, rows, tries, t.value);
      LastTry(policy, max, tries, t.value);
      tries, agent := tries + [t.value], Some(t.value.agent);
      if t.value.outcome == Success {
        AfterSuccess(policy, max, before, earlier, rows, done, history, t.value, asked);
        v, notes := Ends(Succeeded), notes + [UNASKED];
        RunStepsGrow(policy, max, done, told, t.value, UNASKED, start, acts);
        return;
      }
      ghost var failed := rows;
      FailedLast(rows, t.value, previous);
      var d := policy(t.value.failure, |history| + 1, max);
      v := Recover(d, t.value.attempt, t.value.agent);
      notes := notes + [asked];
      AfterFailure(policy, max, before, earlier, failed, rows, done, history, t.value, asked, v);
      OnlyTerminalKeeps(failed, rows, Terminal(t.value.attempt));
      CountedStays(reliable, before, failed, rows, tries, 0);
      grown := history + [Entry(|history| + 1, t.value.attempt, t.value.failure, d.action)];
      if v != Raises {
        RunStepsGrow(policy, max, done, told, t.value, asked, start, acts);
        NotesGrow(policy, max, done, told, t.value, asked);
      }
    }

    /** The bounded attempt loop of `_execute`. */
    method AttemptLoop(policy: Policy, max: nat) returns (s: Option<Summary>)
      requires Valid() && max >= 1
      modifies this
      ensures Valid() && old(statuses) <= statuses && old(acts) <= acts
      ensures Extends(old(rows), rows) && TriesTold(old(rows), rows, tries)
      ensures |tries| <= max && Counted(reliable, old(rows), rows, tries, if s.None? then 1 else 0)
      ensures s.Some? ==> AllAccounted(old(rows), rows, tries) && SummaryFits(policy, max, rows, tries, asked, s.value)
      ensures s.Some? ==> NotesRight(policy, max, tries, notes) && acts == old(acts) + RunSteps(policy, max, tries, notes, |tries|)
      ensures s.Some? && !s.value.success ==> |tries| > 0 && |notes| == |tries| && asked == Last(notes)
      ensures calm && old(Status()) == TaskStatus.Running ==>
                (s.Some? ==> Status() == TaskStatus.Running || (Status() == TaskStatus.Blocked && !s.value.success))
                && (reliable ==> s.Some?)
      ensures raised >= old(raised) && (s.Some? <==> raised == old(raised))
    {
      hide Heeded, Lawful, RunSteps, NotesRight, MidRun, Counted, SummaryFits, TriesTold, AllAccounted, Concluded, Extends;
      ghost var before, start := rows, acts;
      tries, notes := [], [];
      NothingRun(policy, max, reliable, rows);
      var history: seq<Entry> := [];
      var previous: Option<nat> := None;
      var number := 1;
      while number <= max
        invariant 1 <= number <= max + 1 && number == |tries| + 1 && previous == Predecessor(tries, |tries|)
        invariant Valid() && old(statuses) <= statuses && old(acts) <= acts
        invariant MidRun(policy, max, before, rows, tries, history) && Counted(reliable, before, rows, tries, 0)
        invariant |notes| == |tries| && NotesRight(policy, max, tries, notes)
        invariant acts == start + RunSteps(policy, max, tries, notes, |tries|) && raised == old(raised)
        invariant |tries| > 0 ==> Concluded(LastDecision(policy, max, tries), asked) == Continues && asked == Last(notes)
        invariant calm && old(Status()) == TaskStatus.Running ==> Status() == TaskStatus.Running
      {
        var v: Verdict;
        v, history, previous := Turn(policy, max, previous, history, before, start);
        NotesCount(policy, max, tries, notes);
        match v {
          case Raises => return None;
          case Ends(exit) => return Some(Summary(number, exit == Succeeded, history));
          case Continues => number := number + 1;
        }
      }
      RunOut(policy, max, before, rows, tries, history, asked);
      s := Some(Summary(max, false, history));
    }

    /** The entry of `_execute`: pending tasks go through ready, then everything runs. */
    method Enter(loaded: TaskStatus) returns (ok: bool)
      requires Valid()
      modifies `paused, `dependencyCompleted, `finishes, `statuses, `acts, `flags, `raised
      ensures Valid() && old(statuses) <= statuses && old(acts) <= acts
      ensures ok ==> acts == old(acts) + EnterSteps(loaded)
      ensures Final(old(Status())) ==> !ok
      ensures calm && ok ==> Status() == TaskStatus.Running
      ensures calm && reliable && loaded == old(Status()) && !Final(loaded) ==> ok
      ensures raised >= old(raised) && (ok <==> raised == old(raised))
    {
      hide Heeded;
      ok := true;
      if loaded == Pending {
        ok := SetStatus(Ready);
      }
      if ok {
        ok := SetStatus(TaskStatus.Running);
      }
      if Final(old(Status())) {
        FrozenWhenFinal(old(statuses), statuses);
      }
    }

    /** The signals to dependent tasks, whose own failures are suppressed. */
    method WakeDependents()
      requires Valid()
      modifies `paused, `dependencyCompleted, `finishes, `statuses, `acts, `flags
      ensures Valid() && StatusesGrow(old(statuses), statuses, calm) && acts == old(acts) + [Wake]
    {
      hide Heeded;
      HeededGrows(acts, flags, Wake, paused);
      acts, flags := acts + [Wake], flags + [paused];
      Await();
    }

    /** The end of `_execute`: the final status, its event and, on success, the wake-up of dependents,
        whose own failures are suppressed. */
    method Conclude(success: bool) returns (ok: bool)
      requires Valid()
      modifies `paused, `dependencyCompleted, `finishes, `statuses, `rows, `acts, `flags, `raised
      ensures Valid() && old(statuses) <= statuses && rows == old(rows) && old(acts) <= acts
      ensures ok ==> acts == old(acts) + ConcludeSteps(success)
      ensures ok && success ==> Status() == TaskStatus.Completed
      ensures calm && ok ==> Status() == (if success then TaskStatus.Completed else TaskStatus.Failed)
      ensures calm && reliable && (old(Status()) == TaskStatus.Running || (old(Status()) == TaskStatus.Blocked && !success)) ==> ok
      ensures raised >= old(raised) && (ok <==> raised == old(raised))
    {
      hide Heeded;
      var final := if success then TaskStatus.Completed else TaskStatus.Failed;
      ok := SetStatus(final);
      if ok {
        ghost var closed := statuses;
        if success {
          HadFinalIsLast(statuses, |old(statuses)| - 1, final);
        }
        ok := Elsewhere(RecordEvent(if success then TaskCompleted else TaskFailed));
        if ok && success {
          ok := Elsewhere(Dependents);
          if ok {
            WakeDependents();
          }
        }
        if success {
          FrozenWhenFinal(closed, statuses);
        }
      }
    }

    /** `_execute`, for the task as it was loaded. */
    method ExecuteTask(loaded: TaskStatus, policy: Policy, maxAttempts: int) returns (s: Option<Summary>)
      requires Valid()
      modifies this
      ensures Valid() && old(statuses) <= statuses && Extends(old(rows), rows) && old(acts) <= acts
      ensures |tries| <= MaxAttempts(maxAttempts) && Counted(reliable, old(rows), rows, tries, if s.None? then 1 else 0)
      ensures Final(old(Status())) ==> s.None? && rows == old(rows)
      ensures s.Some? ==> RunTold(policy, MaxAttempts(maxAttempts), old(rows), rows, tries, asked, s.value)
                          && (s.value.success ==> Status() == TaskStatus.Completed)
      ensures s.Some? ==> RunAsked(policy, MaxAttempts(maxAttempts), loaded, tries, notes, old(acts), acts, s.value.success)
      ensures s.Some? && !s.value.success ==> |notes| > 0 && asked == Last(notes)
      ensures calm && s.Some? && !s.value.success ==> Status() == TaskStatus.Failed
      ensures calm && reliable && loaded == old(Status()) && !Final(loaded) ==> s.Some?
      ensures raised >= old(raised) && (s.Some? <==> raised == old(raised))
    {
      hide Heeded, TaskPath, Lawful, EnterSteps, ConcludeSteps, RunSteps, NotesRight;
      s, tries, notes := None, [], [];
      var ok := Enter(loaded);
      if ok {
        s := AttemptLoop(policy, MaxAttempts(maxAttempts));
        if s.Some? {
          NotesCount(policy, MaxAttempts(maxAttempts), tries, notes);
          ok := Conclude(s.value.success);
          if !ok {
            s := None;
          }
        }
      }
    }

    /** `load_task_activity`. */
    method Load() returns (task: Option<(TaskStatus, seq<Attempt>)>)
      requires Valid()
      modifies `paused, `dependencyCompleted, `finishes, `statuses, `rows, `acts, `flags, `raised
      ensures Valid() && StatusesGrow(old(statuses), statuses, calm) && rows == old(rows)
      ensures acts == old(acts) + [LoadTask]
      ensures task.Some? ==> task.value == (Status(), rows.attempts)
      ensures reliable ==> task.Some?
      ensures raised >= old(raised) && (task.Some? <==> raised == old(raised))
    {
      hide Heeded;
      var ok := Elsewhere(LoadTask);
      task := if ok then Some((Status(), rows.attempts)) else None;
    }

    /** The status half of `_reconcile_terminal_failure`. */
    method MarkTerminal(loaded: TaskStatus) returns (ghost through: bool)
      requires Valid() && !Final(loaded) && loaded != TaskStatus.Failed
      modifies `paused, `dependencyCompleted, `finishes, `statuses, `acts, `flags, `raised
      ensures Valid() && old(statuses) <= statuses && acts == old(acts) + MarkSteps(loaded, through)
      ensures calm && old(Status()) == loaded ==> Marked(loaded, Status(), reliable)
      ensures calm && reliable && old(Status()) == loaded ==> through
      ensures raised >= old(raised)
    {
      hide Heeded;
      var target := if loaded == Pending then TaskStatus.Cancelled else TaskStatus.Failed;
      var ok := true;
      if loaded == Ready && target == TaskStatus.Failed {
        ok := SetStatus(TaskStatus.Running);
      }
      through := ok;
      if ok {
        ok := SetStatus(target);
      }
    }

    /** `_reconcile_terminal_failure`. */
    method ReconcileTerminalFailure(attemptId: Option<nat>) returns (ghost loaded: Option<TaskStatus>, ghost through: bool)
      requires Valid()
      modifies `paused, `dependencyCompleted, `finishes, `statuses, `rows, `acts, `flags, `raised
      ensures Valid() && old(statuses) <= statuses
      ensures Reconciled(old(rows), rows, attemptId)
      ensures Final(old(Status())) ==> rows == old(rows)
      ensures acts == old(acts) + [LoadTask] + ReconcileSteps(loaded, attemptId, old(rows.attempts), through)
      ensures calm && loaded.Some? ==> loaded == Some(old(Status()))
      ensures reliable ==> loaded.Some?
      ensures calm && reliable ==> through
      ensures calm && old(Status()) == TaskStatus.Failed ==> rows == old(rows) && statuses == old(statuses)
      ensures calm && !Final(old(Status())) && old(Status()) != TaskStatus.Failed ==>
                Marked(old(Status()), Status(), reliable) || Status() == old(Status())
      ensures calm && reliable && !Final(old(Status())) ==>
                Status() == if old(Status()) == Pending then TaskStatus.Cancelled else TaskStatus.Failed
      ensures raised >= old(raised)
    {
      hide Heeded, MarkSteps;
      loaded, through := None, true;
      var task := Load();
      if task.None? {
        return;
      }
      if Final(old(Status())) {
        FrozenWhenFinal(old(statuses), statuses);
      }
      var status, attempts := task.value.0, task.value.1;
      loaded := Some(status);
      if Final(status) || status == TaskStatus.Failed {
        return;
      }
      through := CleanUp(status, attemptId, attempts);
    }

    /** The guarded steps after the task was loaded. */
    method CleanUp(loaded: TaskStatus, attemptId: Option<nat>, attempts: seq<Attempt>) returns (ghost through: bool)
      requires Valid() && !Final(loaded) && loaded != TaskStatus.Failed && attempts == rows.attempts
      modifies `paused, `dependencyCompleted, `finishes, `statuses, `rows, `acts, `flags, `raised
      ensures Valid() && old(statuses) <= statuses
      ensures Reconciled(old(rows), rows, attemptId)
      ensures acts == old(acts) + ReconcileSteps(Some(loaded), attemptId, attempts, through)
      ensures calm && old(Status()) == loaded ==> Marked(loaded, Status(), reliable) && (reliable ==> through)
      ensures raised >= old(raised)
    {
      hide Heeded, MarkSteps, Lawful, Marked;
      ghost var finish: seq<Activity> := [];
      if attemptId.Some? && attemptId.value < |attempts| && attempts[attemptId.value].outcome.None? {
        finish := [On(Command.FinishAttempt(attemptId.value, if loaded == Pending then Withdrawn else Failure))];
        var _ := FinishAttempt(attemptId.value, if loaded == Pending then Withdrawn else Failure);
      }
      var _ := RecordTerminal(Key.Reconcile);
      through := MarkTerminal(loaded);
      var _ := Elsewhere(RecordEvent(TaskFailed));
      assert acts == old(acts)
                     + (finish + [On(Command.RecordTerminal(Key.Reconcile))] + MarkSteps(loaded, through) + [RecordEvent(TaskFailed)]);
    }

    /** `run`. */
    method Run(policy: Policy, maxAttempts: int) returns (s: Option<Summary>, ghost loaded: TaskStatus)
      requires Valid()
      modifies this
      ensures Valid() && old(statuses) <= statuses && NoneRewritten(old(rows), rows)
      ensures |tries| <= MaxAttempts(maxAttempts) && Counted(reliable, old(rows), rows, tries, if s.None? then 1 else 0)
      ensures Final(old(Status())) ==> s.None? && rows == old(rows) && statuses == old(statuses)
      ensures s.Some? ==> RunTold(policy, MaxAttempts(maxAttempts), old(rows), rows, tries, asked, s.value)
                          && (s.value.success ==> Status() == TaskStatus.Completed)
      ensures s.Some? ==> RunAsked(policy, MaxAttempts(maxAttempts), loaded, tries, notes, old(acts) + [LoadTask], acts, s.value.success)
                          && (calm ==> loaded == old(Status()))
      ensures s.Some? && !s.value.success ==> |notes| > 0 && asked == Last(notes)
      ensures calm && s.Some? && !s.value.success ==> Status() == TaskStatus.Failed
      ensures calm && reliable && !Final(old(Status())) ==> s.Some?
      ensures raised >= old(raised) && (s.Some? <==> raised == old(raised))
    {
      hide Counted, RunTold, Marked, Heeded, RunAsked;
      s, tries, notes, loaded := None, [], [], Pending;
      CountedNone(reliable, rows);
      var task := Load();
      if task.Some? {
        loaded := task.value.0;
        s := ExecuteTask(task.value.0, policy, maxAttempts);
        if s.None? {
          ghost var raised := rows;
          var _, _ := ReconcileTerminalFailure(currentAttemptId);
          CountedStays(reliable, old(rows), raised, rows, tries, 1);
        }
      }
      if Final(old(Status())) {
        FrozenWhenFinal(old(statuses), statuses);
      }
    }
  }
}
