/** The two transition tables the durable workflow runs against: agents
    (services/api/app/agents_runtime/lifecycle.py) and tasks
    (services/api/app/services/planning/tasks.py). */
module Lifecycle {
  datatype AgentState =
    | Created | Planning | Running | Waiting | Blocked | PauseRequested | Draining | Paused
    | Resuming | Verifying | Completed | Failed | Recovering | Cancelled

  datatype TaskStatus = Pending | Ready | Running | Blocked | Completed | Failed | Cancelled

  /** `TRANSITIONS`. */
  predicate CanTransition(from: AgentState, to: AgentState) {
    match from
    case Created => to == Planning || to == AgentState.Running || to == AgentState.Cancelled
    case Planning => to == AgentState.Running || to == AgentState.Failed || to == AgentState.Cancelled
    case Running =>
      to == Waiting || to == AgentState.Blocked || to == PauseRequested || to == Verifying
      || to == AgentState.Failed || to == AgentState.Cancelled
    case Waiting =>
      to == AgentState.Running || to == AgentState.Blocked || to == AgentState.Failed || to == AgentState.Cancelled
    case Blocked => to == AgentState.Running || to == AgentState.Failed || to == AgentState.Cancelled
    case PauseRequested => to == Paused || to == AgentState.Running || to == AgentState.Cancelled
    case Draining => to == Paused || to == AgentState.Running || to == AgentState.Cancelled
    case Paused => to == Resuming || to == AgentState.Cancelled
    case Resuming => to == AgentState.Running || to == AgentState.Failed || to == AgentState.Cancelled
    case Verifying =>
      to == AgentState.Completed || to == AgentState.Running || to == AgentState.Failed || to == AgentState.Cancelled
    case Failed => to == Recovering || to == AgentState.Cancelled
    case Recovering => to == AgentState.Running || to == Planning || to == AgentState.Failed || to == AgentState.Cancelled
    case Completed => false
    case Cancelled => false
  }

  /** `TASK_TRANSITIONS`. */
  predicate CanMove(from: TaskStatus, to: TaskStatus) {
    match from
    case Pending => to == Ready || to == TaskStatus.Cancelled
    case Ready => to == TaskStatus.Running || to == TaskStatus.Blocked || to == TaskStatus.Cancelled
    case Running =>
      to == TaskStatus.Blocked || to == TaskStatus.Completed || to == TaskStatus.Failed || to == TaskStatus.Cancelled
    case Blocked => to == Ready || to == TaskStatus.Running || to == TaskStatus.Failed || to == TaskStatus.Cancelled
    case Failed => to == Ready || to == TaskStatus.Running || to == TaskStatus.Cancelled
    case Completed => false
    case Cancelled => false
  }

  function Last<T>(s: seq<T>): T
    requires |s| > 0
  {
    s[|s| - 1]
  }

  /** The states one agent went through, from its creation on. */
  ghost predicate AgentPath(h: seq<AgentState>) {
    && |h| > 0
    && h[0] == Created
    && forall i | 0 < i < |h| :: CanTransition(h[i - 1], h[i])
  }

  /** The statuses one task went through. */
  ghost predicate TaskPath(h: seq<TaskStatus>) {
    && |h| > 0
    && forall i | 0 < i < |h| :: CanMove(h[i - 1], h[i])
  }

  predicate Final(s: TaskStatus) {
    s == TaskStatus.Completed || s == TaskStatus.Cancelled
  }

  /** Completed and cancelled agents never move again; `draining` is in the table but no
      agent ever drains; an agent completes only out of verification. */
  lemma {:induction false} AgentPathFacts(h: seq<AgentState>, i: nat)
    requires AgentPath(h) && i < |h|
    ensures h[i] != Draining
    ensures h[i] == AgentState.Completed || h[i] == AgentState.Cancelled ==> i == |h| - 1
    ensures h[i] == AgentState.Completed ==> i > 0 && h[i - 1] == Verifying
  {
    if i < |h| - 1 {
      assert CanTransition(h[i + 1 - 1], h[i + 1]);
    }
    if i > 0 {
      assert CanTransition(h[i - 1], h[i]);
    }
  }

  /** A task that is completed or cancelled stays so. */
  lemma FinalStatusSticks(h: seq<TaskStatus>, i: nat)
    requires TaskPath(h) && i < |h| && Final(h[i])
    ensures i == |h| - 1
  {
    assert i + 1 < |h| ==> CanMove(h[i + 1 - 1], h[i + 1]);
  }
}
