/** The recovery policy (services/api/app/services/orchestration/recovery.py). */
module Recovery {
  datatype FailureClass =
    | ModelFailure | ToolFailure | EnvironmentFailure | ContextFailure | TaskFailure | Timeout
    | DependencyFailure | MergeConflict | ResourceLimit | HitlTimeout | SecurityBlock
    | BudgetExceeded | QuotaExceeded | Unlisted

  datatype Action =
    | RetryIfSafe | RetryAlternateModel | RecreateRuntime | RebuildContext | RetryThenReplan
    | WaitForDependency | CreateIntegrationTask | ThrottleThenRetry | EscalateOrReplan | Stop
    | EscalateModel | ReplaceAgent | SpawnDebugger | RequestHitl

  datatype Decision = Decision(action: Action, retryable: bool, budgetSensitive: bool)

  /** `_CLASS_ACTIONS`, an unlisted class reading as a task failure. */
  function ClassAction(f: FailureClass): Action {
    match f
    case ModelFailure => RetryAlternateModel
    case ToolFailure => RetryIfSafe
    case EnvironmentFailure => RecreateRuntime
    case ContextFailure => RebuildContext
    case TaskFailure | Unlisted | Timeout => RetryThenReplan
    case DependencyFailure => WaitForDependency
    case MergeConflict => CreateIntegrationTask
    case ResourceLimit | QuotaExceeded => ThrottleThenRetry
    case BudgetExceeded | HitlTimeout | SecurityBlock => Stop
  }

  /** `_LAST_ATTEMPT_ACTIONS`, the class's usual action where there is none. */
  function LastAttemptAction(f: FailureClass): Action {
    match f
    case ModelFailure => EscalateModel
    case ToolFailure => ReplaceAgent
    case TaskFailure | Unlisted => SpawnDebugger
    case ResourceLimit => RequestHitl
    case _ => ClassAction(f)
  }

  predicate IsRetryable(f: FailureClass) {
    f !in {SecurityBlock, HitlTimeout, BudgetExceeded} && ClassAction(f) != Stop
  }

  /** `recovery_decision`. */
  function Decide(f: FailureClass, attemptNumber: nat, maxAttempts: nat): Decision {
    var number := if attemptNumber < 1 then 1 else attemptNumber;
    var left := if maxAttempts < number then 0 else maxAttempts - number;
    var action :=
      if !IsRetryable(f) then ClassAction(f)
      else if left == 0 then EscalateOrReplan
      else if left == 1 then LastAttemptAction(f)
      else ClassAction(f);
    Decision(
      action,
      IsRetryable(f) && action != EscalateOrReplan && action != SpawnDebugger,
      action in {RetryAlternateModel, EscalateModel, ReplaceAgent, SpawnDebugger, EscalateOrReplan})
  }

  /** The actions after which the workflow never starts another attempt. */
  predicate EndsRun(a: Action) {
    a == Stop || a == EscalateOrReplan || a == SpawnDebugger || a == CreateIntegrationTask
  }

  /** The ladder cannot loop: on the last attempt every decision ends the run. */
  lemma LadderEnds(f: FailureClass, attemptNumber: nat, maxAttempts: nat)
    requires attemptNumber >= maxAttempts && attemptNumber >= 1
    ensures Decide(f, attemptNumber, maxAttempts).action in {Stop, EscalateOrReplan}
  {
  }

  /** A decision continues the run exactly when it is retryable and not handed to an integration task. */
  lemma RetryableContinues(f: FailureClass, attemptNumber: nat, maxAttempts: nat)
    ensures var d := Decide(f, attemptNumber, maxAttempts);
            EndsRun(d.action) <==> !d.retryable || d.action == CreateIntegrationTask
  {
  }

  /** The budget is asked for these actions alone. */
  lemma BudgetSensitiveActions(f: FailureClass, attemptNumber: nat, maxAttempts: nat)
    ensures var d := Decide(f, attemptNumber, maxAttempts);
            d.budgetSensitive ==> d.action in {RetryAlternateModel, EscalateModel, ReplaceAgent, SpawnDebugger, EscalateOrReplan}
  {
  }

  /** The ladder for each class of failure: what is never retried; the last attempt; the one before
      it; and what comes earlier. An attempt number below one counts as one. */
  lemma LadderIs(f: FailureClass, n: nat, max: nat)
    ensures Decide(f, 0, max) == Decide(f, 1, max)
    ensures f in {SecurityBlock, HitlTimeout, BudgetExceeded} <==> Decide(f, n, max).action == Stop
    ensures f in {SecurityBlock, HitlTimeout, BudgetExceeded} ==> !Decide(f, n, max).retryable
    ensures f !in {SecurityBlock, HitlTimeout, BudgetExceeded} && 1 <= n ==>
              var a := Decide(f, n, max).action;
              if n >= max then a == EscalateOrReplan
              else if n + 1 == max && f == ModelFailure then a == EscalateModel
              else if n + 1 == max && f == ToolFailure then a == ReplaceAgent
              else if n + 1 == max && f in {TaskFailure, Unlisted} then a == SpawnDebugger
              else if n + 1 == max && f == ResourceLimit then a == RequestHitl
              else
                && (a == RetryAlternateModel <==> f == ModelFailure) && (a == RetryIfSafe <==> f == ToolFailure)
                && (a == RecreateRuntime <==> f == EnvironmentFailure) && (a == RebuildContext <==> f == ContextFailure)
                && (a == WaitForDependency <==> f == DependencyFailure) && (a == CreateIntegrationTask <==> f == MergeConflict)
                && (a == ThrottleThenRetry <==> f in {ResourceLimit, QuotaExceeded})
                && (a == RetryThenReplan <==> f in {TaskFailure, Unlisted, Timeout})
  {
  }
}
