/** The task rows the durable activities write
    (services/api/app/durable/activities/{agents,tasks,recovery}.py).
    The task's own status is kept apart: see Workflow. */
module TaskRows {
  import opened Wrappers
  import opened Lifecycle

  datatype Outcome = Success | Failure | TimedOut | Withdrawn

  datatype Attempt = Attempt(number: nat, agent: Option<nat>, outcome: Option<Outcome>)

  type History = h: seq<AgentState> | |h| > 0 witness [Created]

  datatype Agent = Agent(predecessor: Option<nat>, history: History)

  /** Idempotency keys of the terminal-failure record. */
  datatype Key = Terminal(attempt: nat) | Reconcile

  /** Attempts and agents are known by their position. */
  datatype Rows = Rows(attempts: seq<Attempt>, agents: seq<Agent>, terminal: set<Key>)

  datatype Command =
    | StartAttempt
    | StartAgent(attempt: nat, predecessor: Option<nat>)
    | SetAgentState(agent: nat, state: AgentState)
    | FinishAttempt(attempt: nat, outcome: Outcome)
    | RecordTerminal(key: Key)
    | EndSession(agent: nat)
    | Elsewhere // events, snapshots, gates, child tasks: no row kept here

  function Moved(r: Rows, a: nat, s: AgentState): Rows
    requires a < |r.agents|
  {
    r.(agents := r.agents[a := r.agents[a].(history := r.agents[a].history + [s])])
  }

  function Finished(r: Rows, a: nat, o: Outcome): Rows
    requires a < |r.attempts|
  {
    r.(attempts := r.attempts[a := r.attempts[a].(outcome := Some(o))])
  }

  predicate MayMove(r: Rows, a: nat, s: AgentState) {
    a < |r.agents| && CanTransition(Last(r.agents[a].history), s)
  }

  /** One delivery of an activity: the rows and its reply, or nothing when it raises. */
  function Perform(r: Rows, c: Command): Option<(Rows, nat)> {
    match c
    case StartAttempt => Some((r.(attempts := r.attempts + [Attempt(|r.attempts| + 1, None, None)]), |r.attempts|))
    case StartAgent(a, p) =>
      var linked := if a < |r.attempts| then r.attempts[a := r.attempts[a].(agent := Some(|r.agents|))] else r.attempts;
      Some((r.(attempts := linked, agents := r.agents + [Agent(p, [Created])]), |r.agents|))
    case SetAgentState(a, s) => if MayMove(r, a, s) then Some((Moved(r, a, s), 0)) else None
    case FinishAttempt(a, o) => if a < |r.attempts| then Some((Finished(r, a, o), 0)) else None
    case RecordTerminal(k) => Some((r.(terminal := r.terminal + {k}), 0))
    case EndSession(a) =>
      if a < |r.agents| && Last(r.agents[a].history) !in {AgentState.Failed, AgentState.Cancelled}
      then Some((Moved(r, a, AgentState.Failed), 0)) else Some((r, 0))
    case Elsewhere => Some((r, 0))
  }

  /** The rows after `n` deliveries of the same command; a raising delivery changes nothing. */
  function Deliver(r: Rows, c: Command, n: nat): Rows {
    if n == 0 then r
    else
      var before := Deliver(r, c, n - 1);
      var done := Perform(before, c);
      if done.Some? then done.value.0 else before
  }

  ghost predicate AgentsLawful(r: Rows) {
    forall i | 0 <= i < |r.agents| :: AgentPath(r.agents[i].history)
  }

  ghost predicate NumbersDense(r: Rows) {
    forall i | 0 <= i < |r.attempts| :: r.attempts[i].number == i + 1
  }

  ghost predicate KeysKnown(r: Rows) {
    forall k | k in r.terminal && k.Terminal? :: k.attempt < |r.attempts|
  }

  /** Every agent's history is a path of the lifecycle, attempts are numbered 1, 2, and so on,
      and terminal records speak of attempts that exist. */
  ghost predicate Lawful(r: Rows) {
    AgentsLawful(r) && NumbersDense(r) && KeysKnown(r)
  }

  /** What an activity would have to be asked for to break this: closing the session of an agent
      that may not fail from its state, since only the close writes a state unguarded, or a
      terminal record for an attempt that does not exist. */
  predicate Unguarded(r: Rows, c: Command) {
    || (c.EndSession? && c.agent < |r.agents|
        && var last := Last(r.agents[c.agent].history);
           last !in {AgentState.Failed, AgentState.Cancelled} && !CanTransition(last, AgentState.Failed))
    || (c.RecordTerminal? && c.key.Terminal? && c.key.attempt >= |r.attempts|)
  }

  /** Every delivery keeps the rows lawful, but for those two requests and exactly for them. */
  lemma PerformKeepsLawful(r: Rows, c: Command)
    requires Lawful(r)
    ensures Perform(r, c).Some? ==> (Lawful(Perform(r, c).value.0) <==> !Unguarded(r, c))
  {
    if c.EndSession? && Unguarded(r, c) {
      var h := r.agents[c.agent].history;
      var after := Perform(r, c).value.0;
      assert after.agents[c.agent].history == h + [AgentState.Failed];
      assert (h + [AgentState.Failed])[|h| - 1] == Last(h) && (h + [AgentState.Failed])[|h|] == AgentState.Failed;
    }
  }

  /** A state change delivered again raises, since no state leads to itself; finishing,
      recording and closing again change nothing. */
  lemma {:induction false} AgainIsOnce(r: Rows, c: Command, n: nat)
    requires n >= 1 && !c.StartAttempt? && !c.StartAgent?
    ensures Deliver(r, c, n) == Deliver(r, c, 1)
  {
    var once := Deliver(r, c, 1);
    assert Deliver(r, c, 0) == r;
    if n > 1 {
      AgainIsOnce(r, c, n - 1);
    }
  }

  ghost predicate Fresh(s: seq<Attempt>, from: nat) {
    forall i | from <= i < |s| :: s[i] == Attempt(i + 1, None, None)
  }

  /** Starting an attempt `n` times leaves `n` rows, all unfinished. */
  lemma {:induction false} StartAgainAddsRows(r: Rows, n: nat)
    ensures var d := Deliver(r, StartAttempt, n);
            d.agents == r.agents && d.terminal == r.terminal && |d.attempts| == |r.attempts| + n
            && d.attempts[..|r.attempts|] == r.attempts && Fresh(d.attempts, |r.attempts|)
  {
    if n > 0 {
      StartAgainAddsRows(r, n - 1);
    }
  }

  ghost predicate NewAgents(s: seq<Agent>, from: nat, predecessor: Option<nat>) {
    forall i | from <= i < |s| :: s[i] == Agent(predecessor, [Created])
  }

  /** Starting an agent `n` times leaves `n` agents and links the attempt to the newest. */
  lemma {:induction false} StartAgentAgain(r: Rows, a: nat, predecessor: Option<nat>, n: nat)
    requires a < |r.attempts|
    ensures var d := Deliver(r, StartAgent(a, predecessor), n);
            && d.terminal == r.terminal && |d.agents| == |r.agents| + n
            && d.agents[..|r.agents|] == r.agents && NewAgents(d.agents, |r.agents|, predecessor)
            && d.attempts == (if n == 0 then r.attempts
                              else r.attempts[a := r.attempts[a].(agent := Some(|r.agents| + n - 1))])
  {
    if n > 0 {
      StartAgentAgain(r, a, predecessor, n - 1);
    }
  }
}
