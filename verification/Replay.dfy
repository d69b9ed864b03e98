/** The timeline's replay fold (apps/web-ui/src/timeline/model.ts) beside the live reducer. */
module Replay {
  import opened Reducer
  import opened Wrappers

  const MAX_COMMITS: nat := 50

  predicate OfTask(e: Envelope, id: Id) {
    Present(e.taskId) && e.taskId.value == id
  }

  /** The state an event gives its task in the replay. */
  function ReplayTarget(kind: EventType): Option<Status> {
    if kind == TaskCreated then Some(Pending) else TaskTarget(kind)
  }

  function ReplayStep(s: Option<Status>, id: Id, e: Envelope): Option<Status> {
    if OfTask(e, id) && ReplayTarget(e.kind).Some? then ReplayTarget(e.kind) else s
  }

  /** A task's replay state; none before its first event. */
  function ReplayTask(id: Id, log: seq<Envelope>): Option<Status> {
    if log == [] then None else ReplayStep(ReplayTask(id, log[..|log| - 1]), id, log[|log| - 1])
  }

  function Commits(log: seq<Envelope>): seq<Envelope> {
    if log == [] then []
    else
      var last := log[|log| - 1];
      Commits(log[..|log| - 1]) + if last.kind == GitCommit then [last] else []
  }

  function LastN<T>(s: seq<T>, n: nat): seq<T> {
    if |s| <= n then s else s[|s| - n..]
  }

  function Clamp(upTo: int, n: nat): nat {
    if upTo < 0 then 0 else if upTo > n then n else upTo
  }

  ghost predicate TasksTell(tasks: map<Id, Status>, log: seq<Envelope>) {
    forall id :: (if id in tasks then Some(tasks[id]) else None) == ReplayTask(id, log)
  }

  /** The commit events among the first `n`. */
  function CommitsBefore(log: seq<Envelope>, n: nat): nat
    requires n <= |log|
  {
    if n == 0 then 0 else CommitsBefore(log, n - 1) + if log[n - 1].kind == GitCommit then 1 else 0
  }

  /** The commits are the commit events and no others, each at its place in their order. */
  lemma {:induction false} CommitsInOrder(log: seq<Envelope>, k: nat)
    requires k <= |log|
    ensures |Commits(log)| == CommitsBefore(log, |log|) >= CommitsBefore(log, k)
    ensures k < |log| && log[k].kind == GitCommit ==>
              CommitsBefore(log, k) < |Commits(log)| && Commits(log)[CommitsBefore(log, k)] == log[k]
  {
    if log != [] {
      var n := |log| - 1;
      CommitsInOrder(log[..n], if k < n then k else n);
      CommitsBeforeShorter(log, if k < n then k else n);
      CommitsBeforeShorter(log, n);
    }
  }

  lemma {:induction false} CommitsBeforeShorter(log: seq<Envelope>, k: nat)
    requires k < |log|
    ensures CommitsBefore(log[..|log| - 1], k) == CommitsBefore(log, k)
  {
    if k > 0 {
      CommitsBeforeShorter(log, k - 1);
    }
  }

  /** `foldReplay`, its task states and commits. */
  method FoldReplay(ascending: seq<Envelope>, upTo: int) returns (tasks: map<Id, Status>, commits: seq<Envelope>, applied: nat)
    ensures applied <= |ascending| && (0 <= upTo <= |ascending| ==> applied == upTo)
    ensures (upTo < 0 ==> applied == 0) && (upTo > |ascending| ==> applied == |ascending|)
    ensures TasksTell(tasks, ascending[..applied])
    ensures commits == LastN(Commits(ascending[..applied]), MAX_COMMITS)
  {
    tasks, commits, applied := map[], [], Clamp(upTo, |ascending|);
    for i := 0 to applied
      invariant TasksTell(tasks, ascending[..i])
      invariant commits == LastN(Commits(ascending[..i]), MAX_COMMITS)
    {
      var e := ascending[i];
      assert ascending[..i + 1][..i] == ascending[..i];
      ghost var before := tasks;
      var target := ReplayTarget(e.kind);
      if target.Some? && Present(e.taskId) {
        tasks := tasks[e.taskId.value := target.value];
      }
      TellStep(before, tasks, ascending[..i], e);
      if e.kind == GitCommit {
        commits := commits + [e];
        if |commits| > MAX_COMMITS {
          commits := commits[1..];
        }
      }
      LastStep(Commits(ascending[..i]), e);
      assert ascending[..i + 1] == ascending[..i] + [e];
    }
  }

  lemma LastStep(s: seq<Envelope>, e: Envelope)
    ensures var kept := LastN(s, MAX_COMMITS) + [e];
            LastN(s + [e], MAX_COMMITS) == if |kept| > MAX_COMMITS then kept[1..] else kept
  {
  }

  lemma TellStep(before: map<Id, Status>, after: map<Id, Status>, log: seq<Envelope>, e: Envelope)
    requires TasksTell(before, log)
    requires after == if ReplayTarget(e.kind).Some? && Present(e.taskId)
                      then before[e.taskId.value := ReplayTarget(e.kind).value] else before
    ensures TasksTell(after, log + [e])
  {
  }

  // ------------------------------------------------------------ the two folds

  /** Wherever the replay knows the task at this cut, it is in the state the live reducer reaches from pending. */
  predicate AgreeAt(log: seq<Envelope>, id: Id, n: nat)
    requires n <= |log|
  {
    var replayed := ReplayTask(id, log[..n]);
    replayed.None? || replayed.value == FoldTask(Pending, id, log[..n])
  }

  /** Whenever the task is created, or created again, the live reducer has it pending. */
  ghost predicate CreatedWhilePending(log: seq<Envelope>, id: Id) {
    forall k: nat | k < |log| && log[k].kind == TaskCreated && OfTask(log[k], id) ::
      FoldTask(Pending, id, log[..k]) == Pending
  }

  ghost predicate Agree(log: seq<Envelope>, id: Id) {
    forall n: nat | n <= |log| :: AgreeAt(log, id, n)
  }

  lemma FoldTaskSnoc(s: Status, id: Id, log: seq<Envelope>, k: nat)
    requires k < |log|
    ensures FoldTask(s, id, log[..k + 1]) == StepTask(TaskInfo(id, FoldTask(s, id, log[..k])), log[k]).status
  {
    assert log[..k + 1] == log[..k] + [log[k]];
    FoldTaskAppend(s, id, log[..k], [log[k]]);
  }

  lemma ReplaySnoc(id: Id, log: seq<Envelope>, k: nat)
    requires k < |log|
    ensures ReplayTask(id, log[..k + 1]) == ReplayStep(ReplayTask(id, log[..k]), id, log[k])
  {
    assert log[..k + 1][..k] == log[..k];
  }

  lemma {:induction false} AgreeUpTo(log: seq<Envelope>, id: Id, n: nat)
    requires CreatedWhilePending(log, id) && n <= |log|
    ensures AgreeAt(log, id, n)
  {
    if n > 0 {
      AgreeUpTo(log, id, n - 1);
      FoldTaskSnoc(Pending, id, log, n - 1);
      ReplaySnoc(id, log, n - 1);
    }
  }

  /** The two folds agree at every cut exactly when every creation of the task finds it pending. */
  lemma FoldsAgreeExactlyWhen(log: seq<Envelope>, id: Id)
    ensures Agree(log, id) <==> CreatedWhilePending(log, id)
  {
    if CreatedWhilePending(log, id) {
      forall n: nat | n <= |log| ensures AgreeAt(log, id, n) {
        AgreeUpTo(log, id, n);
      }
    }
    if Agree(log, id) {
      forall k: nat | k < |log| && log[k].kind == TaskCreated && OfTask(log[k], id)
        ensures FoldTask(Pending, id, log[..k]) == Pending
      {
        assert AgreeAt(log, id, k + 1);
        FoldTaskSnoc(Pending, id, log, k);
        ReplaySnoc(id, log, k);
      }
    }
  }

  /** A task whose only creation is its first event: no event before it touches the task. */
  ghost predicate CreatedFirst(log: seq<Envelope>, id: Id) {
    forall k: nat | k < |log| && log[k].kind == TaskCreated && OfTask(log[k], id) ::
      forall j | 0 <= j < k :: !OfTask(log[j], id)
  }

  lemma {:induction false} UntouchedStays(s: Status, id: Id, log: seq<Envelope>, k: nat)
    requires k <= |log| && forall j | 0 <= j < k :: !OfTask(log[j], id)
    ensures FoldTask(s, id, log[..k]) == s
  {
    if k > 0 {
      UntouchedStays(s, id, log, k - 1);
      FoldTaskSnoc(s, id, log, k - 1);
    }
  }

  /** In particular they agree on every log in which the task's creation comes first. */
  lemma CreationFirstAgrees(log: seq<Envelope>, id: Id)
    requires CreatedFirst(log, id)
    ensures Agree(log, id)
  {
    forall k: nat | k < |log| && log[k].kind == TaskCreated && OfTask(log[k], id)
      ensures FoldTask(Pending, id, log[..k]) == Pending
    {
      UntouchedStays(Pending, id, log, k);
    }
    FoldsAgreeExactlyWhen(log, id);
  }

  /** A task started before its creation is told: the replay has it pending, the live reducer running. */
  lemma StartBeforeCreation(start: Envelope, creation: Envelope, id: Id)
    requires OfTask(start, id) && start.kind == TaskExecutionStarted
    requires OfTask(creation, id) && creation.kind == TaskCreated
    ensures var log := [start, creation];
            && ReplayTask(id, log) == Some(Pending) && FoldTask(Pending, id, log) == Running
            && !Agree(log, id)
  {
    var log := [start, creation];
    assert log[..1] == [start] && log[..2] == log && [start][..0] == [];
    assert FoldTask(Pending, id, [start]) == Running;
    assert !AgreeAt(log, id, 2);
  }
}
