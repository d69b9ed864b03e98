/** The realtime protocol end to end: any number of database sessions write events,
    a lossy, repeating, reordering network carries them, and one browser page
    follows one project at a time through resyncs, reconnects and project switches. */
module Realtime {
  import opened Wrappers
  import opened Reducer
  import opened Office
  import opened EventTable

  datatype Phase = FetchingEvents | FetchingEntities | Done

  /** A list read from the server, with the length of the log it reflects. */
  datatype Read<T> = Read(rows: seq<T>, at: nat)

  /** One resync job: the continuation of `resync` in some session. */
  datatype Job = Job(
    session: nat, project: Id, phase: Phase, events: Option<seq<Envelope>>,
    agents: Option<Read<AgentInfo>>, tasks: Option<Read<TaskInfo>>)

  datatype Stream = Stream(session: nat, project: Id)

  /** What the page read in its last completed resync, and what it has done since. */
  datatype History = History(
    session: nat, project: Id, cursor: nat, agents: Read<AgentInfo>, tasks: Read<TaskInfo>, timeline: seq<Envelope>,
    applied: seq<Envelope>)

  datatype Sys = Sys(db: Db, store: Store, jobs: map<nat, Job>, streams: set<Stream>, history: History)

  const INIT := Sys(EMPTY_DB, INITIAL, map[], {}, History(0, 0, 0, Read([], 0), Read([], 0), [], []))

  // ------------------------------------------------------------------- steps

  datatype Step =
    // the server's database sessions and its bus
    | InsertRow(dbSession: nat, row: Envelope)
    | CommitTx(dbSession: nat)
    | RollbackTx(dbSession: nat)
    | AttachBus(active: bool)
    // the page: user actions, timers, resync continuations
    | StartPage(project: Id)
    | StopPage
    | RequestResync
    | ReadEvents(job: nat, rows: seq<Envelope>)
    | EventsArrive(job: nat)
    | ReadAgents(job: nat, agentRows: seq<AgentInfo>)
    | ReadTasks(job: nat, taskRows: seq<TaskInfo>)
    | FinishJob(job: nat, hitl: seq<HitlRequest>)
    | FailJob(job: nat)
    | SettleJob(job: nat)
    | RefreshHitl(hitl: seq<HitlRequest>)
    // the network
    | OpenStream
    | Deliver(stream: Stream, e: Envelope)
    | DeliverResyncRequired(stream: Stream)

  /** The list endpoint returns committed rows of the project, whatever their order. */
  ghost predicate CommittedRows(db: Db, p: Id, rows: seq<Envelope>) {
    forall i | 0 <= i < |rows| :: rows[i] in Log(db, p)
  }

  ghost predicate Enabled(s: Sys, step: Step) {
    match step
    case InsertRow(d, row) => CanInsert(s.db, d, row)
    case ReadEvents(j, rows) =>
      j in s.jobs && s.jobs[j].phase == FetchingEvents && s.jobs[j].events.None?
      && CommittedRows(s.db, s.jobs[j].project, rows)
    case EventsArrive(j) => j in s.jobs && s.jobs[j].phase == FetchingEvents && s.jobs[j].events.Some?
    case ReadAgents(j, rows) =>
      j in s.jobs && s.jobs[j].phase == FetchingEntities && s.jobs[j].agents.None?
    case ReadTasks(j, rows) =>
      j in s.jobs && s.jobs[j].phase == FetchingEntities && s.jobs[j].tasks.None?
    case FinishJob(j, _) =>
      j in s.jobs && s.jobs[j].phase == FetchingEntities && s.jobs[j].events.Some?
      && s.jobs[j].agents.Some? && s.jobs[j].tasks.Some?
    case FailJob(j) => j in s.jobs && s.jobs[j].phase != Done
    case SettleJob(j) => j in s.jobs && s.jobs[j].phase == Done
    case OpenStream => !s.store.stopped && !s.store.resyncRequired && s.store.projectId.Some?
    case Deliver(stream, e) => stream in s.streams && (e in s.db.wire || e in Log(s.db, stream.project))
    case DeliverResyncRequired(stream) => stream in s.streams
    case _ => true
  }

  /** Put a new store state in place; a resync it started becomes a job. */
  function Adopt(s: Sys, store: Store): Sys {
    s.(store := store,
       jobs := if store.nextJob > s.store.nextJob && store.projectId.Some?
               then s.jobs[s.store.nextJob := Job(store.generation, store.projectId.value, FetchingEvents, None, None, None)]
               else s.jobs)
  }

  function SetJob(s: Sys, j: nat, job: Job): Sys {
    s.(jobs := s.jobs[j := job])
  }

  /** `streamEvents`' scope check, then the store's handlers behind `active()`. */
  function DeliverTo(s: Sys, stream: Stream, e: Envelope): Sys {
    if !Current(s.store, stream.session) then s
    else if e.project != stream.project then Adopt(s, RequireResyncOf(s.store))
    else
      var next := Adopt(s, EnvelopeOf(s.store, e));
      if Accepts(s.store, e) && SequenceCheck(ProjectionOf(s.store), e) == Apply
      then next.(history := s.history.(applied := s.history.applied + [e])) else next
  }

  function Finish(s: Sys, j: nat, hitl: seq<HitlRequest>): Sys
    requires j in s.jobs && s.jobs[j].events.Some? && s.jobs[j].agents.Some? && s.jobs[j].tasks.Some?
  {
    var job := s.jobs[j];
    var agents, tasks, events := job.agents.value, job.tasks.value, job.events.value;
    SetJob(s, j, job.(phase := Done)).(
      store := FinishOf(s.store, job.session, agents.rows, tasks.rows, hitl, events),
      history := if Current(s.store, job.session)
                 then History(job.session, job.project, Cursor(events), agents, tasks, events, [])
                 else s.history)
  }

  /** One step of the whole system; a step that is not enabled changes nothing. */
  ghost function Exec(s: Sys, step: Step): Sys {
    if !Enabled(s, step) then s
    else
      match step
      case InsertRow(d, row) => s.(db := Insert(s.db, d, row))
      case CommitTx(d) => s.(db := Commit(s.db, d))
      case RollbackTx(d) => s.(db := Rollback(s.db, d))
      case AttachBus(active) => s.(db := Attach(s.db, active))
      case StartPage(p) => Adopt(s, StartOf(s.store, p))
      case StopPage => Adopt(s, StopOf(s.store))
      case RequestResync => Adopt(s, ResyncOf(s.store))
      case ReadEvents(j, rows) => SetJob(s, j, s.jobs[j].(events := Some(rows)))
      case EventsArrive(j) =>
        SetJob(s, j, s.jobs[j].(phase := if Current(s.store, s.jobs[j].session) then FetchingEntities else Done))
      case ReadAgents(j, rows) =>
        SetJob(s, j, s.jobs[j].(agents := Some(Read(rows, |Log(s.db, s.jobs[j].project)|))))
      case ReadTasks(j, rows) =>
        SetJob(s, j, s.jobs[j].(tasks := Some(Read(rows, |Log(s.db, s.jobs[j].project)|))))
      case FinishJob(j, hitl) => Finish(s, j, hitl)
      case FailJob(j) => SetJob(s, j, s.jobs[j].(phase := Done)).(store := FailOf(s.store, s.jobs[j].session))
      case SettleJob(j) => s.(jobs := s.jobs - {j}, store := SettleOf(s.store, s.jobs[j].session))
      case RefreshHitl(hitl) => s.(store := s.store.(hitl := hitl))
      case OpenStream => s.(streams := s.streams + {Stream(s.store.generation, s.store.projectId.value)})
      case Deliver(stream, e) => DeliverTo(s, stream, e)
      case DeliverResyncRequired(stream) =>
        if Current(s.store, stream.session) then Adopt(s, RequireResyncOf(s.store)) else s
  }

  ghost function ExecAll(s: Sys, steps: seq<Step>): Sys {
    if steps == [] then s else Exec(ExecAll(s, steps[..|steps| - 1]), steps[|steps| - 1])
  }

  /** The system after any steps at all. */
  ghost function Run(steps: seq<Step>): Sys {
    ExecAll(INIT, steps)
  }

  // --------------------------------------------------------------- invariant

  ghost predicate ReadOk<T>(r: Option<Read<T>>, cursor: nat, bound: nat) {
    r.Some? ==> cursor <= r.value.at <= bound
  }

  ghost predicate JobOk(db: Db, store: Store, job: Job) {
    var log := Log(db, job.project);
    && job.session <= store.generation
    && (Current(store, job.session) ==> store.projectId == Some(job.project))
    && (job.phase == FetchingEntities ==> job.events.Some?)
    && (job.events.None? ==> job.agents.None? && job.tasks.None?)
    && (job.events.Some? ==>
          && CommittedRows(db, job.project, job.events.value)
          && ReadOk(job.agents, Cursor(job.events.value), |log|)
          && ReadOk(job.tasks, Cursor(job.events.value), |log|))
  }

  ghost predicate StreamOk(store: Store, stream: Stream) {
    stream.session <= store.generation
    && (Current(store, stream.session) ==> store.projectId == Some(stream.project))
  }

  /** Timeline entries are committed rows at or below the cursor. */
  ghost predicate TimelineOk(log: seq<Envelope>, events: seq<Envelope>, last: nat) {
    forall i | 0 <= i < |events| ::
      events[i] in log && events[i].sequence.Some? && events[i].sequence.value <= last
  }

  /** The timeline shows the applied events, newest first, and then what was read; 120 entries once
      an event was applied. */
  ghost predicate TimelineShows(shown: seq<Envelope>, applied: seq<Envelope>, read: seq<Envelope>) {
    var all := |applied| + |read|;
    && |shown| == (if applied == [] || all < 120 then all else 120)
    && (forall i | 0 <= i < |shown| && i < |applied| :: shown[i] == applied[|applied| - 1 - i])
    && (forall i | |applied| <= i < |shown| :: shown[i] == read[i - |applied|])
  }

  /** The lists come from a completed resync of this session and project, plus the
      committed events cursor+1, cursor+2, ... in order, without hole or repeat. */
  ghost predicate Loaded(db: Db, store: Store, h: History) {
    var log := Log(db, h.project);
    var last := h.cursor + |h.applied|;
    && h.session == store.generation && store.projectId == Some(h.project)
    && h.cursor <= h.agents.at <= |log| && h.cursor <= h.tasks.at <= |log|
    && last <= |log| && h.applied == log[h.cursor..last]
    && store.lastSequence == Some(last)
    && store.agents == AgentsAfter(h.agents.rows, h.applied)
    && store.tasks == TasksAfter(h.tasks.rows, h.applied)
    && TimelineOk(log, store.events, last) && TimelineShows(store.events, h.applied, h.timeline)
  }

  /** The page trusts its lists. */
  predicate Synced(store: Store) {
    !store.stopped && !store.resyncRequired && store.projectId.Some?
  }

  ghost predicate JobsOk(s: Sys) {
    forall j | j in s.jobs :: JobOk(s.db, s.store, s.jobs[j])
  }

  ghost predicate StreamsOk(s: Sys) {
    forall x | x in s.streams :: StreamOk(s.store, x)
  }

  /** The events applied since the last resync are consecutive committed rows. */
  ghost predicate HistoryOk(db: Db, h: History) {
    var log := Log(db, h.project);
    h.cursor + |h.applied| <= |log| && h.applied == log[h.cursor..h.cursor + |h.applied|]
  }

  ghost predicate Inv(s: Sys) {
    && TableInv(s.db) && JobsOk(s) && StreamsOk(s) && HistoryOk(s.db, s.history)
    && (!s.store.stopped ==> s.store.projectId.Some?)
    && (Synced(s.store) ==> Loaded(s.db, s.store, s.history))
  }

  // ------------------------------------------------- the log grows under the page

  lemma LoadedGrows(before: Db, after: Db, store: Store, h: History)
    requires Log(before, h.project) <= Log(after, h.project) && Loaded(before, store, h)
    ensures Loaded(after, store, h)
  {
    var a, b := Log(before, h.project), Log(after, h.project);
    assert b[h.cursor..h.cursor + |h.applied|] == a[h.cursor..h.cursor + |h.applied|];
    assert TimelineOk(b, store.events, h.cursor + |h.applied|) by {
      forall i | 0 <= i < |store.events| ensures store.events[i] in b {
        assert store.events[i] in a;
      }
    }
  }

  lemma DbStepKeepsInv(s: Sys, db: Db)
    requires Inv(s) && TableInv(db) && Grows(s.db, db)
    ensures Inv(s.(db := db))
  {
    var t := s.(db := db);
    forall j | j in t.jobs ensures JobOk(t.db, t.store, t.jobs[j]) {
      assert JobOk(s.db, s.store, s.jobs[j]);
      assert Log(s.db, s.jobs[j].project) <= Log(db, s.jobs[j].project);
    }
    assert Log(s.db, s.history.project) <= Log(db, s.history.project);
    if Synced(s.store) {
      LoadedGrows(s.db, db, s.store, s.history);
    }
  }

  // ----------------------------------------------------------- the page's steps

  /** The store may change session or ask for a resync; what is in flight stays lawful. */
  ghost predicate SameSession(a: Store, b: Store) {
    b.generation == a.generation && b.stopped == a.stopped && b.projectId == a.projectId
  }

  ghost predicate NewSession(a: Store, b: Store) {
    b.generation > a.generation
  }

  lemma StoreChangeKeepsFlight(s: Sys, store: Store)
    requires Inv(s) && (SameSession(s.store, store) || NewSession(s.store, store))
    ensures forall j | j in s.jobs :: JobOk(s.db, store, s.jobs[j])
    ensures forall x | x in s.streams :: StreamOk(store, x)
  {
  }

  lemma AdoptKeepsInv(s: Sys, store: Store)
    requires Inv(s) && (SameSession(s.store, store) || NewSession(s.store, store))
    requires !store.stopped ==> store.projectId.Some?
    requires Synced(store) ==> Loaded(s.db, store, s.history)
    ensures Inv(Adopt(s, store))
  {
  }

  lemma SetJobKeepsInv(s: Sys, j: nat, job: Job)
    requires Inv(s) && JobOk(s.db, s.store, job)
    ensures Inv(SetJob(s, j, job))
  {
  }

  /** A read list's cursor never exceeds the log. */
  lemma CursorWithinLog(db: Db, p: Id, rows: seq<Envelope>)
    requires ProjectOk(db, p) && CommittedRows(db, p, rows)
    ensures Cursor(rows) <= |Log(db, p)| && TimelineOk(Log(db, p), rows, Cursor(rows))
  {
    MaxSequenceIsMax(rows);
    forall i | 0 <= i < |rows|
      ensures rows[i] in Log(db, p) && rows[i].sequence.Some? && rows[i].sequence.value <= Cursor(rows) <= |Log(db, p)|
    {
      assert rows[i] in Log(db, p) && rows[i] in rows;
      var e :| e in rows && e.sequence == MaxSequence(rows);
      var k :| 0 <= k < |rows| && rows[k] == e;
      assert rows[k] in Log(db, p);
    }
    if |rows| > 0 {
      assert rows[0] in Log(db, p);
    }
  }

  lemma JobStepKeepsInv(s: Sys, step: Step)
    requires Inv(s) && Enabled(s, step)
    requires step.ReadEvents? || step.EventsArrive? || step.ReadAgents? || step.ReadTasks?
    ensures Inv(Exec(s, step))
  {
    var j := step.job;
    var job := s.jobs[j];
    assert JobOk(s.db, s.store, job);
    var log := Log(s.db, job.project);
    assert log[..|log|] == log;
    assert ProjectOk(s.db, job.project);
    if job.events.Some? {
      CursorWithinLog(s.db, job.project, job.events.value);
    }
    match step
    case ReadEvents(_, rows) =>
      CursorWithinLog(s.db, job.project, rows);
      SetJobKeepsInv(s, j, job.(events := Some(rows)));
    case EventsArrive(_) =>
      SetJobKeepsInv(s, j, job.(phase := if Current(s.store, job.session) then FetchingEntities else Done));
    case ReadAgents(_, rows) =>
      SetJobKeepsInv(s, j, job.(agents := Some(Read(rows, |log|))));
    case ReadTasks(_, rows) =>
      SetJobKeepsInv(s, j, job.(tasks := Some(Read(rows, |log|))));
  }

  lemma FinishKeepsInv(s: Sys, j: nat, hitl: seq<HitlRequest>)
    requires Inv(s) && Enabled(s, FinishJob(j, hitl))
    ensures Inv(Finish(s, j, hitl))
  {
    var job := s.jobs[j];
    assert JobOk(s.db, s.store, job);
    var t := Finish(s, j, hitl);
    SetJobKeepsInv(s, j, job.(phase := Done));
    StoreChangeKeepsFlight(SetJob(s, j, job.(phase := Done)), t.store);
    if Current(s.store, job.session) {
      assert ProjectOk(s.db, job.project);
      CursorWithinLog(s.db, job.project, job.events.value);
      var log := Log(s.db, job.project);
      assert log[t.history.cursor..t.history.cursor + 0] == [];
    }
  }

  /** The gate lets through exactly the next committed row. */
  lemma AppliedIsNext(s: Sys, e: Envelope)
    requires Inv(s) && Synced(s.store) && Accepts(s.store, e)
    requires Committed(s.db, e) && SequenceCheck(ProjectionOf(s.store), e) == Apply
    ensures var last := s.store.lastSequence.value;
            var log := Log(s.db, s.history.project);
            last < |log| && e == log[last] && e.sequence == Some(last + 1)
  {
    var p := s.history.project;
    assert ProjectOk(s.db, p);
    var i :| 0 <= i < |Log(s.db, p)| && Log(s.db, p)[i] == e;
  }

  lemma TimelineGrows(log: seq<Envelope>, p: Projection, applied: seq<Envelope>, read: seq<Envelope>, last: nat, e: Envelope)
    requires TimelineOk(log, p.events, last) && TimelineShows(p.events, applied, read)
    requires e in log && e.sequence == Some(last + 1)
    ensures var grown := ApplyEnvelope(p, e).events;
            TimelineOk(log, grown, last + 1) && TimelineShows(grown, applied + [e], read)
  {
    hide ApplyEnvelope;
    var shown, grown := p.events, ApplyEnvelope(p, e).events;
    NewestFirst(p, e);
    forall i | 0 < i < |grown| ensures grown[i] in log && grown[i].sequence.Some? && grown[i].sequence.value <= last {
      assert grown[i] == shown[i - 1];
    }
  }

  lemma ApplyKeepsLoaded(s: Sys, e: Envelope)
    requires Inv(s) && Synced(s.store) && Accepts(s.store, e)
    requires Committed(s.db, e) && SequenceCheck(ProjectionOf(s.store), e) == Apply
    ensures Loaded(s.db, EnvelopeOf(s.store, e), s.history.(applied := s.history.applied + [e]))
  {
    hide TimelineOk, TimelineShows, CommittedRows;
    var h, p := s.history, ProjectionOf(s.store);
    var log := Log(s.db, h.project);
    var last := h.cursor + |h.applied|;
    AppliedIsNext(s, e);
    assert log[h.cursor..last + 1] == log[h.cursor..last] + [log[last]];
    TimelineGrows(log, p, h.applied, h.timeline, last, e);
  }

  lemma DeliverKeepsInv(s: Sys, stream: Stream, e: Envelope)
    requires Inv(s) && Enabled(s, Deliver(stream, e))
    ensures Inv(DeliverTo(s, stream, e))
  {
    assert StreamOk(s.store, stream);
    if Current(s.store, stream.session) {
      if e.project != stream.project {
        AdoptKeepsInv(s, RequireResyncOf(s.store));
      } else if Accepts(s.store, e) {
        var store := EnvelopeOf(s.store, e);
        if SequenceCheck(ProjectionOf(s.store), e) == Apply {
          ApplyKeepsLoaded(s, e);
          StoreChangeKeepsFlight(s, store);
        } else {
          AdoptKeepsInv(s, store);
        }
      }
    }
  }

  lemma PageStepKeepsInv(s: Sys, step: Step)
    requires Inv(s) && Enabled(s, step)
    requires step.StartPage? || step.StopPage? || step.RequestResync? || step.DeliverResyncRequired?
             || step.FailJob? || step.SettleJob? || step.RefreshHitl? || step.OpenStream?
    ensures Inv(Exec(s, step))
  {
    match step
    case StartPage(p) => AdoptKeepsInv(s, StartOf(s.store, p));
    case StopPage => AdoptKeepsInv(s, StopOf(s.store));
    case RequestResync => AdoptKeepsInv(s, ResyncOf(s.store));
    case DeliverResyncRequired(_) => AdoptKeepsInv(s, RequireResyncOf(s.store));
    case FailJob(j) =>
      assert JobOk(s.db, s.store, s.jobs[j]);
      SetJobKeepsInv(s, j, s.jobs[j].(phase := Done));
      StoreChangeKeepsFlight(SetJob(s, j, s.jobs[j].(phase := Done)), FailOf(s.store, s.jobs[j].session));
    case SettleJob(j) =>
      StoreChangeKeepsFlight(s, SettleOf(s.store, s.jobs[j].session));
    case RefreshHitl(hitl) =>
      StoreChangeKeepsFlight(s, s.store.(hitl := hitl));
    case OpenStream =>
      var t := Exec(s, step);
      forall x | x in t.streams ensures StreamOk(t.store, x) {
        assert x in s.streams ==> StreamOk(s.store, x);
      }
  }

  lemma StepKeepsInv(s: Sys, step: Step)
    requires Inv(s)
    ensures Inv(Exec(s, step))
  {
    if Enabled(s, step) {
      match step
      case InsertRow(d, row) =>
        InsertKeepsTable(s.db, d, row);
        DbStepKeepsInv(s, Insert(s.db, d, row));
      case CommitTx(d) =>
        CommitKeepsTable(s.db, d);
        DbStepKeepsInv(s, Commit(s.db, d));
      case RollbackTx(d) =>
        RollbackKeepsTable(s.db, d);
        DbStepKeepsInv(s, Rollback(s.db, d));
      case AttachBus(active) =>
        AttachKeepsTable(s.db, active);
        DbStepKeepsInv(s, Attach(s.db, active));
      case FinishJob(j, hitl) => FinishKeepsInv(s, j, hitl);
      case Deliver(stream, e) => DeliverKeepsInv(s, stream, e);
      case ReadEvents(_, _) => JobStepKeepsInv(s, step);
      case EventsArrive(_) => JobStepKeepsInv(s, step);
      case ReadAgents(_, _) => JobStepKeepsInv(s, step);
      case ReadTasks(_, _) => JobStepKeepsInv(s, step);
      case _ => PageStepKeepsInv(s, step);
    }
  }

  lemma {:induction false} ExecAllKeepsInv(s: Sys, steps: seq<Step>)
    requires Inv(s)
    ensures Inv(ExecAll(s, steps))
  {
    hide Exec, Inv;
    if steps != [] {
      ExecAllKeepsInv(s, steps[..|steps| - 1]);
      StepKeepsInv(ExecAll(s, steps[..|steps| - 1]), steps[|steps| - 1]);
    }
  }

  lemma RunKeepsInv(steps: seq<Step>)
    ensures Inv(Run(steps))
  {
    InitTable();
    ExecAllKeepsInv(INIT, steps);
  }

  // ------------------------------------------------------------ main results

  /** In every run, whenever the page trusts its lists they come from a completed
      resync of the current project and session, and since then exactly the committed
      rows cursor+1, cursor+2, ... were applied. */
  lemma SessionSafety(steps: seq<Step>)
    ensures var s := Run(steps);
            HistoryOk(s.db, s.history) && (Synced(s.store) ==> Loaded(s.db, s.store, s.history))
  {
    RunKeepsInv(steps);
  }

  /** The fields that resync and the reducer own. */
  predicate SameLists(a: Store, b: Store) {
    a.agents == b.agents && a.tasks == b.tasks && a.events == b.events
  }

  /** The lists and the cursor (but for its reset by a project switch) change only by the end
      of a resync of the current session and project, or by one committed event of the current
      project, the next in sequence, delivered by a stream of the current session on lists
      that were loaded for it. */
  lemma ListsChangeLawfully(steps: seq<Step>, step: Step)
    requires var s, t := Run(steps).store, Exec(Run(steps), step).store;
             !SameLists(s, t) || (s.lastSequence != t.lastSequence && !step.StartPage?)
    ensures var s := Run(steps);
            || (step.FinishJob? && step.job in s.jobs && Current(s.store, s.jobs[step.job].session)
                && s.store.projectId == Some(s.jobs[step.job].project))
            || (step.Deliver? && step.stream.session == s.store.generation
                && Loaded(s.db, s.store, s.history) && Committed(s.db, step.e)
                && s.store.projectId == Some(step.e.project)
                && step.e.sequence == Some(s.store.lastSequence.value + 1))
  {
    var s := Run(steps);
    RunKeepsInv(steps);
    if step.FinishJob? {
      assert JobOk(s.db, s.store, s.jobs[step.job]);
    } else if step.Deliver? {
      DeliverChangesLawfully(s, step.stream, step.e);
    } else {
      OtherStepsKeepLists(s, step);
    }
  }

  lemma OtherStepsKeepLists(s: Sys, step: Step)
    requires !step.FinishJob? && !step.Deliver?
    ensures SameLists(s.store, Exec(s, step).store)
    ensures !step.StartPage? ==> s.store.lastSequence == Exec(s, step).store.lastSequence
  {
  }

  lemma DeliverChangesLawfully(s: Sys, stream: Stream, e: Envelope)
    requires Inv(s) && Enabled(s, Deliver(stream, e))
    requires !SameLists(s.store, DeliverTo(s, stream, e).store)
             || s.store.lastSequence != DeliverTo(s, stream, e).store.lastSequence
    ensures stream.session == s.store.generation && Loaded(s.db, s.store, s.history) && Committed(s.db, e)
    ensures s.store.projectId == Some(e.project) && e.sequence == Some(s.store.lastSequence.value + 1)
  {
    assert StreamOk(s.store, stream);
    AppliedIsNext(s, e);
  }

  /** What a synced page shows, set against the log up to its cursor. A listed task is in step with
      it exactly when some applied event has set the task or the row that was read agreed already,
      whatever rows were read. */
  lemma TaskInStepExactly(steps: seq<Step>, i: nat)
    requires Synced(Run(steps).store) && i < |Run(steps).store.tasks|
    ensures var s := Run(steps);
            var log, n := Log(s.db, s.history.project), s.history.cursor + |s.history.applied|;
            && n <= |log| && s.store.lastSequence == Some(n) && |s.history.tasks.rows| == |s.store.tasks|
            && var shown, row := s.store.tasks[i], s.history.tasks.rows[i];
               shown.id == row.id
               && (shown.status == TaskTruth(log[..n], row.id)
                   <==> TouchedTask(row.id, s.history.applied) || row.status == TaskTruth(log[..n], row.id))
  {
    var s := Run(steps);
    SessionSafety(steps);
    var h, log := s.history, Log(s.db, s.history.project);
    var n := h.cursor + |h.applied|;
    TasksFollowFold(h.tasks.rows, h.applied);
    assert log[..n] == log[..h.cursor] + h.applied;
    FoldTaskAppend(Pending, h.tasks.rows[i].id, log[..h.cursor], h.applied);
    FoldsMeet(h.tasks.rows[i].status, TaskTruth(log[..h.cursor], h.tasks.rows[i].id), h.tasks.rows[i].id, h.applied);
  }

  /** The same for an agent, listed or not. What is shown agrees with the log up to the cursor
      exactly when the list that was read and the log up to there agree on the agent, or an
      applied event brings the two together. */
  lemma AgentInStepExactly(steps: seq<Step>, id: Id)
    requires Synced(Run(steps).store)
    ensures var s := Run(steps);
            var h, log := s.history, Log(s.db, s.history.project);
            var n := h.cursor + |h.applied|;
            && n <= |log| && s.store.lastSequence == Some(n)
            && (AgentState(s.store.agents, id) == AgentTruth(log[..n], id)
                <==> AgentFoldsAgree(AgentState(h.agents.rows, id), AgentTruth(log[..h.cursor], id), id, h.applied))
  {
    var s := Run(steps);
    SessionSafety(steps);
    var h, log := s.history, Log(s.db, s.history.project);
    AgentsFollowFold(h.agents.rows, h.applied, id);
    assert log[..h.cursor + |h.applied|] == log[..h.cursor] + h.applied;
    FoldAgentAppend(None, id, log[..h.cursor], h.applied);
    AgentFoldsMeet(AgentState(h.agents.rows, id), AgentTruth(log[..h.cursor], id), id, h.applied);
  }

  /** The rows that agreed with the log when they were read: once the applied events reach that
      point, each such task and each such agent has the state the whole log up to the cursor
      gives it. Other rows, whatever they say, do not disturb them. */
  lemma ConvergesToTheLog(steps: seq<Step>)
    requires Synced(Run(steps).store)
    ensures var s := Run(steps);
            var h, log := s.history, Log(s.db, s.history.project);
            var n := h.cursor + |h.applied|;
            && n <= |log| && s.store.lastSequence == Some(n) && s.store.projectId == Some(h.project)
            && |h.tasks.rows| == |s.store.tasks|
            && (h.tasks.at <= n ==> forall i | 0 <= i < |s.store.tasks| ::
                  h.tasks.rows[i].status == TaskTruth(log[..h.tasks.at], h.tasks.rows[i].id) ==>
                    s.store.tasks[i].status == TaskTruth(log[..n], s.store.tasks[i].id))
            && (h.agents.at <= n ==> forall id | CreationAgrees(log, id) ::
                  AgentState(h.agents.rows, id) == AgentTruth(log[..h.agents.at], id) ==>
                    AgentState(s.store.agents, id) == AgentTruth(log[..n], id))
  {
    var s := Run(steps);
    SessionSafety(steps);
    var h, log := s.history, Log(s.db, s.history.project);
    TasksFollowFold(h.tasks.rows, h.applied);
    hide TaskTruth, AgentTruth, CreationAgrees, AgentState, Log, Run;
    if h.tasks.at <= h.cursor + |h.applied| {
      forall i: nat | i < |s.store.tasks| && h.tasks.rows[i].status == TaskTruth(log[..h.tasks.at], h.tasks.rows[i].id)
        ensures s.store.tasks[i].status == TaskTruth(log[..h.cursor + |h.applied|], s.store.tasks[i].id)
      {
        TaskConverges(s, i);
      }
    }
    if h.agents.at <= h.cursor + |h.applied| {
      forall id | CreationAgrees(log, id) && AgentState(h.agents.rows, id) == AgentTruth(log[..h.agents.at], id)
        ensures AgentState(s.store.agents, id) == AgentTruth(log[..h.cursor + |h.applied|], id)
      {
        AgentConvergesShown(s, id);
      }
    }
  }

  lemma TaskConverges(s: Sys, i: nat)
    requires Loaded(s.db, s.store, s.history) && i < |s.history.tasks.rows| == |s.store.tasks|
    requires var h, log := s.history, Log(s.db, s.history.project);
             h.tasks.at <= h.cursor + |h.applied|
             && h.tasks.rows[i].status == TaskTruth(log[..h.tasks.at], h.tasks.rows[i].id)
    ensures var h, log := s.history, Log(s.db, s.history.project);
            s.store.tasks[i].status == TaskTruth(log[..h.cursor + |h.applied|], s.store.tasks[i].id)
  {
    var h := s.history;
    TasksFollowFold(h.tasks.rows, h.applied);
    TaskConvergence(Log(s.db, h.project), h.tasks.rows[i].id, h.cursor, h.tasks.at, h.cursor + |h.applied|);
  }

  lemma AgentConvergesShown(s: Sys, id: Id)
    requires Loaded(s.db, s.store, s.history)
    requires var h, log := s.history, Log(s.db, s.history.project);
             h.agents.at <= h.cursor + |h.applied| && CreationAgrees(log, id)
             && AgentState(h.agents.rows, id) == AgentTruth(log[..h.agents.at], id)
    ensures var h, log := s.history, Log(s.db, s.history.project);
            AgentState(s.store.agents, id) == AgentTruth(log[..h.cursor + |h.applied|], id)
  {
    hide FoldAgent, CreationAgrees, AgentState, Log;
    var h := s.history;
    AgentsFollowFold(h.agents.rows, h.applied, id);
    AgentConvergesHere(Log(s.db, h.project), id, h.cursor, h.agents.at, h.cursor + |h.applied|);
  }

  /** What the page does with one committed row when its lists are settled. */
  ghost predicate Reacts(s: Sys, t: Sys, e: Envelope, k: nat, last: nat) {
    if k < last then t == s
    else if k == last
    then t.store.lastSequence == Some(last + 1) && Synced(t.store) && t.history.applied == s.history.applied + [e]
    else SameLists(s.store, t.store) && t.store.lastSequence == Some(last) && t.store.resyncRequired
         && t.store.syncJob == Some(s.store.nextJob) && t.history == s.history
         && t.db == s.db && Current(t.store, s.store.generation)
         && t.jobs == s.jobs[s.store.nextJob := Job(s.store.generation, e.project, FetchingEvents, None, None, None)]
  }

  /** On a live stream of a settled page, a row from before the cursor changes nothing, the next
      row is applied, and any later row, the sign of a loss, starts a resync of the same session
      and project. */
  lemma EveryRowIsHandled(steps: seq<Step>, stream: Stream, k: nat)
    requires var s := Run(steps);
             && Synced(s.store) && s.store.syncJob.None? && s.store.lastSequence.Some?
             && stream in s.streams && stream.session == s.store.generation
             && k < |Log(s.db, stream.project)|
    ensures var s := Run(steps);
            var e := Log(s.db, stream.project)[k];
            Reacts(s, Exec(s, Deliver(stream, e)), e, k, s.store.lastSequence.value)
  {
    RunKeepsInv(steps);
    RowIsHandled(Run(steps), stream, k);
  }

  lemma RowIsHandled(s: Sys, stream: Stream, k: nat)
    requires Inv(s) && Synced(s.store) && s.store.syncJob.None? && s.store.lastSequence.Some?
    requires stream in s.streams && stream.session == s.store.generation && k < |Log(s.db, stream.project)|
    ensures var e := Log(s.db, stream.project)[k];
            Reacts(s, Exec(s, Deliver(stream, e)), e, k, s.store.lastSequence.value)
  {
    hide Inv, Loaded, SequenceCheck, ApplyEnvelope, Log;
    var e := Log(s.db, stream.project)[k];
    StreamIsForHistory(s, stream);
    GateDecides(s, e, k);
    assert Enabled(s, Deliver(stream, e));
    assert Adopt(s, s.store) == s;
    if k == s.store.lastSequence.value {
      AppliedCursor(s, e);
    }
  }

  lemma StreamIsForHistory(s: Sys, stream: Stream)
    requires Inv(s) && Synced(s.store) && stream in s.streams && stream.session == s.store.generation
    ensures stream.project == s.history.project && s.store.projectId == Some(stream.project)
  {
    assert StreamOk(s.store, stream);
  }

  lemma AppliedCursor(s: Sys, e: Envelope)
    requires Accepts(s.store, e) && SequenceCheck(ProjectionOf(s.store), e) == Apply
    requires s.store.lastSequence.Some? && e.sequence == Some(s.store.lastSequence.value + 1)
    ensures EnvelopeOf(s.store, e).lastSequence == e.sequence && (Synced(s.store) ==> Synced(EnvelopeOf(s.store, e)))
  {
  }

  /** The gate's verdict on committed row `k`, counted from 0: behind, next, or beyond the cursor. */
  lemma GateDecides(s: Sys, e: Envelope, k: nat)
    requires Inv(s) && Synced(s.store) && s.store.syncJob.None? && s.store.lastSequence.Some?
    requires k < |Log(s.db, s.history.project)| && e == Log(s.db, s.history.project)[k]
    ensures e.project == s.history.project && e.sequence == Some(k + 1) && Accepts(s.store, e)
    ensures var last := s.store.lastSequence.value;
            SequenceCheck(ProjectionOf(s.store), e) == if k < last then Duplicate else if k == last then Apply else Gap
  {
    assert ProjectOk(s.db, s.history.project);
    if k >= s.store.lastSequence.value {
      NotSeenYet(s, e, k);
    }
  }

  lemma NotSeenYet(s: Sys, e: Envelope, k: nat)
    requires Inv(s) && Synced(s.store) && s.store.lastSequence.Some? && s.store.lastSequence.value <= k
    requires k < |Log(s.db, s.history.project)| && e == Log(s.db, s.history.project)[k]
    ensures e.id !in ProjectionOf(s.store).seen
  {
    var p := s.history.project;
    var log, events := Log(s.db, p), s.store.events;
    assert ProjectOk(s.db, p);
    UniquePrefix(log, Uncommitted(s.db, p));
    var seen := ProjectionOf(s.store).seen;
    forall i | 0 <= i < |seen| ensures seen[i] != e.id {
      assert seen[i] == events[i].id;
      var j :| 0 <= j < |log| && log[j] == events[i];
    }
  }

  // ----------------------------------------------------------------- recovery

  /** The job's requests answered one after the other, with nothing else in between. */
  function Answers(j: nat, rows: seq<Envelope>, agents: seq<AgentInfo>, tasks: seq<TaskInfo>, hitl: seq<HitlRequest>): seq<Step> {
    [ReadEvents(j, rows), EventsArrive(j), ReadAgents(j, agents), ReadTasks(j, tasks), FinishJob(j, hitl), SettleJob(j)]
  }

  /** Nothing but this job has moved. */
  ghost predicate JobStands(s: Sys, t: Sys, j: nat, job: Job) {
    t.db == s.db && t.store == s.store && j in t.jobs && t.jobs[j] == job
  }

  lemma AnswerEvents(s: Sys, t: Sys, j: nat, job: Job, rows: seq<Envelope>)
    requires JobStands(s, t, j, job) && job.phase == FetchingEvents && job.events.None? && CommittedRows(s.db, job.project, rows)
    ensures JobStands(s, Exec(t, ReadEvents(j, rows)), j, job.(events := Some(rows)))
  {
  }

  lemma AnswerArrives(s: Sys, t: Sys, j: nat, job: Job)
    requires JobStands(s, t, j, job) && job.phase == FetchingEvents && job.events.Some? && Current(s.store, job.session)
    ensures JobStands(s, Exec(t, EventsArrive(j)), j, job.(phase := FetchingEntities))
  {
  }

  lemma AnswerAgents(s: Sys, t: Sys, j: nat, job: Job, rows: seq<AgentInfo>)
    requires JobStands(s, t, j, job) && job.phase == FetchingEntities && job.agents.None?
    ensures JobStands(s, Exec(t, ReadAgents(j, rows)), j, job.(agents := Some(Read(rows, |Log(s.db, job.project)|))))
  {
  }

  lemma AnswerTasks(s: Sys, t: Sys, j: nat, job: Job, rows: seq<TaskInfo>)
    requires JobStands(s, t, j, job) && job.phase == FetchingEntities && job.tasks.None?
    ensures JobStands(s, Exec(t, ReadTasks(j, rows)), j, job.(tasks := Some(Read(rows, |Log(s.db, job.project)|))))
  {
  }

  /** Healed: synced again, no job in flight, and showing what was just read. */
  predicate Healed(s: Sys, t: Sys, rows: seq<Envelope>, agents: seq<AgentInfo>, tasks: seq<TaskInfo>) {
    && Synced(t.store) && t.store.syncJob.None? && t.db == s.db
    && t.store.agents == agents && t.store.tasks == tasks && t.store.events == rows
    && t.store.lastSequence == Some(Cursor(rows))
  }

  lemma AnswersFinish(s: Sys, t: Sys, j: nat, job: Job, hitl: seq<HitlRequest>)
    requires JobStands(s, t, j, job) && job.phase == FetchingEntities && Current(s.store, job.session) && s.store.projectId.Some?
    requires job.events.Some? && job.agents.Some? && job.tasks.Some?
    ensures Healed(s, Exec(Exec(t, FinishJob(j, hitl)), SettleJob(j)),
                   job.events.value, job.agents.value.rows, job.tasks.value.rows)
  {
    var u := Exec(t, FinishJob(j, hitl));
    assert u == Finish(t, j, hitl);
    assert j in u.jobs && u.jobs[j] == job.(phase := Done);
  }

  /** Every resync heals: once the requests of the current session's job are answered, whatever
      agents and tasks they list, the page is synced again and shows exactly what it read. */
  lemma ResyncHeals(s: Sys, j: nat, rows: seq<Envelope>, agents: seq<AgentInfo>, tasks: seq<TaskInfo>, hitl: seq<HitlRequest>)
    requires Inv(s) && j in s.jobs && s.jobs[j].phase == FetchingEvents && s.jobs[j].events.None?
    requires Current(s.store, s.jobs[j].session) && CommittedRows(s.db, s.jobs[j].project, rows)
    ensures Healed(s, ExecAll(s, Answers(j, rows, agents, tasks, hitl)), rows, agents, tasks)
    ensures Inv(ExecAll(s, Answers(j, rows, agents, tasks, hitl)))
  {
    hide Exec, Healed, CommittedRows, Log;
    var job, steps := s.jobs[j], Answers(j, rows, agents, tasks, hitl);
    var n := |Log(s.db, job.project)|;
    assert JobOk(s.db, s.store, job);
    var job1 := job.(events := Some(rows));
    var job2 := job1.(phase := FetchingEntities);
    var job3 := job2.(agents := Some(Read(agents, n)));
    var job4 := job3.(tasks := Some(Read(tasks, n)));
    var s1 := Exec(s, steps[0]);
    AnswerEvents(s, s, j, job, rows);
    var s2 := Exec(s1, steps[1]);
    AnswerArrives(s, s1, j, job1);
    var s3 := Exec(s2, steps[2]);
    AnswerAgents(s, s2, j, job2, agents);
    var s4 := Exec(s3, steps[3]);
    AnswerTasks(s, s3, j, job3, tasks);
    AnswersFinish(s, s4, j, job4, hitl);
    ExecAllKeepsInv(s, steps);
    ExecSix(s, steps);
  }

  lemma ExecSix(s: Sys, steps: seq<Step>)
    requires |steps| == 6
    ensures ExecAll(s, steps) == Exec(Exec(Exec(Exec(Exec(Exec(s, steps[0]), steps[1]), steps[2]), steps[3]), steps[4]), steps[5])
  {
    hide Exec;
    assert steps[..5][..4] == steps[..4] && steps[..4][..3] == steps[..3];
    assert steps[..3][..2] == steps[..2] && steps[..2][..1] == steps[..1] && steps[..1][..0] == [];
    assert ExecAll(s, steps[..1]) == Exec(s, steps[0]);
    assert ExecAll(s, steps[..2]) == Exec(ExecAll(s, steps[..1]), steps[1]);
    assert ExecAll(s, steps[..3]) == Exec(ExecAll(s, steps[..2]), steps[2]);
    assert ExecAll(s, steps[..4]) == Exec(ExecAll(s, steps[..3]), steps[3]);
    assert ExecAll(s, steps[..5]) == Exec(ExecAll(s, steps[..4]), steps[4]);
  }

  /** A loss heals: the first row after it starts a resync, and once that is answered the page is
      synced again and shows what it read. */
  lemma LossHeals(steps: seq<Step>, stream: Stream, k: nat, rows: seq<Envelope>, agents: seq<AgentInfo>,
                  tasks: seq<TaskInfo>, hitl: seq<HitlRequest>)
    requires var s := Run(steps);
             && Synced(s.store) && s.store.syncJob.None? && s.store.lastSequence.Some?
             && stream in s.streams && stream.session == s.store.generation
             && s.store.lastSequence.value < k < |Log(s.db, stream.project)|
             && CommittedRows(s.db, stream.project, rows)
    ensures var s := Run(steps);
            var noticed := Exec(s, Deliver(stream, Log(s.db, stream.project)[k]));
            Healed(s, ExecAll(noticed, Answers(s.store.nextJob, rows, agents, tasks, hitl)), rows, agents, tasks)
  {
    hide Exec, ExecAll, Inv, CommittedRows, Log;
    var s := Run(steps);
    var e := Log(s.db, stream.project)[k];
    var noticed := Exec(s, Deliver(stream, e));
    RunKeepsInv(steps);
    EveryRowIsHandled(steps, stream, k);
    StreamIsForHistory(s, stream);
    GateDecides(s, e, k);
    StepKeepsInv(s, Deliver(stream, e));
    ResyncHeals(noticed, s.store.nextJob, rows, agents, tasks, hitl);
  }

  /** A page can be synced and not show what the log says: the lists are read from tables that
      are written apart from the log. Here the log is empty, and the one task shown is `ready`. */
  lemma ShownAheadOfTheLog(p: Id, task: Id, hitl: seq<HitlRequest>)
    requires p != 0
    ensures var start := Exec(INIT, StartPage(p));
            var t := ExecAll(start, Answers(0, [], [], [TaskInfo(task, Ready)], hitl));
            && Synced(t.store) && t.store.tasks == [TaskInfo(task, Ready)]
            && Log(t.db, p) == [] && TaskTruth(Log(t.db, p), task) == Pending
  {
    var start := Exec(INIT, StartPage(p));
    RunKeepsInv([]);
    StepKeepsInv(INIT, StartPage(p));
    assert start.db == EMPTY_DB && start.jobs == map[0 := Job(start.store.generation, p, FetchingEvents, None, None, None)];
    hide Exec, Inv;
    ResyncHeals(start, 0, [], [], [TaskInfo(task, Ready)], hitl);
  }

  // ------------------------------------------------------------- single flight

  /** The resyncs under way: each was started by an earlier call, and of the current session there is
      the one the store names and no other. */
  ghost predicate SingleFlight(s: Sys) {
    && (forall j | j in s.jobs ::
          j < s.store.nextJob && s.jobs[j].session <= s.store.generation
          && (s.jobs[j].session == s.store.generation ==> s.store.syncJob == Some(j)))
    && (s.store.syncJob.Some? ==>
          s.store.syncJob.value in s.jobs && s.jobs[s.store.syncJob.value].session == s.store.generation)
    && (!s.store.stopped ==> s.store.projectId.Some?)
  }

  /** A store that starts a resync names it, and otherwise keeps its session and what it names. */
  ghost predicate FliesOn(a: Store, b: Store) {
    && (!b.stopped ==> b.projectId.Some?) && a.generation <= b.generation
    && if b.nextJob == a.nextJob
       then (b.generation == a.generation && b.syncJob == a.syncJob) || (b.generation > a.generation && b.syncJob.None?)
       else b.nextJob == a.nextJob + 1 && b.projectId.Some? && b.syncJob == Some(a.nextJob)
            && (b.generation > a.generation || a.syncJob.None?)
  }

  lemma AdoptFlies(s: Sys, store: Store)
    requires SingleFlight(s) && FliesOn(s.store, store)
    ensures SingleFlight(Adopt(s, store))
  {
  }

  lemma PageFlies(s: Sys, step: Step)
    requires SingleFlight(s)
    requires step.StartPage? || step.StopPage? || step.RequestResync? || step.DeliverResyncRequired?
    ensures SingleFlight(Exec(s, step))
  {
    hide SequenceCheck, ApplyEnvelope, CommittedRows;
    match step
    case StartPage(p) => AdoptFlies(s, StartOf(s.store, p));
    case StopPage => AdoptFlies(s, StopOf(s.store));
    case RequestResync => AdoptFlies(s, ResyncOf(s.store));
    case DeliverResyncRequired(_) => AdoptFlies(s, RequireResyncOf(s.store));
  }

  lemma EndFlies(s: Sys, step: Step)
    requires SingleFlight(s)
    requires step.FailJob? || step.SettleJob? || step.RefreshHitl? || step.OpenStream?
    ensures SingleFlight(Exec(s, step))
  {
    hide SequenceCheck, ApplyEnvelope, CommittedRows;
  }

  lemma JobFlies(s: Sys, step: Step)
    requires SingleFlight(s)
    requires step.ReadEvents? || step.EventsArrive? || step.ReadAgents? || step.ReadTasks? || step.FinishJob?
    ensures SingleFlight(Exec(s, step))
  {
    hide CommittedRows;
  }

  lemma DeliverFlies(s: Sys, stream: Stream, e: Envelope)
    requires SingleFlight(s)
    ensures SingleFlight(DeliverTo(s, stream, e))
  {
    hide SequenceCheck, ApplyEnvelope;
    if Current(s.store, stream.session) {
      AdoptFlies(s, if e.project != stream.project then RequireResyncOf(s.store) else EnvelopeOf(s.store, e));
    }
  }

  lemma FlightStep(s: Sys, step: Step)
    requires SingleFlight(s)
    ensures SingleFlight(Exec(s, step))
  {
    match step
    case InsertRow(_, _) =>
    case CommitTx(_) =>
    case RollbackTx(_) =>
    case AttachBus(_) =>
    case ReadEvents(_, _) => JobFlies(s, step);
    case EventsArrive(_) => JobFlies(s, step);
    case ReadAgents(_, _) => JobFlies(s, step);
    case ReadTasks(_, _) => JobFlies(s, step);
    case FinishJob(_, _) => JobFlies(s, step);
    case Deliver(stream, e) => DeliverFlies(s, stream, e);
    case FailJob(_) => EndFlies(s, step);
    case SettleJob(_) => EndFlies(s, step);
    case RefreshHitl(_) => EndFlies(s, step);
    case OpenStream => EndFlies(s, step);
    case _ => PageFlies(s, step);
  }

  /** In every run at most one resync of the current session is under way. */
  lemma {:induction false} RunIsSingleFlight(steps: seq<Step>)
    ensures SingleFlight(Run(steps))
  {
    if steps != [] {
      RunIsSingleFlight(steps[..|steps| - 1]);
      FlightStep(Run(steps[..|steps| - 1]), steps[|steps| - 1]);
    }
  }

  // ------------------------------------------------------- what each signal leads to

  /** Opening a project: nothing when it is open already, otherwise a new session for it, without a
      cursor and with a resync under way. */
  lemma StartLeadsToResync(s: Sys, p: Id)
    ensures var t := Exec(s, StartPage(p));
            && t.store.projectId == Some(p) && !t.store.stopped
            && if s.store.projectId == Some(p) && !s.store.stopped then t == s
               else t.store.generation > s.store.generation && t.store.lastSequence.None? && t.store.resyncRequired
                    && t.store.syncJob == Some(s.store.nextJob) && s.store.nextJob in t.jobs
  {
  }

  /** Leaving it: the session ends, and no resync of it is named any more. */
  lemma StopEndsSession(s: Sys)
    ensures var t := Exec(s, StopPage);
            t.store.stopped && t.store.generation > s.store.generation && t.store.syncJob.None? && t.jobs == s.jobs
  {
  }

  /** A page that is asked for a resync has one under way afterwards: the one it had, or a new one.
      A stopped page stays as it was. */
  lemma ResyncStartsOnce(s: Sys)
    ensures var t := Exec(s, RequestResync);
            && (s.store.stopped || s.store.projectId.None? || s.store.syncJob.Some? ==> t == s)
            && (!s.store.stopped && s.store.projectId.Some? && s.store.syncJob.None? ==>
                  t.store.resyncRequired && t.store.syncJob == Some(s.store.nextJob) && s.store.nextJob in t.jobs)
  {
  }

  /** The server's resync notice, like an event of another project, makes a page of the stream's
      session resync, and any other page ignore it. */
  lemma NoticeLeadsToResync(s: Sys, stream: Stream, e: Envelope)
    requires stream in s.streams && (!s.store.stopped ==> s.store.projectId.Some?)
    ensures var t := Exec(s, DeliverResyncRequired(stream));
            if Current(s.store, stream.session) then t.store.resyncRequired && t.store.syncJob.Some? else t == s
    ensures e.project != stream.project && Enabled(s, Deliver(stream, e)) ==>
              Exec(s, Deliver(stream, e)) == Exec(s, DeliverResyncRequired(stream))
  {
  }

  /** A resync that fails is remembered as wanted in its own session, and forgotten in another; one
      whose session has ended reads no lists. */
  lemma FailureIsRemembered(s: Sys, j: nat)
    ensures Enabled(s, FailJob(j)) ==>
              var t := Exec(s, FailJob(j));
              t.jobs[j].phase == Done
              && t.store == if Current(s.store, s.jobs[j].session) then s.store.(resyncRequired := true) else s.store
    ensures Enabled(s, EventsArrive(j)) ==>
              Exec(s, EventsArrive(j)).jobs[j].phase == if Current(s.store, s.jobs[j].session) then FetchingEntities else Done
  {
  }

  /** A resync that is over and settled leaves its session free for the next one. */
  lemma SettledIsFree(s: Sys, j: nat)
    requires SingleFlight(s) && Enabled(s, SettleJob(j))
    ensures var t := Exec(s, SettleJob(j));
            && j !in t.jobs
            && t.store == if s.jobs[j].session == s.store.generation then s.store.(syncJob := None) else s.store
  {
  }
}
