/** The office store's connection machinery (apps/web-ui/src/state/officeStore.ts):
    session generation, replay cursor and single-flight resynchronisation. */
module Office {
  import opened Wrappers
  import opened Reducer

  /** The store fields and module variables that the event stream touches.
      `syncJob` names the running resync; `nextJob` numbers the jobs started. */
  datatype Store = Store(
    projectId: Option<Id>, agents: seq<AgentInfo>, tasks: seq<TaskInfo>, hitl: seq<HitlRequest>,
    events: seq<Envelope>, lastSequence: Option<nat>, resyncRequired: bool,
    stopped: bool, generation: nat, syncJob: Option<nat>, nextJob: nat)

  const INITIAL := Store(None, [], [], [], [], None, false, true, 0, None, 0)

  function StopOf(s: Store): Store {
    s.(stopped := true, generation := s.generation + 1, syncJob := None)
  }

  function ResyncOf(s: Store): Store {
    if s.syncJob.Some? || s.projectId.None? || s.stopped then s
    else s.(resyncRequired := true, syncJob := Some(s.nextJob), nextJob := s.nextJob + 1)
  }

  function StartOf(s: Store, project: Id): Store {
    if s.projectId == Some(project) && !s.stopped then s
    else ResyncOf(StopOf(s).(projectId := Some(project), lastSequence := None, resyncRequired := false, stopped := false))
  }

  predicate Current(s: Store, session: nat) {
    session == s.generation && !s.stopped
  }

  function Cursor(events: seq<Envelope>): nat {
    if MaxSequence(events).Some? then MaxSequence(events).value else 0
  }

  /** The end of a resync: a job of another session changes nothing. */
  function FinishOf(s: Store, session: nat, agents: seq<AgentInfo>, tasks: seq<TaskInfo>, hitl: seq<HitlRequest>,
                    events: seq<Envelope>): Store {
    if !Current(s, session) then s
    else s.(agents := agents, tasks := tasks, hitl := hitl, events := events,
            lastSequence := Some(Cursor(events)), resyncRequired := false)
  }

  function FailOf(s: Store, session: nat): Store {
    if !Current(s, session) then s else s.(resyncRequired := true)
  }

  function SettleOf(s: Store, session: nat): Store {
    if session == s.generation then s.(syncJob := None) else s
  }

  function RequireResyncOf(s: Store): Store {
    ResyncOf(s.(resyncRequired := true))
  }

  /** The store seen as a projection, with the store's own cursor. */
  function ProjectionOf(s: Store): Projection {
    FromLists(s.agents, s.tasks, s.hitl, s.events).(lastSequence := s.lastSequence)
  }

  predicate Accepts(s: Store, e: Envelope) {
    s.syncJob.None? && !s.resyncRequired && s.projectId == Some(e.project)
  }

  function EnvelopeOf(s: Store, e: Envelope): Store {
    if !Accepts(s, e) then s
    else
      match SequenceCheck(ProjectionOf(s), e)
      case Duplicate => s
      case Gap => RequireResyncOf(s)
      case Apply =>
        var p := ApplyEnvelope(ProjectionOf(s), e);
        s.(agents := p.agents, tasks := p.tasks, hitl := p.hitl, events := p.events,
           lastSequence := p.lastSequence, resyncRequired := false)
  }

  class OfficeStore {
    var projectId: Option<Id>
    var agents: seq<AgentInfo>
    var tasks: seq<TaskInfo>
    var hitl: seq<HitlRequest>
    var events: seq<Envelope>
    var lastSequence: Option<nat>
    var resyncRequired: bool
    var stopped: bool
    var generation: nat
    var syncJob: Option<nat>
    var nextJob: nat

    constructor ()
      ensures View() == INITIAL
    {
      projectId := None;
      agents, tasks, hitl, events := [], [], [], [];
      lastSequence := None;
      resyncRequired := false;
      stopped := true;
      generation := 0;
      syncJob := None;
      nextJob := 0;
    }

    function View(): Store
      reads this
    {
      Store(projectId, agents, tasks, hitl, events, lastSequence, resyncRequired, stopped, generation, syncJob, nextJob)
    }

    method Stop()
      modifies this
      ensures View() == StopOf(old(View()))
    {
      stopped := true;
      generation := generation + 1;
      syncJob := None;
    }

    method Start(project: Id)
      modifies this
      ensures View() == StartOf(old(View()), project)
    {
      if projectId == Some(project) && !stopped {
        return;
      }
      Stop();
      stopped := false;
      projectId := Some(project);
      lastSequence := None;
      resyncRequired := false;
      Resync();
    }

    method Resync()
      modifies this
      ensures View() == ResyncOf(old(View()))
    {
      if syncJob.Some? || projectId.None? || stopped {
        return;
      }
      resyncRequired := true;
      syncJob := Some(nextJob);
      nextJob := nextJob + 1;
    }

    /** The last continuation of a resync job, after both rounds of requests. */
    method FinishResync(session: nat, newAgents: seq<AgentInfo>, newTasks: seq<TaskInfo>, newHitl: seq<HitlRequest>,
                        newEvents: seq<Envelope>)
      modifies this
      ensures View() == FinishOf(old(View()), session, newAgents, newTasks, newHitl, newEvents)
    {
      if session != generation || stopped {
        return;
      }
      var projection := ProjectionFromLists(newAgents, newTasks, newHitl, newEvents);
      agents, tasks, hitl, events := newAgents, newTasks, newHitl, newEvents;
      lastSequence := Some(if projection.lastSequence.Some? then projection.lastSequence.value else 0);
      resyncRequired := false;
    }

    method FailResync(session: nat)
      modifies this
      ensures View() == FailOf(old(View()), session)
    {
      if session != generation || stopped {
        return;
      }
      resyncRequired := true;
    }

    /** `job.finally`. */
    method SettleResync(session: nat)
      modifies this
      ensures View() == SettleOf(old(View()), session)
    {
      if session == generation {
        syncJob := None;
      }
    }

    /** The `RESYNC_REQUIRED` branch of `applyControl`. */
    method ApplyResyncRequired()
      modifies this
      ensures View() == RequireResyncOf(old(View()))
    {
      resyncRequired := true;
      Resync();
    }

    method ApplyEnvelopeToStore(e: Envelope)
      modifies this
      ensures View() == EnvelopeOf(old(View()), e)
    {
      if syncJob.Some? || resyncRequired || projectId != Some(e.project) {
        return;
      }
      var projection := ProjectionFromLists(agents, tasks, hitl, events);
      projection := projection.(lastSequence := lastSequence);
      var check := SequenceCheck(projection, e);
      if check == Duplicate {
        return;
      }
      if check == Gap {
        resyncRequired := true;
        Resync();
        return;
      }
      var next := ApplyEnvelope(projection, e);
      agents, tasks, hitl, events := next.agents, next.tasks, next.hitl, next.events;
      lastSequence := next.lastSequence;
      resyncRequired := false;
    }
  }
}
