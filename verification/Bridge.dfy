/** From the database session to the event bus
    (services/api/app/realtime/bridge.py and bus.py). */
module Bridge {
  import opened EventTable
  import opened Reducer
  import opened Subsequences
  import opened Wrappers

  /** The bounded publish queue; a capacity of 0 is unbounded, as in Python's `queue`.
      `inFlight` is the envelope that `_publish_one` is waiting for. */
  class EventBus {
    const capacity: nat
    const maxBytes: nat
    var started: bool
    var closed: bool
    var connected: bool
    var queue: seq<Envelope>
    var inFlight: Option<Envelope>
    var dropped: nat

    /** Envelopes handed over while open, taken off the queue, and published; and how many were
        taken without ever being published or counted. */
    ghost var offered: seq<Envelope>
    ghost var taken: seq<Envelope>
    ghost var published: seq<Envelope>
    ghost var lost: nat

    constructor (capacity: nat, maxBytes: nat)
      ensures Valid() && !started && !closed && queue == [] && offered == []
      ensures this.capacity == capacity && this.maxBytes == maxBytes
    {
      this.capacity, this.maxBytes := capacity, maxBytes;
      started, closed, connected, queue, inFlight, dropped := false, false, false, [], None, 0;
      offered, taken, published, lost := [], [], [], 0;
    }

    /** Everything offered was published, is waiting, is being published, or was counted as
        dropped, but for at most one envelope whose publish was cancelled by the close. Nothing
        is reordered. */
    ghost predicate Valid()
      reads this
    {
      && (capacity > 0 ==> |queue| <= capacity)
      && |offered| == |published| + |queue| + dropped + lost + (if inFlight.Some? then 1 else 0)
      && lost <= 1 && (lost == 1 ==> closed) && (closed ==> inFlight.None?)
      && (inFlight.Some? ==> taken != [] && taken[|taken| - 1] == inFlight.value)
      && Subsequence(taken + queue, offered)
      && Subsequence(published, if inFlight.Some? then taken[..|taken| - 1] else taken)
    }

    predicate Listening()
      reads this
    {
      started && !closed
    }

    predicate Full()
      reads this
    {
      capacity > 0 && |queue| >= capacity
    }

    method Start()
      requires Valid() && !started
      modifies this`started
      ensures Valid() && started
    {
      started := true;
    }

    /** `close`: cancels the drain; a publish that is waiting then is neither published nor counted. */
    method Close()
      requires Valid()
      modifies this`closed, this`connected, this`inFlight, this`lost
      ensures Valid() && closed && inFlight.None?
      ensures lost == old(lost) + if old(inFlight).Some? then 1 else 0
    {
      if inFlight.Some? {
        SubsequenceSkip(published, taken[..|taken| - 1], inFlight.value);
        assert taken == taken[..|taken| - 1] + [inFlight.value];
        lost := lost + 1;
      }
      closed, connected, inFlight := true, false, None;
    }

    /** `publish_nowait`, for an envelope of this encoded size. */
    method PublishNowait(e: Envelope, size: nat) returns (ok: bool)
      requires Valid()
      modifies this`queue, this`dropped, this`offered
      ensures Valid()
      ensures ok <==> started && !closed && size <= maxBytes && (capacity == 0 || |old(queue)| < capacity)
      ensures queue == if ok then old(queue) + [e] else old(queue)
      ensures dropped == old(dropped) + if started && !closed && !ok then 1 else 0
      ensures offered == if started && !closed then old(offered) + [e] else old(offered)
    {
      if !started || closed {
        return false;
      }
      offered := offered + [e];
      if size > maxBytes || Full() {
        SubsequenceSkip(taken + queue, old(offered), e);
        dropped := dropped + 1;
        return false;
      }
      SubsequenceKeep(taken + queue, old(offered), e);
      assert taken + (queue + [e]) == taken + queue + [e];
      queue := queue + [e];
      ok := true;
    }

    /** One turn of `_drain`, up to the publish: connect, wait, or take the oldest envelope. */
    method TakeNext(reachable: bool) returns (goesOn: bool)
      requires Valid() && started && inFlight.None?
      modifies this`connected, this`queue, this`inFlight, this`taken
      ensures Valid() && goesOn == !closed
      ensures connected == if !closed && !old(connected) then reachable else old(connected)
      ensures inFlight.Some? <==> !closed && old(connected) && old(queue) != []
      ensures if inFlight.Some?
              then inFlight == Some(old(queue)[0]) && queue == old(queue)[1..] && taken == old(taken) + [old(queue)[0]]
              else queue == old(queue) && taken == old(taken)
    {
      goesOn := !closed;
      if goesOn {
        if !connected {
          connected := reachable;
        } else if queue != [] {
          var e := queue[0];
          assert taken + queue == taken + [e] + queue[1..];
          assert (taken + [e])[..|taken|] == taken;
          queue, taken, inFlight := queue[1..], taken + [e], Some(e);
        }
      }
    }

    /** The publish comes back: done, or failed and counted. */
    method PublishOne(accepted: bool)
      requires Valid() && inFlight.Some?
      modifies this`inFlight, this`published, this`dropped
      ensures Valid() && inFlight.None?
      ensures published == if accepted then old(published) + [old(inFlight).value] else old(published)
      ensures dropped == old(dropped) + if accepted then 0 else 1
    {
      hide Subsequence;
      var e := inFlight.value;
      ghost var before := taken[..|taken| - 1];
      assert taken == before + [e];
      inFlight := None;
      if accepted {
        SubsequenceKeep(published, before, e);
        published := published + [e];
      } else {
        SubsequenceSkip(published, before, e);
        dropped := dropped + 1;
      }
    }

    /** The account is exact but for one envelope, and that only once the bus is closed. */
    lemma AtMostOneMissing()
      requires Valid()
      ensures var counted := |published| + |queue| + dropped + if inFlight.Some? then 1 else 0;
              counted <= |offered| <= counted + 1 && (|offered| == counted + 1 ==> closed)
    {
    }
  }

  // -------------------------------------------------------------- the commit hooks

  type Stashes = map<nat, seq<Envelope>>

  function Kept(stash: Stashes, session: nat): seq<Envelope> {
    if session in stash then stash[session] else []
  }

  function StashAfterInsert(stash: Stashes, listening: bool, session: nat, row: Envelope): Stashes {
    if listening then stash[session := Kept(stash, session) + [row]] else stash
  }

  function StashAfterCommit(stash: Stashes, attached: bool, session: nat): Stashes {
    if attached then stash - {session} else stash
  }

  /** The process-wide bridge with the stash it keeps on each database session. */
  class EventBridge {
    var activeBus: EventBus?
    var stash: Stashes

    constructor ()
      ensures activeBus == null && stash == map[]
    {
      activeBus, stash := null, map[];
    }

    method ActivateBus(bus: EventBus)
      modifies this`activeBus
      ensures activeBus == bus
    {
      activeBus := bus;
    }

    method DeactivateBus()
      modifies this`activeBus
      ensures activeBus == null
    {
      activeBus := null;
    }

    /** `_on_after_insert`. */
    method OnAfterInsert(session: nat, row: Envelope)
      modifies this`stash
      ensures stash == StashAfterInsert(old(stash), activeBus != null && activeBus.started, session, row)
    {
      if activeBus == null || !activeBus.started {
        return;
      }
      stash := stash[session := Kept(stash, session) + [row]];
    }

    /** `_drain_stash`. */
    method DrainStash(session: nat) returns (envelopes: seq<Envelope>)
      modifies this`stash
      ensures envelopes == Kept(old(stash), session) && stash == old(stash) - {session}
    {
      envelopes := Kept(stash, session);
      stash := stash - {session};
    }

    method OnAfterRollback(session: nat)
      modifies this`stash
      ensures stash == old(stash) - {session}
    {
      var _ := DrainStash(session);
    }

    /** `_on_after_commit`: the stash is handed over whole, in order, and only once. */
    method OnAfterCommit(session: nat, size: Envelope -> nat)
      requires activeBus != null ==> activeBus.Valid()
      modifies this`stash, activeBus
      ensures activeBus != null ==> activeBus.Valid()
      ensures stash == StashAfterCommit(old(stash), activeBus != null, session)
      ensures activeBus != null ==>
                activeBus.Listening() == old(activeBus.Listening())
                && activeBus.offered == old(activeBus.offered) + if activeBus.Listening() then Kept(old(stash), session) else []
    {
      if activeBus == null {
        return;
      }
      var envelopes := DrainStash(session);
      PublishAll(activeBus, envelopes, size);
    }
  }

  /** The publishing loop of `_on_after_commit`. */
  method PublishAll(bus: EventBus, envelopes: seq<Envelope>, size: Envelope -> nat)
    requires bus.Valid()
    modifies bus
    ensures bus.Valid() && bus.Listening() == old(bus.Listening())
    ensures bus.offered == old(bus.offered) + if bus.Listening() then envelopes else []
  {
    hide Subsequence;
    ghost var start, listening := bus.offered, bus.Listening();
    for i := 0 to |envelopes|
      invariant bus.Valid() && bus.Listening() == listening
      invariant bus.offered == if listening then start + envelopes[..i] else start
    {
      assert envelopes[..i + 1] == envelopes[..i] + [envelopes[i]];
      var _ := bus.PublishNowait(envelopes[i], size(envelopes[i]));
    }
    assert envelopes[..|envelopes|] == envelopes;
  }

  // ------------------------------------------- the hooks against the event table

  /** What the hooks see of a process: its stashes, its bus, and everything offered to it. */
  datatype Process = Process(stash: Stashes, attached: bool, started: bool, closed: bool, offered: seq<Envelope>)

  datatype Hook = Inserts(session: nat, row: Envelope) | Commits(session: nat) | RollsBack(session: nat)
                | Switches(attached: bool, started: bool, closed: bool)

  /** The hooks, with the effects the methods above have; a bus that is not open takes nothing. */
  function Fire(p: Process, db: Db, h: Hook): Process {
    match h
    case Inserts(s, row) => p.(stash := StashAfterInsert(p.stash, p.attached && p.started, s, NumberedRow(db, row)))
    case Commits(s) =>
      p.(stash := StashAfterCommit(p.stash, p.attached, s),
         offered := p.offered + if p.attached && p.started && !p.closed then Kept(p.stash, s) else [])
    case RollsBack(s) => p.(stash := p.stash - {s})
    case Switches(attached, started, closed) => p.(attached := attached, started := started, closed := closed)
  }

  /** What the event table does meanwhile. */
  function Follow(p: Process, db: Db, h: Hook): Db {
    match h
    case Inserts(s, row) => Insert(Attach(db, p.attached && p.started), s, row)
    case Commits(s) => Commit(Attach(db, p.attached), s)
    case RollsBack(s) => Rollback(db, s)
    case Switches(_, _, _) => db
  }

  ghost predicate Possible(db: Db, h: Hook) {
    h.Inserts? ==> CanInsert(db, h.session, h.row)
  }

  /** The bridge's stashes are the table's, and everything it ever offered is committed. */
  ghost predicate Mirrors(p: Process, db: Db) {
    && TableInv(db)
    && (forall s :: Kept(p.stash, s) == Stash(db, s))
    && forall i | 0 <= i < |p.offered| :: Committed(db, p.offered[i])
  }

  lemma SameStashes(p: Process, db: Db, h: Hook, x: nat)
    requires forall s :: Kept(p.stash, s) == Stash(db, s)
    ensures Kept(Fire(p, db, h).stash, x) == Stash(Follow(p, db, h), x)
  {
    assert Kept(p.stash, x) == Stash(db, x);
  }

  lemma FollowKeepsTable(p: Process, db: Db, h: Hook)
    requires TableInv(db) && Possible(db, h)
    ensures TableInv(Follow(p, db, h)) && Grows(db, Follow(p, db, h))
  {
    match h
    case Inserts(s, row) =>
      AttachKeepsTable(db, p.attached && p.started);
      InsertKeepsTable(Attach(db, p.attached && p.started), s, row);
    case Commits(s) =>
      AttachKeepsTable(db, p.attached);
      CommitKeepsTable(Attach(db, p.attached), s);
    case RollsBack(s) => RollbackKeepsTable(db, s);
    case Switches(_, _, _) =>
  }

  lemma HookKeepsMirror(p: Process, db: Db, h: Hook)
    requires Mirrors(p, db) && Possible(db, h)
    ensures Mirrors(Fire(p, db, h), Follow(p, db, h))
    ensures !h.Commits? || !p.attached || !p.started || p.closed ==> Fire(p, db, h).offered == p.offered
  {
    var q, after := Fire(p, db, h), Follow(p, db, h);
    FollowKeepsTable(p, db, h);
    forall x ensures Kept(q.stash, x) == Stash(after, x) {
      SameStashes(p, db, h, x);
    }
    hide Insert, Commit, Rollback, Attach, TableInv, Grows, Stash, Committed;
    forall i | 0 <= i < |q.offered| ensures Committed(after, q.offered[i]) {
      if i < |p.offered| {
        GrowsKeepsCommitted(db, after, p.offered[i]);
      } else {
        OfferedOnCommit(p, db, h.session, i - |p.offered|);
      }
    }
  }

  /** What a commit hands over is committed by then: nothing that could still be rolled back. */
  lemma OfferedOnCommit(p: Process, db: Db, s: nat, i: nat)
    requires Mirrors(p, db) && i < |Kept(p.stash, s)|
    ensures Committed(Commit(Attach(db, p.attached), s), Kept(p.stash, s)[i])
  {
    var e := Kept(p.stash, s)[i];
    AttachKeepsTable(db, p.attached);
    assert Stash(Attach(db, p.attached), s) == Stash(db, s) && e in Stash(db, s);
    assert StashOk(Attach(db, p.attached), s) && StashedOk(Attach(db, p.attached), s, e);
    CommitPublishesCommitted(Attach(db, p.attached), s, s, e);
  }

  function FireAll(hooks: seq<Hook>): (Process, Db) {
    if hooks == [] then (Process(map[], false, false, false, []), EMPTY_DB)
    else
      var (p, db) := FireAll(hooks[..|hooks| - 1]);
      var h := hooks[|hooks| - 1];
      (Fire(p, db, h), Follow(p, db, h))
  }

  ghost predicate AllPossible(hooks: seq<Hook>) {
    forall i | 0 <= i < |hooks| :: Possible(FireAll(hooks[..i]).1, hooks[i])
  }

  lemma PossibleBefore(hooks: seq<Hook>)
    requires hooks != [] && AllPossible(hooks)
    ensures var n := |hooks| - 1;
            AllPossible(hooks[..n]) && Possible(FireAll(hooks[..n]).1, hooks[n])
  {
    var n := |hooks| - 1;
    forall i | 0 <= i < n ensures Possible(FireAll(hooks[..n][..i]).1, hooks[..n][i]) {
      assert hooks[..n][..i] == hooks[..i];
      assert Possible(FireAll(hooks[..i]).1, hooks[i]);
    }
  }

  /** Over any run of hooks, with the bus attached, detached, opened and closed at will,
      everything ever offered to it is a committed row. */
  lemma {:induction false} OnlyCommittedIsOffered(hooks: seq<Hook>)
    requires AllPossible(hooks)
    ensures Mirrors(FireAll(hooks).0, FireAll(hooks).1)
  {
    if hooks == [] {
      InitTable();
    } else {
      var n := |hooks| - 1;
      PossibleBefore(hooks);
      OnlyCommittedIsOffered(hooks[..n]);
      var (p, db) := FireAll(hooks[..n]);
      HookKeepsMirror(p, db, hooks[n]);
    }
  }

  /** The bus is attached and open from the start on. */
  ghost predicate ListensThroughout(hooks: seq<Hook>) {
    && hooks != [] && hooks[0] == Switches(true, true, false)
    && forall i | 0 < i < |hooks| :: !hooks[i].Switches?
  }

  /** Nothing is missed: every committed row was offered, and every other one waits in the stash of
      its session. */
  ghost predicate NothingMissed(p: Process, db: Db) {
    && p.attached && p.started && !p.closed
    && (forall e :: Committed(db, e) ==> e in p.offered)
    && forall q | q in db.pending ::
         forall i | 0 <= i < |db.pending[q].rows| :: db.pending[q].rows[i] in Kept(p.stash, db.pending[q].session)
  }

  lemma HookMissesNothing(p: Process, db: Db, h: Hook)
    requires NothingMissed(p, db) && Possible(db, h) && !h.Switches?
    ensures NothingMissed(Fire(p, db, h), Follow(p, db, h))
  {
    var q, after := Fire(p, db, h), Follow(p, db, h);
    forall e | Committed(after, e) ensures e in q.offered {
      if !Committed(db, e) {
        assert h.Commits? && e.project in db.pending && db.pending[e.project].session == h.session;
        var k :| 0 <= k < |db.pending[e.project].rows| && db.pending[e.project].rows[k] == e;
      }
    }
  }

  /** With the bus attached and open throughout, every committed row has been offered to it. */
  lemma {:induction false} EveryCommitIsOffered(hooks: seq<Hook>, e: Envelope)
    requires AllPossible(hooks) && ListensThroughout(hooks)
    ensures Committed(FireAll(hooks).1, e) <==> e in FireAll(hooks).0.offered
  {
    OnlyCommittedIsOffered(hooks);
    MissesNothing(hooks);
    if e in FireAll(hooks).0.offered {
      var offered := FireAll(hooks).0.offered;
      var i :| 0 <= i < |offered| && offered[i] == e;
    }
  }

  lemma {:induction false} MissesNothing(hooks: seq<Hook>)
    requires AllPossible(hooks) && ListensThroughout(hooks)
    ensures NothingMissed(FireAll(hooks).0, FireAll(hooks).1)
  {
    var n := |hooks| - 1;
    if n == 0 {
      assert hooks[..0] == [];
    } else {
      PossibleBefore(hooks);
      MissesNothing(hooks[..n]);
      HookMissesNothing(FireAll(hooks[..n]).0, FireAll(hooks[..n]).1, hooks[n]);
    }
  }
}
