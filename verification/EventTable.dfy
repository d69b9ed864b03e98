/** The durable event table and the bridge that publishes from it
    (services/api/app/db/models/core/events.py, services/api/app/realtime/bridge.py). */
module EventTable {
  import opened Wrappers
  import opened Reducer

  /** Rows one database session has inserted for a project and not yet committed.
      The counter upsert locks the project until the transaction ends. */
  datatype Tx = Tx(session: nat, rows: seq<Envelope>)

  /** `logs`: committed rows; `pending`: uncommitted ones, under the project's lock;
      `stash`: what the bridge keeps on a session; `wire`: what reached the bus, from
      where any copy may be lost, repeated or overtaken. */
  datatype Db = Db(
    logs: map<Id, seq<Envelope>>, pending: map<Id, Tx>, stash: map<nat, seq<Envelope>>,
    busActive: bool, wire: set<Envelope>)

  const EMPTY_DB := Db(map[], map[], map[], false, {})

  function Log(db: Db, p: Id): seq<Envelope> {
    if p in db.logs then db.logs[p] else []
  }

  function Uncommitted(db: Db, p: Id): seq<Envelope> {
    if p in db.pending then db.pending[p].rows else []
  }

  function Stash(db: Db, session: nat): seq<Envelope> {
    if session in db.stash then db.stash[session] else []
  }

  predicate Committed(db: Db, e: Envelope) {
    e in Log(db, e.project)
  }

  // ------------------------------------------------------------------- steps

  predicate FreshId(rows: seq<Envelope>, id: Id) {
    forall i | 0 <= i < |rows| :: rows[i].id != id
  }

  predicate CanInsert(db: Db, session: nat, e: Envelope) {
    && (e.project in db.pending ==> db.pending[e.project].session == session)
    && FreshId(Log(db, e.project) + Uncommitted(db, e.project), e.id)
  }

  /** The row with the next dense sequence number. */
  function NumberedRow(db: Db, e: Envelope): Envelope {
    e.(sequence := Some(|Log(db, e.project)| + |Uncommitted(db, e.project)| + 1))
  }

  /** Flush one insert: number the row and, while a bus is attached, stash its envelope. */
  function Insert(db: Db, session: nat, e: Envelope): Db {
    var row := NumberedRow(db, e);
    db.(pending := db.pending[e.project := Tx(session, Uncommitted(db, e.project) + [row])],
        stash := if db.busActive then db.stash[session := Stash(db, session) + [row]] else db.stash)
  }

  function LogAfterCommit(db: Db, session: nat, p: Id): seq<Envelope> {
    if p in db.pending && db.pending[p].session == session then Log(db, p) + db.pending[p].rows else Log(db, p)
  }

  function Released(db: Db, session: nat): map<Id, Tx> {
    map p | p in db.pending && db.pending[p].session != session :: db.pending[p]
  }

  /** Commit; the hook hands the stash to the bus, or keeps it when no bus is attached. */
  function Commit(db: Db, session: nat): Db {
    Db(map p | p in db.logs.Keys + db.pending.Keys :: LogAfterCommit(db, session, p),
       Released(db, session),
       if db.busActive then db.stash[session := []] else db.stash,
       db.busActive,
       if db.busActive then db.wire + (set e | e in Stash(db, session)) else db.wire)
  }

  function Rollback(db: Db, session: nat): Db {
    db.(pending := Released(db, session), stash := db.stash[session := []])
  }

  function Attach(db: Db, active: bool): Db {
    db.(busActive := active)
  }

  // --------------------------------------------------------------- invariant

  ghost predicate DenseFrom(rows: seq<Envelope>, p: Id, k: nat) {
    forall i | 0 <= i < |rows| :: rows[i].project == p && rows[i].sequence == Some(k + i + 1)
  }

  ghost predicate UniqueIds(rows: seq<Envelope>) {
    forall i, j | 0 <= i < j < |rows| :: rows[i].id != rows[j].id
  }

  ghost predicate ProjectOk(db: Db, p: Id) {
    && DenseFrom(Log(db, p), p, 0)
    && DenseFrom(Uncommitted(db, p), p, |Log(db, p)|)
    && UniqueIds(Log(db, p) + Uncommitted(db, p))
  }

  /** A stashed envelope is committed, or pending in the very session that stashed it. */
  ghost predicate StashedOk(db: Db, session: nat, e: Envelope) {
    Committed(db, e)
    || (e.project in db.pending && db.pending[e.project].session == session && e in db.pending[e.project].rows)
  }

  ghost predicate StashOk(db: Db, session: nat) {
    forall e | e in Stash(db, session) :: StashedOk(db, session, e)
  }

  ghost predicate WireOk(db: Db) {
    forall e | e in db.wire :: Committed(db, e)
  }

  ghost predicate TableInv(db: Db) {
    (forall p :: ProjectOk(db, p)) && (forall s :: StashOk(db, s)) && WireOk(db)
  }

  /** Committed rows are never changed or removed. */
  ghost predicate Grows(before: Db, after: Db) {
    forall p :: Log(before, p) <= Log(after, p)
  }

  lemma GrowsKeepsCommitted(before: Db, after: Db, e: Envelope)
    requires Grows(before, after) && Committed(before, e)
    ensures Committed(after, e)
  {
  }

  lemma InitTable()
    ensures TableInv(EMPTY_DB)
  {
  }

  lemma AppendRow(log: seq<Envelope>, rows: seq<Envelope>, p: Id, row: Envelope)
    requires DenseFrom(rows, p, |log|) && UniqueIds(log + rows) && FreshId(log + rows, row.id)
    requires row.project == p && row.sequence == Some(|log| + |rows| + 1)
    ensures DenseFrom(rows + [row], p, |log|) && UniqueIds(log + (rows + [row]))
  {
    var all := log + rows;
    assert log + (rows + [row]) == all + [row];
    forall i, j | 0 <= i < j < |all + [row]| ensures (all + [row])[i].id != (all + [row])[j].id {
      if j < |all| {
        assert all[i].id != all[j].id;
      }
    }
  }

  lemma InsertKeepsProject(db: Db, session: nat, e: Envelope, p: Id)
    requires ProjectOk(db, p) && CanInsert(db, session, e)
    ensures ProjectOk(Insert(db, session, e), p)
  {
    if p == e.project {
      AppendRow(Log(db, p), Uncommitted(db, p), p, NumberedRow(db, e));
    }
  }

  lemma InsertKeepsStash(db: Db, session: nat, e: Envelope, s: nat)
    requires StashOk(db, s) && CanInsert(db, session, e)
    ensures StashOk(Insert(db, session, e), s)
  {
    var db' := Insert(db, session, e);
    forall x | x in Stash(db', s) ensures StashedOk(db', s, x) {
      if x in Stash(db, s) {
        assert StashedOk(db, s, x);
      }
    }
  }

  lemma InsertKeepsTable(db: Db, session: nat, e: Envelope)
    requires TableInv(db) && CanInsert(db, session, e)
    ensures TableInv(Insert(db, session, e)) && Grows(db, Insert(db, session, e))
  {
    var db' := Insert(db, session, e);
    forall p ensures ProjectOk(db', p) {
      assert ProjectOk(db, p);
      InsertKeepsProject(db, session, e, p);
    }
    forall s ensures StashOk(db', s) {
      assert StashOk(db, s);
      InsertKeepsStash(db, session, e, s);
    }
    forall x | x in db'.wire ensures Committed(db', x) {
      assert Committed(db, x);
    }
  }

  lemma CommitPublishesCommitted(db: Db, session: nat, s: nat, e: Envelope)
    requires StashedOk(db, s, e)
    ensures StashedOk(Commit(db, session), s, e)
    ensures s == session ==> Committed(Commit(db, session), e)
  {
  }

  lemma CommitKeepsTable(db: Db, session: nat)
    requires TableInv(db)
    ensures TableInv(Commit(db, session)) && Grows(db, Commit(db, session))
  {
    var db' := Commit(db, session);
    forall p ensures Log(db, p) <= Log(db', p) && ProjectOk(db', p) {
      assert ProjectOk(db, p);
    }
    forall s ensures StashOk(db', s) {
      assert StashOk(db, s);
      forall x | x in Stash(db', s) ensures StashedOk(db', s, x) {
        CommitPublishesCommitted(db, session, s, x);
      }
    }
    forall x | x in db'.wire ensures Committed(db', x) {
      if x in db.wire {
        GrowsKeepsCommitted(db, db', x);
      } else {
        assert StashOk(db, session) && StashedOk(db, session, x);
        CommitPublishesCommitted(db, session, session, x);
      }
    }
  }

  lemma RollbackKeepsTable(db: Db, session: nat)
    requires TableInv(db)
    ensures TableInv(Rollback(db, session)) && Grows(db, Rollback(db, session))
  {
    var db' := Rollback(db, session);
    forall p ensures ProjectOk(db', p) {
      assert ProjectOk(db, p);
      assert Log(db, p) + [] == Log(db, p);
      if p in db.pending && db.pending[p].session == session {
        UniquePrefix(Log(db, p), Uncommitted(db, p));
      }
    }
    forall s ensures StashOk(db', s) {
      assert StashOk(db, s);
      forall x | x in Stash(db', s) ensures StashedOk(db', s, x) {
        assert StashedOk(db, s, x);
      }
    }
    forall x | x in db'.wire ensures Committed(db', x) {
      assert Committed(db, x);
    }
  }

  lemma AttachKeepsTable(db: Db, active: bool)
    requires TableInv(db)
    ensures TableInv(Attach(db, active)) && Grows(db, Attach(db, active))
  {
    var db' := Attach(db, active);
    forall p ensures ProjectOk(db', p) {
      assert ProjectOk(db, p);
    }
    forall s ensures StashOk(db', s) {
      assert StashOk(db, s);
      forall e | e in Stash(db', s) ensures StashedOk(db', s, e) {
        assert StashedOk(db, s, e);
      }
    }
    forall e | e in db'.wire ensures Committed(db', e) {
      assert Committed(db, e);
    }
  }

  lemma UniquePrefix(a: seq<Envelope>, b: seq<Envelope>)
    requires UniqueIds(a + b)
    ensures UniqueIds(a)
  {
    assert (a + b)[..|a|] == a;
    forall i, j | 0 <= i < j < |a| ensures a[i].id != a[j].id {
      assert (a + b)[i] == a[i] && (a + b)[j] == a[j];
    }
  }

  /** What a commit publishes: the session's stash while a bus is attached, and then the stash is
      empty; without a bus nothing is published and the stash waits. */
  lemma CommitPublishesStash(db: Db, session: nat)
    ensures var after := Commit(db, session);
            && (forall e :: e in after.wire <==> e in db.wire || (db.busActive && e in Stash(db, session)))
            && Stash(after, session) == (if db.busActive then [] else Stash(db, session))
            && forall s | s != session :: Stash(after, s) == Stash(db, s)
  {
  }
}
