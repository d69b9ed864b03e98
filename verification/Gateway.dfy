/** Fan-out to browser connections over bounded queues
    (services/api/app/realtime/gateway.py). */
module Gateway {
  import opened Subsequences
  import opened Wrappers

  datatype Live = Live(project: Option<nat>, id: nat)
  datatype ControlKind = ResyncRequired | Disconnect
  datatype Frame = Event(live: Live) | Control(kind: ControlKind)

  function Wrap(es: seq<Live>): seq<Frame> {
    seq(|es|, i requires 0 <= i < |es| => Event(es[i]))
  }

  /** One subscriber with its delivery queue; a capacity of 0 is unbounded, as in asyncio.
      `matched` records the matching broadcasts since registration, `taken` the frames
      the stream has taken from the queue. */
  class Connection {
    const id: nat
    const project: Option<nat>
    const capacity: nat
    const maxDrops: nat
    var queue: seq<Frame>
    var drops: nat
    var dead: bool
    ghost var matched: seq<Live>
    ghost var taken: seq<Frame>

    constructor (id: nat, project: Option<nat>, capacity: nat, maxDrops: nat)
      ensures Valid() && queue == [] && drops == 0 && !dead && matched == [] && taken == []
      ensures this.id == id && this.project == project && this.capacity == capacity && this.maxDrops == maxDrops
    {
      this.id, this.project, this.capacity, this.maxDrops := id, project, capacity, maxDrops;
      queue := [];
      drops := 0;
      dead := false;
      matched := [];
      taken := [];
    }

    predicate Full()
      reads this
    {
      capacity > 0 && |queue| >= capacity
    }

    /** Conservation, the bound, order, and no event of another project. */
    ghost predicate Valid()
      reads this
    {
      && (capacity > 0 ==> |queue| <= capacity)
      && |matched| == |taken| + |queue| + drops
      && Subsequence(taken + queue, Wrap(matched))
      && (project.Some? ==> forall i | 0 <= i < |matched| :: matched[i].project == project)
      && (drops > 0 && drops >= maxDrops ==> dead)
    }

    predicate Wants(e: Live) {
      project.None? || e.project == project
    }

    method PutNowait(f: Frame) returns (ok: bool)
      modifies this`queue
      ensures ok == (capacity == 0 || |old(queue)| < capacity) && ok == !old(Full())
      ensures queue == if ok then old(queue) + [f] else old(queue)
    {
      ok := !Full();
      if ok {
        queue := queue + [f];
      }
    }

    /** The stream's `queue.get()` on a non-empty queue. */
    method Take() returns (f: Frame)
      requires Valid() && queue != []
      modifies this`queue, this`taken
      ensures Valid() && f == old(queue)[0] && queue == old(queue)[1..] && taken == old(taken) + [f]
    {
      f := queue[0];
      assert taken + [f] + queue[1..] == taken + queue;
      taken := taken + [f];
      queue := queue[1..];
    }

    /** `_handle_slow_client`: count the drop. The control frames meet the very queue
        that was found full, so neither of them is ever queued. */
    method HandleSlowClient()
      requires Full()
      modifies this`queue, this`drops, this`dead
      ensures drops == old(drops) + 1 && queue == old(queue)
      ensures dead == (old(dead) || drops >= maxDrops)
    {
      drops := drops + 1;
      if drops == 1 {
        var _ := PutNowait(Control(ResyncRequired));
      }
      if drops >= maxDrops {
        dead := true;
        var _ := PutNowait(Control(Disconnect));
      }
    }

    /** `_deliver`. */
    method Deliver(e: Live)
      requires Valid() && (project.Some? ==> e.project == project)
      modifies this
      ensures Valid() && matched == old(matched) + [e] && taken == old(taken)
      ensures if old(Full()) then queue == old(queue) && drops == old(drops) + 1
              else queue == old(queue) + [Event(e)] && drops == old(drops) && dead == old(dead)
      ensures old(Full()) ==> dead == (old(dead) || drops >= maxDrops)
    {
      hide Subsequence;
      var ok := PutNowait(Event(e));
      assert Wrap(matched + [e]) == Wrap(matched) + [Event(e)];
      if ok {
        SubsequenceKeep(old(taken + queue), Wrap(matched), Event(e));
        assert taken + queue == old(taken + queue) + [Event(e)];
      } else {
        SubsequenceSkip(old(taken + queue), Wrap(matched), Event(e));
        HandleSlowClient();
      }
      matched := matched + [e];
    }

    /** What one offer does to a connection. One without a project, or of the envelope's own, gets
        the envelope last in its queue, or a drop counted when the queue is full; any other is left
        as it was. */
    twostate predicate WasOffered(e: Live)
      reads this
    {
      && taken == old(taken)
      && if project == None || e.project == project
         then matched == old(matched) + [e]
              && var room := capacity == 0 || |old(queue)| < capacity;
                 && queue == (if room then old(queue) + [Event(e)] else old(queue))
                 && drops == old(drops) + (if room then 0 else 1)
                 && dead == (old(dead) || (!room && drops >= maxDrops))
         else matched == old(matched) && queue == old(queue) && drops == old(drops) && dead == old(dead)
    }

    /** The body of the broadcast loop: skip a subscriber of another project. */
    method Offer(e: Live)
      requires Valid()
      modifies this
      ensures Valid() && WasOffered(e)
    {
      if Wants(e) {
        Deliver(e);
      }
    }

    /** No frame of another project ever waits in a queue or leaves it. */
    lemma OnlyOwnProject(k: nat)
      requires Valid() && project.Some? && k < |taken + queue|
      ensures (taken + queue)[k].Event? && (taken + queue)[k].live.project == project
    {
      SubsequenceFrom(taken + queue, Wrap(matched), k);
    }

    /** Nothing dropped means nothing missing: the frames are the matching broadcasts. */
    lemma LosslessUntilDrop()
      requires Valid() && drops == 0
      ensures taken + queue == Wrap(matched)
    {
      SubsequenceLength(taken + queue, Wrap(matched));
    }

    /** Only event frames ever wait in a queue or leave it. */
    lemma OnlyEventsQueued(k: nat)
      requires Valid() && k < |taken + queue|
      ensures (taken + queue)[k].Event?
    {
      SubsequenceFrom(taken + queue, Wrap(matched), k);
    }
  }

  class RealtimeGateway {
    const maxConnections: nat
    const queueSize: nat
    const maxDrops: nat
    var connections: map<nat, Connection>
    var nextId: nat

    constructor (maxConnections: nat, queueSize: nat, maxDrops: nat)
      ensures Valid() && connections == map[]
      ensures this.maxConnections == maxConnections && this.queueSize == queueSize && this.maxDrops == maxDrops
    {
      this.maxConnections, this.queueSize, this.maxDrops := maxConnections, queueSize, maxDrops;
      connections := map[];
      nextId := 0;
    }

    ghost predicate Valid()
      reads this, connections.Values
    {
      && |connections| <= maxConnections
      && (forall k | k in connections :: k < nextId && connections[k].id == k && connections[k].Valid())
    }

    /** `register`; `None` stands for the connection-limit error. */
    method Register(project: Option<nat>) returns (conn: Option<Connection>)
      requires Valid()
      modifies this
      ensures Valid()
      ensures conn.None? <==> old(|connections|) >= maxConnections
      ensures conn.None? ==> connections == old(connections)
      ensures conn.Some? ==>
                && fresh(conn.value) && conn.value.project == project && conn.value.capacity == queueSize
                && conn.value.maxDrops == maxDrops && conn.value.queue == [] && conn.value.matched == []
                && conn.value.drops == 0 && !conn.value.dead
                && conn.value.id !in old(connections)
                && connections == old(connections)[conn.value.id := conn.value]
    {
      if |connections| >= maxConnections {
        return None;
      }
      var c := new Connection(nextId, project, queueSize, maxDrops);
      connections := connections[nextId := c];
      nextId := nextId + 1;
      conn := Some(c);
    }

    method Unregister(conn: Connection)
      requires Valid()
      modifies this
      ensures Valid() && connections == old(connections) - {conn.id}
    {
      connections := connections - {conn.id};
    }

    /** `broadcast`: every subscriber to the envelope's project, or to all, is offered it exactly
        once, whatever happens to the others, and no other subscriber is touched. */
    method Broadcast(e: Live)
      requires Valid()
      modifies connections.Values
      ensures Valid()
      ensures forall k | k in connections :: connections[k].WasOffered(e)
    {
      hide Connection.Valid;
      var todo := connections.Keys;
      while todo != {}
        invariant todo <= connections.Keys && Valid()
        invariant forall k | k in todo :: unchanged(connections[k])
        invariant forall k | k in connections && k !in todo :: connections[k].WasOffered(e)
        decreases |todo|
      {
        var k :| k in todo;
        var conn := connections[k];
        conn.Offer(e);
        todo := todo - {k};
      }
    }
  }
}
