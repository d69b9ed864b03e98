/** One stream request: status, replay from the table, then live frames
    (services/api/app/realtime/route.py). */
module Route {
  import opened Wrappers
  import Gateway
  import Reducer

  /** A row or live event is known here by its sequence number. */
  datatype Out = Status(degraded: bool) | ResyncRequired | EventOut(sequence: nat) | ControlOut(kind: Gateway.ControlKind) | Beat

  /** What one round of the live loop meets: a connection marked dead, a timeout, or a frame. */
  datatype Pull = Dead | Timeout | Item(frame: Gateway.Frame)

  /** The table of one project: rows `first..total` remain, dense; none when `first > total`. */
  datatype Table = Table(first: nat, total: nat)

  function Max(a: nat, b: nat): nat {
    if a > b then a else b
  }

  function Min(a: nat, b: nat): nat {
    if a < b then a else b
  }

  /** The numbers `a..b`. */
  function Range(a: nat, b: nat): seq<nat>
    decreases b + 1 - a
  {
    if a > b then [] else [a] + Range(a + 1, b)
  }

  /** `_replay_rows`: rows above `since`, ascending, at most `limit` of them. */
  function ReplayRows(t: Table, since: nat, limit: nat): seq<nat> {
    var from := Max(t.first, since + 1);
    Range(from, Min(t.total, from + limit - 1))
  }

  function MinSequence(t: Table): Option<nat> {
    if t.first > t.total then None else Some(t.first)
  }

  /** The round ends the loop: the connection is dead, or was told to disconnect. */
  predicate Ends(pull: Pull) {
    pull == Dead || pull == Item(Gateway.Control(Gateway.Disconnect))
  }

  /** The frame a round sends. */
  predicate Sends(pull: Pull, out: Out) {
    match pull
    case Dead => false
    case Timeout => out == Beat
    case Item(Event(e)) => out == EventOut(e.id)
    case Item(Control(kind)) => out == ControlOut(kind)
  }

  /** What the live loop promises: a frame for each round, in order, up to the first round that
      ends it, and no further. */
  ghost predicate Lives(out: seq<Out>, pulls: seq<Pull>) {
    && |out| <= |pulls|
    && (forall i | 0 <= i < |out| :: !Ends(pulls[i]) && Sends(pulls[i], out[i]))
    && (|out| < |pulls| ==> Ends(pulls[|out|]))
  }

  /** The live half of `_generator`. */
  method Live(pulls: seq<Pull>) returns (out: seq<Out>)
    ensures Lives(out, pulls)
  {
    out := [];
    while |out| < |pulls|
      invariant |out| <= |pulls| && forall i | 0 <= i < |out| :: !Ends(pulls[i]) && Sends(pulls[i], out[i])
      decreases |pulls| - |out|
    {
      match pulls[|out|] {
        case Dead => return;
        case Timeout => out := out + [Beat];
        case Item(Event(e)) => out := out + [EventOut(e.id)];
        case Item(Control(kind)) =>
          if kind == Gateway.Disconnect {
            return;
          }
          out := out + [ControlOut(kind)];
      }
    }
  }

  predicate Pruned(table: Table, since: nat) {
    MinSequence(table).Some? && MinSequence(table).value > since + 1
  }

  /** The event numbers in what is sent, in order. */
  function Numbers(out: seq<Out>): seq<nat> {
    if out == [] then []
    else
      var last := out[|out| - 1];
      Numbers(out[..|out| - 1]) + if last.EventOut? then [last.sequence] else []
  }

  /** What a stream sends up to its live half: one status frame, and with a cursor the replayed
      rows, preceded by a resync notice exactly when history was pruned. */
  ghost predicate Opens(head: seq<Out>, degraded: bool, since: Option<nat>, table: Table, limit: nat)
  {
    && head != [] && head[0] == Status(degraded)
    && Numbers(head) == (if since.Some? then ReplayRows(table, since.value, limit) else [])
    && (ResyncRequired in head <==> since.Some? && Pruned(table, since.value))
    && (ResyncRequired in head ==> head[1] == ResyncRequired)
    && forall i | 0 <= i < |head| :: head[i].EventOut? || head[i] == ResyncRequired || (i == 0 && head[i].Status?)
  }

  /** The whole stream: a head of `split` frames, then the live half. */
  ghost predicate StreamsAt(out: seq<Out>, degraded: bool, since: Option<nat>, table: Table, limit: nat, pulls: seq<Pull>,
                            split: nat)
  {
    split <= |out| && Opens(out[..split], degraded, since, table, limit) && Lives(out[split..], pulls)
  }

  ghost predicate Streams(out: seq<Out>, degraded: bool, since: Option<nat>, table: Table, limit: nat, pulls: seq<Pull>)
  {
    exists split: nat :: StreamsAt(out, degraded, since, table, limit, pulls, split)
  }

  /** The replayed rows as frames, one by one. */
  method Replay(rows: seq<nat>) returns (out: seq<Out>)
    ensures |out| == |rows| && forall i | 0 <= i < |out| :: out[i] == EventOut(rows[i])
  {
    out := [];
    for i := 0 to |rows|
      invariant |out| == i && forall k | 0 <= k < i :: out[k] == EventOut(rows[k])
    {
      out := out + [EventOut(rows[i])];
    }
  }

  /** `_generator` up to its live loop. */
  method Open(degraded: bool, since: Option<nat>, table: Table, limit: nat) returns (head: seq<Out>)
    ensures Opens(head, degraded, since, table, limit)
  {
    hide Numbers, ReplayRows;
    head := [Status(degraded)];
    NumbersNone(head);
    if since.Some? {
      var rows, minSeq := ReplayRows(table, since.value, limit), MinSequence(table);
      if minSeq.Some? && minSeq.value > since.value + 1 {
        head := head + [ResyncRequired];
        NumbersNone(head);
      }
      var start := head;
      var replayed := Replay(rows);
      head := start + replayed;
      NumbersEvents(replayed, rows);
      NumbersAppend(start, replayed);
    }
  }

  /** `_generator`. */
  method Generate(degraded: bool, since: Option<nat>, table: Table, limit: nat, pulls: seq<Pull>) returns (out: seq<Out>)
    ensures Streams(out, degraded, since, table, limit, pulls)
  {
    var head := Open(degraded, since, table, limit);
    var live := Live(pulls);
    out := head + live;
    assert out[..|head|] == head && out[|head|..] == live;
    assert StreamsAt(out, degraded, since, table, limit, pulls, |head|);
  }

  lemma {:induction false} NumbersNone(out: seq<Out>)
    requires forall i | 0 <= i < |out| :: !out[i].EventOut?
    ensures Numbers(out) == []
  {
    if out != [] {
      NumbersNone(out[..|out| - 1]);
    }
  }

  lemma {:induction false} NumbersEvents(out: seq<Out>, rows: seq<nat>)
    requires |out| == |rows| && forall i | 0 <= i < |out| :: out[i] == EventOut(rows[i])
    ensures Numbers(out) == rows
  {
    if out != [] {
      var n := |out| - 1;
      NumbersEvents(out[..n], rows[..n]);
      assert rows == rows[..n] + [rows[n]];
    }
  }

  lemma {:induction false} NumbersAppend(a: seq<Out>, b: seq<Out>)
    ensures Numbers(a + b) == Numbers(a) + Numbers(b)
  {
    if b == [] {
      assert a + b == a;
    } else {
      assert (a + b)[..|a + b| - 1] == a + b[..|b| - 1];
      NumbersAppend(a, b[..|b| - 1]);
    }
  }

  /** The event numbers among the frames pulled. */
  function Pulled(pulls: seq<Pull>): seq<nat> {
    if pulls == [] then []
    else
      var last := pulls[|pulls| - 1];
      Pulled(pulls[..|pulls| - 1]) + match last case Item(Event(e)) => [e.id] case _ => []
  }

  ghost predicate NeverEnds(pulls: seq<Pull>) {
    forall i | 0 <= i < |pulls| :: !Ends(pulls[i])
  }

  /** The live half sends exactly the events pulled before the round that ends it. */
  lemma {:induction false} LiveNumbers(out: seq<Out>, pulls: seq<Pull>)
    requires Lives(out, pulls)
    ensures Numbers(out) == Pulled(pulls[..|out|])
    ensures NeverEnds(pulls) ==> |out| == |pulls|
    decreases |out|
  {
    var n := |out|;
    if n > 0 {
      assert Lives(out[..n - 1], pulls[..n - 1]);
      LiveNumbers(out[..n - 1], pulls[..n - 1]);
      assert pulls[..n][..n - 1] == pulls[..n - 1] && pulls[..n - 1][..n - 1] == pulls[..n - 1];
      assert Sends(pulls[n - 1], out[n - 1]);
    }
  }

  /** The events a stream sends: the replayed rows, then those pulled before it ends. */
  lemma StreamNumbers(out: seq<Out>, degraded: bool, since: Option<nat>, table: Table, limit: nat, pulls: seq<Pull>)
      returns (live: nat)
    requires Streams(out, degraded, since, table, limit, pulls)
    ensures live <= |pulls| && (NeverEnds(pulls) ==> live == |pulls|)
    ensures Numbers(out) == (if since.Some? then ReplayRows(table, since.value, limit) else []) + Pulled(pulls[..live])
  {
    hide Numbers, Pulled, ReplayRows;
    var split: nat :| StreamsAt(out, degraded, since, table, limit, pulls, split);
    LiveNumbers(out[split..], pulls);
    NumbersAppend(out[..split], out[split..]);
    assert out == out[..split] + out[split..];
    live := |out[split..]|;
  }

  // -------------------------------------------------------- replay meets live

  /** Where the browser's gate stands: in step up to `last`, or stopped at a gap. */
  datatype Gate = InStep(last: nat) | Gap

  function Pass(g: Gate, s: nat): Gate {
    match g
    case Gap => Gap
    case InStep(last) => if s > last + 1 then Gap else if s <= last then InStep(last) else InStep(s)
  }

  function PassAll(g: Gate, seqs: seq<nat>): Gate
    decreases |seqs|
  {
    if seqs == [] then g else PassAll(Pass(g, seqs[0]), seqs[1..])
  }

  /** This is the reducer's own check, for an event not yet seen. */
  lemma GateIsSequenceCheck(p: Reducer.Projection, e: Reducer.Envelope)
    requires p.lastSequence.Some? && e.sequence.Some? && e.id !in p.seen
    ensures Pass(InStep(p.lastSequence.value), e.sequence.value) ==
              match Reducer.SequenceCheck(p, e)
              case Gap => Gap
              case Duplicate => InStep(p.lastSequence.value)
              case Apply => InStep(Reducer.RecordSeen(p, e).lastSequence.value)
  {
  }

  lemma {:induction false} PassAllAppend(g: Gate, a: seq<nat>, b: seq<nat>)
    ensures PassAll(g, a + b) == PassAll(PassAll(g, a), b)
    decreases |a|
  {
    if a == [] {
      assert a + b == b;
    } else {
      assert (a + b)[0] == a[0] && (a + b)[1..] == a[1..] + b;
      PassAllAppend(Pass(g, a[0]), a[1..], b);
    }
  }

  /** A dense range is passed without a gap exactly when it starts at most one above the cursor. */
  lemma {:induction false} PassRange(last: nat, a: nat, b: nat)
    ensures PassAll(InStep(last), Range(a, b)) ==
              if a > b then InStep(last) else if a <= last + 1 then InStep(Max(last, b)) else Gap
    decreases b + 1 - a
  {
    if a <= b {
      var next := Pass(InStep(last), a);
      if next.InStep? {
        PassRange(next.last, a + 1, b);
      } else {
        PassGap(Range(a + 1, b));
      }
    }
  }

  lemma {:induction false} PassGap(seqs: seq<nat>)
    ensures PassAll(Gap, seqs) == Gap
  {
    if seqs != [] {
      PassGap(seqs[1..]);
    }
  }

  lemma ReplayThenLive(since: nat, total: nat, limit: nat, published: nat, latest: nat)
    requires since <= total && published <= total && published < latest
    ensures var replay := ReplayRows(Table(1, total), since, limit);
            var gate := PassAll(InStep(since), replay + Range(published + 1, latest));
            (gate == Gap <==> published > since + limit)
            && (gate != Gap ==> gate == InStep(Max(latest, Min(total, since + limit))))
  {
    var replay := ReplayRows(Table(1, total), since, limit);
    PassAllAppend(InStep(since), replay, Range(published + 1, latest));
    PassRange(since, since + 1, Min(total, since + limit));
    PassRange(Min(total, since + limit), published + 1, latest);
    PassRange(since, published + 1, latest);
  }

  /** Registering before reading the replay loses nothing. Rows up to `published` were broadcast
      before registration; they were committed, so `published <= total` when the replay is read.
      Nothing is pruned, the stream does not end, and the live copies of `published + 1` to
      `latest` are pulled in order and without a loss, with any heartbeats and notices between
      them. On what the generator then sends, the browser meets a gap exactly when the page limit
      cut the replay short of the rows already broadcast, and otherwise is up to date. */
  lemma HandoffGap(out: seq<Out>, degraded: bool, since: nat, total: nat, limit: nat, pulls: seq<Pull>,
                   published: nat, latest: nat)
    requires since <= total && published <= total && published < latest
    requires Streams(out, degraded, Some(since), Table(1, total), limit, pulls)
    requires NeverEnds(pulls) && Pulled(pulls) == Range(published + 1, latest)
    ensures var gate := PassAll(InStep(since), Numbers(out));
            (gate == Gap <==> published > since + limit)
            && (gate != Gap ==> gate == InStep(Max(latest, Min(total, since + limit))))
  {
    var live := StreamNumbers(out, degraded, Some(since), Table(1, total), limit, pulls);
    assert pulls[..live] == pulls;
    ReplayThenLive(since, total, limit, published, latest);
  }

  /** Three rows, a page of one, and the first two already broadcast: the page and the copy of the
      third leave a gap. */
  lemma ShortPageGap(degraded: bool, third: Gateway.Live)
    requires third.id == 3
    ensures var out := [Status(degraded), EventOut(1), EventOut(3)];
            && Streams(out, degraded, Some(0), Table(1, 3), 1, [Item(Gateway.Event(third))])
            && PassAll(InStep(0), Numbers(out)) == Gap
  {
    var out, pulls := [Status(degraded), EventOut(1), EventOut(3)], [Item(Gateway.Event(third))];
    assert Range(1, 1) == [1] + Range(2, 1) && Range(2, 3) == [2] + Range(3, 3);
    assert out[..2][..1] == [Status(degraded)] && out[..2] == [Status(degraded), EventOut(1)];
    NumbersNone([Status(degraded)]);
    assert Numbers(out[..2]) == [1];
    assert out[2..] == [EventOut(3)];
    assert StreamsAt(out, degraded, Some(0), Table(1, 3), 1, pulls, 2);
    assert Numbers(out) == [1, 3];
    assert [1, 3][1..] == [3] && [3][1..] == [];
    assert PassAll(InStep(0), [1, 3]) == PassAll(InStep(1), [3]);
    assert PassAll(InStep(1), [3]) == PassAll(Gap, []);
  }

  /** Live copies that change places are enough for a gap, whatever the page limit. */
  lemma SwappedCopiesGap(since: nat)
    ensures PassAll(InStep(since), [since + 2, since + 1]) == Gap
  {
    assert [since + 2, since + 1][1..] == [since + 1];
    assert PassAll(Gap, [since + 1]) == PassAll(Gap, [since + 1][1..]);
  }

  lemma PrunedReplayGap(t: Table, since: nat, limit: nat)
    requires limit >= 1
    ensures PassAll(InStep(since), ReplayRows(t, since, limit)) == Gap <==> Pruned(t, since)
  {
    var from := Max(t.first, since + 1);
    PassRange(since, from, Min(t.total, from + limit - 1));
  }

  /** A stream that sends nothing live announces a resync exactly when what it sends leaves a gap. */
  lemma PrunedReplayIsAnnounced(out: seq<Out>, degraded: bool, since: nat, t: Table, limit: nat)
    requires limit >= 1 && Streams(out, degraded, Some(since), t, limit, [])
    ensures ResyncRequired in out <==> PassAll(InStep(since), Numbers(out)) == Gap
  {
    var live := StreamNumbers(out, degraded, Some(since), t, limit, []);
    var split: nat :| StreamsAt(out, degraded, Some(since), t, limit, [], split);
    assert out[..split] == out;
    PrunedReplayGap(t, since, limit);
  }
}
