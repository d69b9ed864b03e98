/** What one stream request sends (services/api/app/realtime/route.py), delivered to a page that
    follows the log (apps/web-ui/src/state/officeStore.ts). */
module Handoff {
  import opened Wrappers
  import opened Reducer
  import opened Office
  import opened EventTable
  import opened Realtime
  import Route

  /** A settled page with this cursor, and a stream of its own session. */
  ghost predicate Listens(s: Sys, stream: Stream, last: nat) {
    && Inv(s) && Synced(s.store) && s.store.syncJob.None? && s.store.lastSequence == Some(last)
    && stream in s.streams && stream.session == s.store.generation
  }

  /** The page has started one resync and waits for it. */
  ghost predicate Waits(s: Sys, stream: Stream, job: nat) {
    && stream in s.streams && Current(s.store, stream.session)
    && s.store.resyncRequired && s.store.syncJob == Some(job)
  }

  /** Page `t`, once `s`, stands where the gate does. */
  ghost predicate Follows(s: Sys, t: Sys, stream: Stream, gate: Route.Gate) {
    && t.db == s.db
    && match gate
       case InStep(last) => Listens(t, stream, last) && t.store.nextJob == s.store.nextJob
       case Gap => Waits(t, stream, s.store.nextJob)
  }

  /** Sequence numbers of committed rows. */
  predicate Known(log: seq<Envelope>, numbers: seq<nat>) {
    forall i | 0 <= i < |numbers| :: 1 <= numbers[i] <= |log|
  }

  /** The rows with these numbers, delivered in this order. */
  function Deliveries(log: seq<Envelope>, stream: Stream, numbers: seq<nat>): seq<Step>
    requires Known(log, numbers)
  {
    if numbers == [] then []
    else
      var n := |numbers| - 1;
      Deliveries(log, stream, numbers[..n]) + [Deliver(stream, log[numbers[n] - 1])]
  }

  lemma AppliedKeepsListening(s: Sys, e: Envelope)
    requires Accepts(s.store, e) && SequenceCheck(ProjectionOf(s.store), e) == Apply
    ensures var next := EnvelopeOf(s.store, e);
            && Adopt(s, next) == s.(store := next) && next.generation == s.store.generation
            && next.syncJob == s.store.syncJob && next.nextJob == s.store.nextJob
  {
  }

  /** One committed row, counted from 0, moves page and gate alike. */
  lemma DeliverFollows(s: Sys, stream: Stream, last: nat, k: nat)
    requires Listens(s, stream, last) && k < |Log(s.db, stream.project)|
    ensures var e := Log(s.db, stream.project)[k];
            Follows(s, Exec(s, Deliver(stream, e)), stream, Route.Pass(Route.InStep(last), k + 1))
  {
    hide Inv, Loaded, SequenceCheck, ApplyEnvelope, Log;
    var e := Log(s.db, stream.project)[k];
    StreamIsForHistory(s, stream);
    GateDecides(s, e, k);
    RowIsHandled(s, stream, k);
    StepKeepsInv(s, Deliver(stream, e));
    if k == last {
      AppliedKeepsListening(s, e);
    }
  }

  /** A page that waits for its resync ignores rows. */
  lemma DeliverWaits(s: Sys, stream: Stream, job: nat, e: Envelope)
    requires Waits(s, stream, job) && e.project == stream.project
    ensures Exec(s, Deliver(stream, e)) == s
  {
  }

  lemma DeliverStep(s: Sys, t: Sys, stream: Stream, since: nat, gate: Route.Gate, number: nat)
    requires Listens(s, stream, since) && Follows(s, t, stream, gate) && 1 <= number <= |Log(s.db, stream.project)|
    ensures var e := Log(s.db, stream.project)[number - 1];
            Follows(s, Exec(t, Deliver(stream, e)), stream, Route.Pass(gate, number))
  {
    hide Inv, Exec, Log;
    var e := Log(s.db, stream.project)[number - 1];
    match gate
    case InStep(last) => DeliverFollows(t, stream, last, number - 1);
    case Gap =>
      StreamIsForHistory(s, stream);
      GateDecides(s, e, number - 1);
      DeliverWaits(t, stream, s.store.nextJob, e);
  }

  lemma OneMoreDelivery(s: Sys, log: seq<Envelope>, stream: Stream, numbers: seq<nat>)
    requires numbers != [] && Known(log, numbers)
    ensures var n := |numbers| - 1;
            Known(log, numbers[..n]) && 1 <= numbers[n] <= |log|
            && ExecAll(s, Deliveries(log, stream, numbers))
               == Exec(ExecAll(s, Deliveries(log, stream, numbers[..n])), Deliver(stream, log[numbers[n] - 1]))
  {
    hide Exec;
    var n := |numbers| - 1;
    var earlier := Deliveries(log, stream, numbers[..n]);
    assert (earlier + [Deliver(stream, log[numbers[n] - 1])])[..|earlier|] == earlier;
  }

  lemma OneMorePassed(g: Route.Gate, numbers: seq<nat>)
    requires numbers != []
    ensures var n := |numbers| - 1;
            Route.PassAll(g, numbers) == Route.Pass(Route.PassAll(g, numbers[..n]), numbers[n])
  {
    var n := |numbers| - 1;
    Route.PassAllAppend(g, numbers[..n], [numbers[n]]);
    assert numbers == numbers[..n] + [numbers[n]] && [numbers[n]][1..] == [];
  }

  lemma StandsStill(s: Sys, log: seq<Envelope>, stream: Stream, since: nat)
    requires Listens(s, stream, since)
    ensures Follows(s, ExecAll(s, Deliveries(log, stream, [])), stream, Route.PassAll(Route.InStep(since), []))
  {
  }

  /** The page does what the gate says, for every sequence of committed rows in any order. */
  lemma {:induction false} PageFollowsGate(s: Sys, stream: Stream, since: nat, numbers: seq<nat>)
    requires Listens(s, stream, since) && Known(Log(s.db, stream.project), numbers)
    ensures Follows(s, ExecAll(s, Deliveries(Log(s.db, stream.project), stream, numbers)), stream,
                    Route.PassAll(Route.InStep(since), numbers))
    decreases |numbers|
  {
    hide Listens, Follows, Exec, ExecAll, Log, Known, Deliveries, Route.PassAll, Route.Pass;
    var start, log := Route.InStep(since), Log(s.db, stream.project);
    if numbers == [] {
      StandsStill(s, log, stream, since);
    } else {
      var n := |numbers| - 1;
      OneMoreDelivery(s, log, stream, numbers);
      OneMorePassed(start, numbers);
      PageFollowsGate(s, stream, since, numbers[..n]);
      DeliverStep(s, ExecAll(s, Deliveries(log, stream, numbers[..n])), stream, since, Route.PassAll(start, numbers[..n]), numbers[n]);
    }
  }

  lemma {:induction false} RangeBounds(a: nat, b: nat)
    ensures forall i | 0 <= i < |Route.Range(a, b)| :: a <= Route.Range(a, b)[i] <= b
    decreases b + 1 - a
  {
    if a <= b {
      RangeBounds(a + 1, b);
    }
  }

  /** From the generator to the page. The stream was opened at the page's own cursor, by a request
      that read `total` rows; `published` were broadcast before it registered, and the live copies
      up to `latest` arrive in order and without a loss. If the page of the replay reaches what was
      broadcast, the browser ends at the last row it was sent without asking for a resync;
      otherwise it asks for exactly one. */
  lemma StreamReachesPage(s: Sys, stream: Stream, since: nat, out: seq<Route.Out>, degraded: bool, total: nat, limit: nat,
                          pulls: seq<Route.Pull>, published: nat, latest: nat)
    requires Listens(s, stream, since)
    requires since <= total <= |Log(s.db, stream.project)| && published <= total
    requires published < latest <= |Log(s.db, stream.project)|
    requires Route.Streams(out, degraded, Some(since), Route.Table(1, total), limit, pulls)
    requires Route.NeverEnds(pulls) && Route.Pulled(pulls) == Route.Range(published + 1, latest)
    ensures var log, numbers := Log(s.db, stream.project), Route.Numbers(out);
            && Known(log, numbers)
            && var t := ExecAll(s, Deliveries(log, stream, numbers));
               if published <= since + limit
               then Listens(t, stream, Route.Max(latest, Route.Min(total, since + limit))) && t.store.nextJob == s.store.nextJob
               else Waits(t, stream, s.store.nextJob)
  {
    hide Listens, Waits, Exec, ExecAll, Log, Known, Deliveries, Route.PassAll, Route.Streams, Route.Numbers;
    NumbersKnown(Log(s.db, stream.project), out, degraded, since, total, limit, pulls, published, latest);
    Route.HandoffGap(out, degraded, since, total, limit, pulls, published, latest);
    PageFollowsGate(s, stream, since, Route.Numbers(out));
  }

  lemma NumbersKnown(log: seq<Envelope>, out: seq<Route.Out>, degraded: bool, since: nat, total: nat, limit: nat,
                     pulls: seq<Route.Pull>, published: nat, latest: nat)
    requires total <= |log| && latest <= |log| && Route.Streams(out, degraded, Some(since), Route.Table(1, total), limit, pulls)
    requires Route.NeverEnds(pulls) && Route.Pulled(pulls) == Route.Range(published + 1, latest)
    ensures Known(log, Route.Numbers(out))
  {
    hide Route.Streams, Route.Numbers;
    var live := Route.StreamNumbers(out, degraded, Some(since), Route.Table(1, total), limit, pulls);
    assert pulls[..live] == pulls;
    RangeBounds(since + 1, Route.Min(total, since + limit));
    RangeBounds(published + 1, latest);
  }
}
