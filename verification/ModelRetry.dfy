/** Bounded model calls with escalation (services/api/app/agents_runtime/models_registry.py)
    under injected faults (services/api/app/chaos/faults.py). Roles are numbers; 0 is the
    empty role. What providers answer and how delays jitter is chosen freely. */
module ModelRetry {
  import opened Wrappers

  const WORKER: nat := 1

  datatype Point = ModelUnavailable | ModelFlaky | OtherPoint(code: nat)

  /** A point's argument: absent or unreadable means it always fires. */
  datatype Arg = Always | Budget(n: int)

  datatype Key = Key(point: Point, scope: nat)

  datatype Route = Route(role: nat, provider: nat, fallbackRole: nat)

  datatype CallResult = Answered | ErrorRaised(transient: bool)

  datatype Reply = Response(role: nat, fellBack: bool) | Raised(transient: bool) | NoRoute

  /** Whether an enabled point fires, given what is left of the budgets. */
  predicate Fires(points: map<Point, Arg>, left: map<Key, int>, k: Key) {
    k.point in points
    && (points[k.point].Always? || (if k in left then left[k] else points[k.point].n) > 0)
  }

  /** The budgets after asking. */
  function Asked(points: map<Point, Arg>, left: map<Key, int>, k: Key): map<Key, int> {
    if Fires(points, left, k) && points[k.point].Budget?
    then left[k := (if k in left then left[k] else points[k.point].n) - 1] else left
  }

  /** The budgets after asking `m` times for the same key. */
  function AskedTimes(points: map<Point, Arg>, left: map<Key, int>, k: Key, m: nat): map<Key, int> {
    if m == 0 then left else Asked(points, AskedTimes(points, left, k, m - 1), k)
  }

  /** A point that is not configured never fires, one without a readable budget always does, and a
      budget of `n` fires the first `n` times it is asked for and never again, for each scope by
      itself. */
  lemma {:induction false} FiresExactly(points: map<Point, Arg>, k: Key, m: nat)
    ensures Fires(points, AskedTimes(points, map[], k, m), k)
            <==> k.point in points && (points[k.point] == Always || m < points[k.point].n)
    ensures forall other | other != k :: other !in AskedTimes(points, map[], k, m)
    ensures k in AskedTimes(points, map[], k, m) ==>
              k.point in points && points[k.point].Budget?
              && AskedTimes(points, map[], k, m)[k] == if m < points[k.point].n then points[k.point].n - m else 0
  {
    if m > 0 {
      FiresExactly(points, k, m - 1);
    }
  }

  class FaultState {
    const enabled: bool
    const points: map<Point, Arg>
    var left: map<Key, int>

    constructor (enabled: bool, points: map<Point, Arg>)
      ensures this.enabled == enabled && this.points == points && left == map[]
    {
      this.enabled, this.points, left := enabled, points, map[];
    }

    /** `armed`. */
    method Armed(k: Key) returns (fires: bool)
      modifies this
      ensures fires == (enabled && Fires(points, old(left), k))
      ensures left == if enabled then Asked(points, old(left), k) else old(left)
    {
      if !enabled || k.point !in points {
        return false;
      }
      var arg := points[k.point];
      if arg.Always? {
        return true;
      }
      var remaining := if k in left then left[k] else arg.n;
      if remaining <= 0 {
        return false;
      }
      left := left[k := remaining - 1];
      fires := true;
    }

    /** How many more times this flaky budget can fire. */
    function Remaining(provider: nat): int
      reads this
      requires ModelFlaky in points && points[ModelFlaky].Budget?
    {
      var k := Key(ModelFlaky, provider);
      if k in left then left[k] else points[ModelFlaky].n
    }

    /** The provider's outage is switched on for good. */
    predicate Down() {
      enabled && ModelUnavailable in points && points[ModelUnavailable].Always?
    }

    /** Only a flaky budget can hit this provider's calls. */
    predicate FlakyOnly() {
      enabled && ModelUnavailable !in points && ModelFlaky in points && points[ModelFlaky].Budget?
    }
  }

  datatype Backoff = Backoff(base: real, factor: real, max: real, jitter: real)

  function Power(x: real, n: nat): real {
    if n == 0 then 1.0 else x * Power(x, n - 1)
  }

  /** The delay before the attempt after `attempt`, jittered by `u`. */
  function Delay(b: Backoff, attempt: nat, u: real): real
    requires attempt >= 1
  {
    var grown := b.base * Power(b.factor, attempt - 1);
    var delay := (if grown < b.max then grown else b.max) * (1.0 + u);
    if delay > 0.0 then delay else 0.0
  }

  predicate Sane(b: Backoff) {
    b.base >= 0.0 && b.factor >= 0.0 && b.max >= 0.0 && b.jitter >= 0.0
  }

  lemma {:induction false} PowerNotNegative(x: real, n: nat)
    requires x >= 0.0
    ensures Power(x, n) >= 0.0
  {
    if n > 0 {
      PowerNotNegative(x, n - 1);
    }
  }

  /** No delay is negative or longer than the cap stretched by the jitter. */
  lemma DelayBounded(b: Backoff, attempt: nat, u: real)
    requires Sane(b) && attempt >= 1 && -b.jitter <= u <= b.jitter
    ensures 0.0 <= Delay(b, attempt, u) <= b.max * (1.0 + b.jitter)
  {
    PowerNotNegative(b.factor, attempt - 1);
    var grown := b.base * Power(b.factor, attempt - 1);
    assert grown >= 0.0;
    assert 0.0 <= b.max * (1.0 + b.jitter);
  }

  lemma {:induction false} PowerIs(x: real, m: nat, n: nat)
    ensures Power(x, 0) == 1.0 && Power(x, 1) == x && Power(x, m + n) == Power(x, m) * Power(x, n)
  {
    if m == 0 {
      assert Power(x, m) * Power(x, n) == 1.0 * Power(x, n) == Power(x, n);
    } else {
      PowerIs(x, m - 1, n);
      assert x * (Power(x, m - 1) * Power(x, n)) == x * Power(x, m - 1) * Power(x, n);
    }
    assert Power(x, 1) == x * Power(x, 0) == x;
  }

  /** The delay without jitter: the base for the first attempt, multiplied by the factor for each
      further one, up to the cap. */
  lemma DelayGrows(b: Backoff, attempt: nat)
    requires Sane(b) && attempt >= 1
    ensures var grown := b.base * Power(b.factor, attempt - 1);
            Delay(b, attempt, 0.0) == if grown <= b.max then grown else b.max
    ensures b.base <= b.max ==> Delay(b, 1, 0.0) == b.base
  {
    PowerNotNegative(b.factor, attempt - 1);
    assert b.base * Power(b.factor, attempt - 1) >= 0.0;
    assert b.base * Power(b.factor, 0) == b.base * 1.0 == b.base;
  }

  /** Jitter stretches that delay by its own share, and never below zero. */
  lemma DelayJitters(b: Backoff, attempt: nat, u: real)
    requires Sane(b) && attempt >= 1
    ensures Delay(b, attempt, u) == if u >= -1.0 then Delay(b, attempt, 0.0) * (1.0 + u) else 0.0
  {
    DelayGrows(b, attempt);
    PowerNotNegative(b.factor, attempt - 1);
    var plain := Delay(b, attempt, 0.0);
    assert plain >= 0.0;
    if u >= -1.0 {
      assert plain * (1.0 + u) >= 0.0;
    } else {
      assert plain * (1.0 + u) <= 0.0;
    }
  }

  /** The sleeps are the delays of the attempts they follow. */
  ghost predicate SleepsAre(b: Backoff, jitter: nat -> real, sleeps: seq<real>) {
    forall i | 0 <= i < |sleeps| :: sleeps[i] == Delay(b, i + 1, jitter(i + 1))
  }

  ghost predicate DelaysBounded(b: Backoff, sleeps: seq<real>) {
    forall i | 0 <= i < |sleeps| :: 0.0 <= sleeps[i] <= b.max * (1.0 + b.jitter)
  }

  ghost predicate JitterOk(b: Backoff, jitter: nat -> real) {
    forall n :: -b.jitter <= jitter(n) <= b.jitter
  }

  ghost predicate Healthy(world: nat -> CallResult) {
    forall n :: world(n) == Answered
  }

  /** Every call but perhaps the last went to the primary route. */
  ghost predicate CallsOnly(calls: seq<Route>, route: Route) {
    forall i | 0 <= i < |calls| :: calls[i] == route
  }

  /** `route_for`: the role's route, or the worker's. */
  function RouteFor(routes: map<nat, Route>, role: nat): Option<Route> {
    if role in routes then Some(routes[role]) else if WORKER in routes then Some(routes[WORKER]) else None
  }

  /** The route a failed call escalates to: none without a fallback role, or when it is the role asked for. */
  function Fallback(routes: map<nat, Route>, role: nat): Option<Route> {
    var route := RouteFor(routes, role);
    if route.None? || route.value.fallbackRole == 0 || route.value.fallbackRole == role then None
    else RouteFor(routes, route.value.fallbackRole)
  }

  /** Escalation can lead back to the very route that failed: the fallback role is compared
      with the role asked for, not with the route that answered for it. It does not when the
      role asked for has its own route and the fallback role has another. */
  lemma FallbackMayRepeat(routes: map<nat, Route>, role: nat)
    requires RouteFor(routes, role).Some? && Fallback(routes, role).Some?
    requires forall r | r in routes :: routes[r].role == r
    ensures Fallback(routes, role) == RouteFor(routes, role)
            <==> var f := RouteFor(routes, role).value.fallbackRole;
                 (role !in routes && (f == WORKER || f !in routes)) || (role == WORKER && f !in routes)
  {
  }

  /** With the worker's route alone, any other role is served by it, and its fallback is it again. */
  lemma RepeatsTheFailedRoute(role: nat, fallback: nat, provider: nat)
    requires role != WORKER && fallback != 0 && fallback != role
    ensures var routes := map[WORKER := Route(WORKER, provider, fallback)];
            Fallback(routes, role) == RouteFor(routes, role) == Some(routes[WORKER])
  {
    var routes := map[WORKER := Route(WORKER, provider, fallback)];
    FallbackMayRepeat(routes, role);
  }

  class ModelRegistry {
    const routes: map<nat, Route>
    const maxAttempts: nat
    const backoff: Backoff

    constructor (routes: map<nat, Route>, maxAttempts: int, backoff: Backoff)
      ensures this.routes == routes && this.backoff == backoff
      ensures this.maxAttempts == if maxAttempts < 1 then 1 else maxAttempts
    {
      this.routes, this.backoff := routes, backoff;
      this.maxAttempts := if maxAttempts < 1 then 1 else maxAttempts;
    }

    /** The fault check before a provider call. */
    method Injected(faults: FaultState?, provider: nat) returns (fires: bool)
      modifies faults
      ensures faults == null || !faults.enabled ==> !fires
      ensures faults != null && faults.Down() ==> fires
      ensures faults != null && faults.enabled ==>
                var k, left := Key(ModelUnavailable, provider), Asked(faults.points, old(faults.left), Key(ModelUnavailable, provider));
                && (fires <==> Fires(faults.points, old(faults.left), k) || Fires(faults.points, left, Key(ModelFlaky, provider)))
                && faults.left == if Fires(faults.points, old(faults.left), k) then left
                                  else Asked(faults.points, left, Key(ModelFlaky, provider))
      ensures faults != null && faults.FlakyOnly() ==>
                fires == (old(faults.Remaining(provider)) > 0)
                && faults.Remaining(provider) == old(faults.Remaining(provider)) - (if fires then 1 else 0)
    {
      fires := false;
      if faults != null {
        fires := faults.Armed(Key(ModelUnavailable, provider));
        if !fires {
          fires := faults.Armed(Key(ModelFlaky, provider));
        }
      }
    }

    /** The attempt loop of `complete`: an answer, or the last error. */
    method Attempts(route: Route, faults: FaultState?, world: nat -> CallResult, jitter: nat -> real)
        returns (error: Option<bool>, calls: seq<Route>, sleeps: seq<real>)
      requires maxAttempts >= 1 && Sane(backoff) && JitterOk(backoff, jitter)
      modifies faults
      ensures |calls| <= maxAttempts && CallsOnly(calls, route)
      ensures |sleeps| <= maxAttempts - 1 && DelaysBounded(backoff, sleeps) && SleepsAre(backoff, jitter, sleeps)
      ensures error.None? ==> |calls| > 0 && world(|calls| - 1) == Answered
      ensures faults != null && faults.Down() ==>
                error == Some(true) && calls == [] && |sleeps| == maxAttempts - 1
      ensures faults == null || !faults.enabled ==>
                (forall i | 0 <= i < |calls| - 1 :: world(i) == ErrorRaised(true)) && |calls| == |sleeps| + 1
                && (error.Some? ==> world(|calls| - 1) == ErrorRaised(error.value) && (error.value ==> |calls| == maxAttempts))
      ensures faults != null && faults.FlakyOnly() && Healthy(world) ==>
                var n := old(faults.Remaining(route.provider));
                if n < maxAttempts
                then error.None? && |calls| == 1 && |sleeps| == (if n > 0 then n else 0)
                     && (n >= 0 ==> faults.Remaining(route.provider) == 0)
                else error == Some(true) && calls == [] && |sleeps| == maxAttempts - 1
                     && faults.Remaining(route.provider) == n - maxAttempts
    {
      hide Delay, RouteFor, Fallback;
      error, calls, sleeps := None, [], [];
      var attempt := 1;
      while true
        invariant 1 <= attempt <= maxAttempts && |sleeps| == attempt - 1 && |calls| <= attempt - 1
        invariant CallsOnly(calls, route) && DelaysBounded(backoff, sleeps) && SleepsAre(backoff, jitter, sleeps)
        invariant faults != null && faults.Down() ==> calls == []
        invariant faults == null || !faults.enabled ==>
                    |calls| == attempt - 1 && forall i | 0 <= i < |calls| :: world(i) == ErrorRaised(true)
        invariant faults != null && faults.FlakyOnly() && Healthy(world) ==>
                    calls == [] && faults.Remaining(route.provider) == old(faults.Remaining(route.provider)) - (attempt - 1)
                    && (attempt > 1 ==> faults.Remaining(route.provider) >= 0)
        decreases maxAttempts - attempt
      {
        var transient := true;
        var injected := Injected(faults, route.provider);
        if !injected {
          var result := world(|calls|);
          calls := calls + [route];
          if result.Answered? {
            return;
          }
          transient := result.transient;
        }
        if !transient || attempt >= maxAttempts {
          error := Some(transient);
          return;
        }
        DelayBounded(backoff, attempt, jitter(attempt));
        sleeps := sleeps + [Delay(backoff, attempt, jitter(attempt))];
        attempt := attempt + 1;
      }
    }

    /** `complete`. */
    method Complete(role: nat, faults: FaultState?, world: nat -> CallResult, jitter: nat -> real)
        returns (reply: Reply, calls: seq<Route>, sleeps: seq<real>)
      requires maxAttempts >= 1 && Sane(backoff) && JitterOk(backoff, jitter)
      modifies faults
      ensures |calls| <= maxAttempts + 1 && |sleeps| <= maxAttempts - 1 && DelaysBounded(backoff, sleeps)
      ensures SleepsAre(backoff, jitter, sleeps)
      ensures RouteFor(routes, role).None? ==> reply == NoRoute && calls == [] && sleeps == []
      ensures RouteFor(routes, role).Some? ==> CallsFit(RouteFor(routes, role).value, Fallback(routes, role), reply, calls)
      ensures reply.Response? ==> |calls| > 0 && world(|calls| - 1) == Answered && reply.role == calls[|calls| - 1].role
      ensures faults == null && reply == Response(role, false) ==> |calls| == |sleeps| + 1
      ensures faults != null && faults.FlakyOnly() && Healthy(world) && RouteFor(routes, role).Some? ==>
                FlakyOutcome(RouteFor(routes, role).value, Fallback(routes, role), maxAttempts,
                             old(faults.Remaining(RouteFor(routes, role).value.provider)), reply, calls, |sleeps|)
    {
      calls, sleeps := [], [];
      var route := RouteFor(routes, role);
      if route.None? {
        return NoRoute, calls, sleeps;
      }
      var error;
      error, calls, sleeps := Attempts(route.value, faults, world, jitter);
      if error.None? {
        return Response(route.value.role, false), calls, sleeps;
      }
      if route.value.fallbackRole == 0 || route.value.fallbackRole == role {
        return Raised(error.value), calls, sleeps;
      }
      var fallback := RouteFor(routes, route.value.fallbackRole);
      if fallback.None? {
        return NoRoute, calls, sleeps;
      }
      var result := world(|calls|);
      calls := calls + [fallback.value];
      reply := if result.Answered? then Response(fallback.value.role, true) else Raised(result.transient);
    }
  }

  /** All calls went to the primary route, but for one last call to the fallback. */
  ghost predicate CallsFit(route: Route, fallback: Option<Route>, reply: Reply, calls: seq<Route>) {
    match reply
    case Response(_, false) => CallsOnly(calls, route)
    case Response(_, true) =>
      fallback.Some? && |calls| > 0 && CallsOnly(calls[..|calls| - 1], route) && calls[|calls| - 1] == fallback.value
    case Raised(_) =>
      if fallback.None? then CallsOnly(calls, route)
      else |calls| > 0 && CallsOnly(calls[..|calls| - 1], route) && calls[|calls| - 1] == fallback.value
    case NoRoute => fallback.None? && CallsOnly(calls, route)
  }

  /** With `n` injected failures left and healthy providers: fewer than the attempts are slept
      through and the primary answers; otherwise every attempt is used up and the fallback, if
      there is one, is called once. */
  ghost predicate FlakyOutcome(route: Route, fallback: Option<Route>, maxAttempts: nat, n: int,
                               reply: Reply, calls: seq<Route>, sleeps: nat) {
    if n < maxAttempts
    then reply == Response(route.role, false) && calls == [route] && sleeps == (if n > 0 then n else 0)
    else sleeps == maxAttempts - 1
         && if fallback.Some? then reply == Response(fallback.value.role, true) && calls == [fallback.value]
            else calls == [] && !reply.Response?
  }
}
