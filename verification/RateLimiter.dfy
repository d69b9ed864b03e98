/** The per-client fixed-window rate limiter (services/api/app/api/middleware.py), for
    requests it is enabled for. Clock readings are exact reals. */
module RateLimiter {
  datatype Bucket = Bucket(start: real, count: nat)

  type Buckets = map<nat, Bucket>

  datatype Request = Request(client: nat, now: real)

  datatype Answer = Admitted | Rejected(retryAfter: int)

  datatype Limits = Limits(perWindow: int, window: real)

  const MAX_BUCKETS: nat := 10000

  predicate Enabled(l: Limits) {
    l.perWindow > 0 && l.window > 0.0
  }

  function Ceil(x: real): int {
    -((-x).Floor)
  }

  predicate Expired(l: Limits, b: Bucket, now: real) {
    now - b.start >= l.window
  }

  /** The client's bucket with this request counted, in a new window if the old one is over. */
  function Counted(l: Limits, bs: Buckets, r: Request): Bucket {
    if r.client !in bs || Expired(l, bs[r.client], r.now) then Bucket(r.now, 1)
    else Bucket(bs[r.client].start, bs[r.client].count + 1)
  }

  function AnswerFor(l: Limits, b: Bucket, now: real): Answer {
    if b.count <= l.perWindow then Admitted
    else
      var left := Ceil(b.start + l.window - now);
      Rejected(if left > 1 then left else 1)
  }

  function Evict(l: Limits, bs: Buckets, r: Request): Buckets {
    map c | c in bs && (c == r.client || !Expired(l, bs[c], r.now)) :: bs[c]
  }

  /** The table after a request, evicting when it has grown past its bound or never. */
  function Hit(l: Limits, bs: Buckets, r: Request, evicts: bool): Buckets {
    var kept := if evicts && |bs| > MAX_BUCKETS then Evict(l, bs, r) else bs;
    kept[r.client := Counted(l, bs, r)]
  }

  class Limiter {
    const limits: Limits
    var buckets: Buckets

    constructor (limits: Limits)
      ensures this.limits == limits && buckets == map[]
    {
      this.limits, buckets := limits, map[];
    }

    /** The bucket logic of `dispatch`. */
    method Dispatch(r: Request) returns (answer: Answer)
      requires Enabled(limits)
      modifies this
      ensures buckets == Hit(limits, old(buckets), r, true)
      ensures answer == AnswerFor(limits, Counted(limits, old(buckets), r), r.now)
    {
      var bucket := if r.client in buckets then buckets[r.client] else Bucket(r.now, 0);
      if r.now - bucket.start >= limits.window {
        bucket := Bucket(r.now, 0);
      }
      if |buckets| > MAX_BUCKETS {
        buckets := Evict(limits, buckets, r);
      }
      bucket := bucket.(count := bucket.count + 1);
      buckets := buckets[r.client := bucket];
      answer := AnswerFor(limits, bucket, r.now);
    }
  }

  /** The client's own bucket is always kept; others go exactly when more than 10,000 are kept and
      their window is over. */
  lemma EvictsExactly(l: Limits, bs: Buckets, r: Request, c: nat)
    requires Enabled(l) && c != r.client
    ensures var after := Hit(l, bs, r, true);
            && r.client in after
            && (c in after <==> c in bs && !(|bs| > 10_000 && r.now - bs[c].start >= l.window))
            && (c in after ==> after[c] == bs[c])
  {
  }

  // --------------------------------------------------------------------- runs

  function Table(l: Limits, reqs: seq<Request>, evicts: bool): Buckets {
    if reqs == [] then map[]
    else Hit(l, Table(l, reqs[..|reqs| - 1], evicts), reqs[|reqs| - 1], evicts)
  }

  /** The answer to request `i` of a run. */
  function AnswerAt(l: Limits, reqs: seq<Request>, i: nat, evicts: bool): Answer
    requires i < |reqs|
  {
    AnswerFor(l, Counted(l, Table(l, reqs[..i], evicts), reqs[i]), reqs[i].now)
  }

  ghost predicate InTime(reqs: seq<Request>) {
    forall i, j | 0 <= i < j < |reqs| :: reqs[i].now <= reqs[j].now
  }

  /** The smaller table misses only expired buckets. */
  ghost predicate Agrees(l: Limits, small: Buckets, large: Buckets, now: real) {
    forall c | c in large :: if c in small then small[c] == large[c] else Expired(l, large[c], now)
  }

  ghost predicate Within(small: Buckets, large: Buckets) {
    small.Keys <= large.Keys
  }

  lemma {:induction false} TablesAgree(l: Limits, reqs: seq<Request>, now: real)
    requires Enabled(l) && InTime(reqs) && (reqs != [] ==> reqs[|reqs| - 1].now <= now)
    ensures Agrees(l, Table(l, reqs, true), Table(l, reqs, false), now)
    ensures Within(Table(l, reqs, true), Table(l, reqs, false))
  {
    if reqs != [] {
      var n := |reqs| - 1;
      TablesAgree(l, reqs[..n], reqs[n].now);
    }
  }

  /** Evicting expired buckets never changes an answer. */
  lemma EvictionIsInvisible(l: Limits, reqs: seq<Request>, i: nat)
    requires Enabled(l) && InTime(reqs) && i < |reqs|
    ensures AnswerAt(l, reqs, i, true) == AnswerAt(l, reqs, i, false)
  {
    TablesAgree(l, reqs[..i], reqs[i].now);
  }

  // --------------------------------------------------- at most twice the limit

  predicate AdmittedIn(l: Limits, reqs: seq<Request>, i: nat, c: nat, t: real, evicts: bool)
    requires i < |reqs|
  {
    reqs[i].client == c && t <= reqs[i].now < t + l.window && AnswerAt(l, reqs, i, evicts) == Admitted
  }

  /** How many of the first `n` requests were this client's, in the window-long interval from `t`, and admitted. */
  function AdmittedCount(l: Limits, reqs: seq<Request>, n: nat, c: nat, t: real, evicts: bool): nat
    requires n <= |reqs|
  {
    if n == 0 then 0
    else AdmittedCount(l, reqs, n - 1, c, t, evicts) + if AdmittedIn(l, reqs, n - 1, c, t, evicts) then 1 else 0
  }

  function Min(a: int, b: int): int {
    if a < b then a else b
  }

  /** What the interval can hold, by where the client's current window starts. */
  ghost predicate Bounded(l: Limits, bs: Buckets, c: nat, t: real, last: real, admitted: nat) {
    if c !in bs || last < t then admitted == 0
    else
      var b := bs[c];
      var here := Min(b.count, l.perWindow);
      && b.start <= last
      && if b.start < t then admitted <= here - 1
         else if b.start < t + l.window then admitted <= l.perWindow - 1 + here
         else admitted <= 2 * l.perWindow - 1
  }

  lemma {:induction false} RunIsBounded(l: Limits, reqs: seq<Request>, n: nat, c: nat, t: real)
    requires Enabled(l) && InTime(reqs) && n <= |reqs|
    ensures var bs := Table(l, reqs[..n], false);
            n > 0 ==> Bounded(l, bs, c, t, reqs[n - 1].now, AdmittedCount(l, reqs, n, c, t, false))
                      && (c in bs ==> bs[c].start <= reqs[n - 1].now && bs[c].count >= 1)
    decreases n
  {
    if n > 0 {
      var r, before := reqs[n - 1], Table(l, reqs[..n - 1], false);
      assert reqs[..n][..n - 1] == reqs[..n - 1];
      RunIsBounded(l, reqs, n - 1, c, t);
      var last := if n > 1 then reqs[n - 2].now else r.now;
    }
  }

  lemma {:induction false} CountsAgree(l: Limits, reqs: seq<Request>, n: nat, c: nat, t: real)
    requires Enabled(l) && InTime(reqs) && n <= |reqs|
    ensures AdmittedCount(l, reqs, n, c, t, true) == AdmittedCount(l, reqs, n, c, t, false)
    decreases n
  {
    if n > 0 {
      CountsAgree(l, reqs, n - 1, c, t);
      EvictionIsInvisible(l, reqs, n - 1);
    }
  }

  /** In any half-open interval one window long, one client has at most one less than twice the limit admitted. */
  lemma AtMostTwice(l: Limits, reqs: seq<Request>, c: nat, t: real)
    requires Enabled(l) && InTime(reqs)
    ensures AdmittedCount(l, reqs, |reqs|, c, t, true) <= 2 * l.perWindow - 1
  {
    CountsAgree(l, reqs, |reqs|, c, t);
    RunIsBounded(l, reqs, |reqs|, c, t);
  }

  /** One request, the rest of the limit half a window later, and the limit again when the window is over. */
  function Burst(l: Limits): seq<Request>
    requires Enabled(l)
  {
    seq(2 * l.perWindow, i => Request(0, if i == 0 then 0.0 else if i < l.perWindow then l.window / 2.0 else l.window))
  }

  lemma {:induction false} BurstTable(l: Limits, n: nat)
    requires Enabled(l) && 1 <= n <= 2 * l.perWindow
    ensures Table(l, Burst(l)[..n], false)
            == map[0 := if n <= l.perWindow then Bucket(0.0, n) else Bucket(l.window, n - l.perWindow)]
  {
    var reqs := Burst(l);
    assert reqs[..n][..n - 1] == reqs[..n - 1];
    if n > 1 { BurstTable(l, n - 1); }
  }

  lemma {:induction false} BurstCount(l: Limits, n: nat)
    requires Enabled(l) && 1 <= n <= 2 * l.perWindow
    ensures AdmittedCount(l, Burst(l), n, 0, l.window / 2.0, false) == n - 1
  {
    if n > 1 {
      BurstCount(l, n - 1);
      BurstTable(l, n - 1);
    } else {
      assert AdmittedCount(l, Burst(l), 0, 0, l.window / 2.0, false) == 0;
    }
  }

  /** The bound is met for every limit and window: a burst on either side of a window's end. */
  lemma BoundIsMet(l: Limits)
    requires Enabled(l)
    ensures InTime(Burst(l))
    ensures AdmittedCount(l, Burst(l), |Burst(l)|, 0, l.window / 2.0, true) == 2 * l.perWindow - 1
  {
    CountsAgree(l, Burst(l), |Burst(l)|, 0, l.window / 2.0);
    BurstCount(l, |Burst(l)|);
  }

  // -------------------------------------------------- which requests are admitted

  /** A request opens a window unless it falls in one that its client opened before. */
  ghost predicate Opens(l: Limits, reqs: seq<Request>, i: nat)
    requires i < |reqs|
  {
    forall o: nat | o < i && reqs[o].client == reqs[i].client && Opens(l, reqs, o) ::
      reqs[i].now - reqs[o].now >= l.window
  }

  /** Request `i` falls in the window that request `s` of its client opened. */
  ghost predicate InWindowOf(l: Limits, reqs: seq<Request>, s: nat, i: nat)
    requires s <= i < |reqs|
  {
    reqs[s].client == reqs[i].client && Opens(l, reqs, s) && reqs[i].now - reqs[s].now < l.window
  }

  /** The client's requests from `s` on, before `n`. */
  function Asked(reqs: seq<Request>, c: nat, s: nat, n: nat): nat
    requires s <= n <= |reqs|
    decreases n
  {
    if n == s then 0 else Asked(reqs, c, s, n - 1) + if reqs[n - 1].client == c then 1 else 0
  }

  /** A client's bucket is its latest window, with all its requests since that opened. */
  ghost predicate Remembers(l: Limits, reqs: seq<Request>, n: nat, c: nat, b: Bucket, s: nat)
    requires n <= |reqs|
  {
    && s < n && reqs[s].client == c && Opens(l, reqs, s) && b == Bucket(reqs[s].now, Asked(reqs, c, s, n))
    && forall o: nat | s < o < n && reqs[o].client == c :: !Opens(l, reqs, o)
  }

  ghost predicate NotSeen(reqs: seq<Request>, n: nat, c: nat)
    requires n <= |reqs|
  {
    forall o: nat | o < n :: reqs[o].client != c
  }

  lemma {:induction false} BucketRemembers(l: Limits, reqs: seq<Request>, n: nat, c: nat)
    requires Enabled(l) && InTime(reqs) && n <= |reqs|
    ensures var bs := Table(l, reqs[..n], false);
            if c in bs then exists s: nat :: Remembers(l, reqs, n, c, bs[c], s) else NotSeen(reqs, n, c)
    decreases n
  {
    if n > 0 {
      var r, before := reqs[n - 1], Table(l, reqs[..n - 1], false);
      assert reqs[..n][..n - 1] == reqs[..n - 1];
      BucketRemembers(l, reqs, n - 1, c);
      if r.client != c {
        if c in before {
          var s: nat :| Remembers(l, reqs, n - 1, c, before[c], s);
          assert Remembers(l, reqs, n, c, before[c], s);
        }
      } else if c in before {
        var s: nat :| Remembers(l, reqs, n - 1, c, before[c], s);
        RemembersNext(l, reqs, n, c, before[c], s);
      } else {
        assert Remembers(l, reqs, n, c, Bucket(r.now, 1), n - 1);
      }
    }
  }

  lemma RemembersNext(l: Limits, reqs: seq<Request>, n: nat, c: nat, b: Bucket, s: nat)
    requires Enabled(l) && InTime(reqs) && 0 < n <= |reqs| && reqs[n - 1].client == c
    requires Remembers(l, reqs, n - 1, c, b, s)
    ensures if Expired(l, b, reqs[n - 1].now) then Remembers(l, reqs, n, c, Bucket(reqs[n - 1].now, 1), n - 1)
            else Remembers(l, reqs, n, c, Bucket(b.start, b.count + 1), s) && !Opens(l, reqs, n - 1)
  {
    if Expired(l, b, reqs[n - 1].now) {
      forall o: nat | o < n - 1 && reqs[o].client == c && Opens(l, reqs, o)
        ensures reqs[n - 1].now - reqs[o].now >= l.window
      {
        assert o <= s;
      }
      assert Opens(l, reqs, n - 1);
    }
  }

  /** The whole policy, without buckets: each request falls in exactly one window of its client,
      and is admitted exactly when no more than the limit has been asked in that window so far.
      A rejected one is told what is left of the window. */
  lemma AnswerIs(l: Limits, reqs: seq<Request>, i: nat) returns (s: nat)
    requires Enabled(l) && InTime(reqs) && i < |reqs|
    ensures s <= i && InWindowOf(l, reqs, s, i)
    ensures forall o: nat | o <= i && InWindowOf(l, reqs, o, i) :: o == s
    ensures var left := Ceil(reqs[s].now + l.window - reqs[i].now);
            AnswerAt(l, reqs, i, true)
            == if Asked(reqs, reqs[i].client, s, i + 1) <= l.perWindow then Admitted
               else Rejected(if left > 1 then left else 1)
  {
    var c, before := reqs[i].client, Table(l, reqs[..i], false);
    EvictionIsInvisible(l, reqs, i);
    BucketRemembers(l, reqs, i, c);
    if c in before {
      var o: nat :| Remembers(l, reqs, i, c, before[c], o);
      RemembersNext(l, reqs, i + 1, c, before[c], o);
      s := if Expired(l, before[c], reqs[i].now) then i else o;
    } else {
      s := i;
    }
    assert Remembers(l, reqs, i + 1, c, Counted(l, before, reqs[i]), s);
    OneWindow(l, reqs, i, s);
  }

  lemma OneWindow(l: Limits, reqs: seq<Request>, i: nat, s: nat)
    requires Enabled(l) && InTime(reqs) && s <= i < |reqs| && reqs[s].client == reqs[i].client && Opens(l, reqs, s)
    requires forall o: nat | s < o <= i && reqs[o].client == reqs[i].client :: !Opens(l, reqs, o)
    ensures forall o: nat | o <= i && InWindowOf(l, reqs, o, i) :: o == s
    ensures InWindowOf(l, reqs, s, i)
  {
    if s < i {
      var o: nat :| o < i && reqs[o].client == reqs[i].client && Opens(l, reqs, o) && reqs[i].now - reqs[o].now < l.window;
      assert o <= s;
    }
  }

  /** A rejected request finds the limit used up: so many requests of its client were admitted
      less than one window before it. */
  lemma RejectedOnlyWhenFull(l: Limits, reqs: seq<Request>, i: nat)
    requires Enabled(l) && InTime(reqs) && i < |reqs| && AnswerAt(l, reqs, i, true).Rejected?
    ensures RecentlyAdmitted(l, reqs, i, i) >= l.perWindow
  {
    var s := AnswerIs(l, reqs, i);
    AdmittedInWindow(l, reqs, s, i, i);
  }

  /** How many of the requests below `n` were of the client of request `i`, less than one window
      before it, and admitted. */
  function RecentlyAdmitted(l: Limits, reqs: seq<Request>, i: nat, n: nat): nat
    requires n <= i < |reqs|
  {
    if n == 0 then 0
    else
      var r := reqs[n - 1];
      RecentlyAdmitted(l, reqs, i, n - 1)
      + if r.client == reqs[i].client && reqs[i].now - r.now < l.window && AnswerAt(l, reqs, n - 1, true) == Admitted
        then 1 else 0
  }

  lemma {:induction false} AdmittedInWindow(l: Limits, reqs: seq<Request>, s: nat, i: nat, n: nat)
    requires Enabled(l) && InTime(reqs) && s <= n <= i < |reqs| && InWindowOf(l, reqs, s, i)
    ensures RecentlyAdmitted(l, reqs, i, n) >= Min(l.perWindow, Asked(reqs, reqs[i].client, s, n))
    decreases n
  {
    if s < n {
      AdmittedInWindow(l, reqs, s, i, n - 1);
      if reqs[n - 1].client == reqs[i].client {
        var o := AnswerIs(l, reqs, n - 1);
        assert InWindowOf(l, reqs, s, n - 1);
      }
    }
  }

  // -------------------------------------------------------------- retry after

  lemma {:induction false} OpensEarly(l: Limits, reqs: seq<Request>, later: seq<Request>, o: nat)
    requires o < |reqs|
    ensures Opens(l, reqs, o) <==> Opens(l, reqs + later, o)
  {
    forall k: nat | k < o ensures Opens(l, reqs, k) <==> Opens(l, reqs + later, k) {
      OpensEarly(l, reqs, later, k);
    }
  }

  /** The first request of a client after a window of its own has ended opens the next one. */
  lemma OpensNext(l: Limits, reqs: seq<Request>, s: nat, j: nat)
    requires Enabled(l) && InTime(reqs) && s < j < |reqs| && reqs[s].client == reqs[j].client && Opens(l, reqs, s)
    requires reqs[j].now - reqs[s].now >= l.window
    requires forall k: nat | s < k < j && reqs[k].client == reqs[j].client :: reqs[k].now - reqs[s].now < l.window
    ensures Opens(l, reqs, j) && AnswerAt(l, reqs, j, true) == Admitted
  {
    assert Opens(l, reqs, j);
    var o := AnswerIs(l, reqs, j);
    assert InWindowOf(l, reqs, j, j);
  }

  /** A rejected client is admitted by its first request after what it was told, whatever it and
      others sent before its window ended. */
  lemma RetryAfterIsEnough(l: Limits, reqs: seq<Request>, s: nat, i: nat, j: nat)
    requires Enabled(l) && InTime(reqs) && s <= i < j < |reqs| && reqs[i].client == reqs[j].client
    requires InWindowOf(l, reqs, s, i) && AnswerAt(l, reqs, i, true).Rejected?
    requires reqs[j].now >= reqs[i].now + AnswerAt(l, reqs, i, true).retryAfter as real
    requires forall k: nat | i < k < j && reqs[k].client == reqs[i].client :: reqs[k].now < reqs[s].now + l.window
    ensures AnswerAt(l, reqs, j, true) == Admitted
  {
    var o := AnswerIs(l, reqs, i);
    OpensNext(l, reqs, s, j);
  }

  /** When the client was told to come back. */
  function Told(l: Limits, reqs: seq<Request>): real
    requires reqs != [] && AnswerAt(l, reqs, |reqs| - 1, true).Rejected?
  {
    reqs[|reqs| - 1].now + AnswerAt(l, reqs, |reqs| - 1, true).retryAfter as real
  }

  /** Request `j` of a longer run is the client's first when or after it was told to come back. */
  ghost predicate FirstBack(reqs: seq<Request>, all: seq<Request>, told: real, j: nat)
    requires reqs != [] && reqs <= all
  {
    var c := reqs[|reqs| - 1].client;
    && |reqs| <= j < |all| && all[j].client == c && all[j].now >= told
    && forall k: nat | |reqs| <= k < j && all[k].client == c :: all[k].now < told
  }

  /** However the run goes on, the client's first request then is admitted. */
  ghost predicate PromiseKept(l: Limits, reqs: seq<Request>)
    requires reqs != [] && AnswerAt(l, reqs, |reqs| - 1, true).Rejected?
  {
    forall later: seq<Request>, j: nat | InTime(reqs + later) && FirstBack(reqs, reqs + later, Told(l, reqs), j) ::
      AnswerAt(l, reqs + later, j, true) == Admitted
  }

  /** Whatever the client does in the meantime, the promise of the last answer is kept exactly when
      what was left of the window is a whole number of seconds. Otherwise the wait is rounded up,
      and requests between the window's end and the moment it was told can use up the next window. */
  lemma RetryAfterExactly(l: Limits, reqs: seq<Request>, s: nat)
    requires Enabled(l) && InTime(reqs) && s < |reqs| && AnswerAt(l, reqs, |reqs| - 1, true).Rejected?
    requires InWindowOf(l, reqs, s, |reqs| - 1)
    ensures PromiseKept(l, reqs) <==> Told(l, reqs) == reqs[s].now + l.window
  {
    var _ := AnswerIs(l, reqs, |reqs| - 1);
    if Told(l, reqs) == reqs[s].now + l.window {
      forall later: seq<Request>, j: nat | InTime(reqs + later) && FirstBack(reqs, reqs + later, Told(l, reqs), j)
        ensures AnswerAt(l, reqs + later, j, true) == Admitted
      {
        var all := reqs + later;
        OpensEarly(l, reqs, later, s);
        assert all[|reqs| - 1] == reqs[|reqs| - 1] && all[s] == reqs[s];
        OpensNext(l, all, s, j);
      }
    } else {
      ComesBackEarly(l, reqs, s);
    }
  }

  function Copies(r: Request, n: nat): seq<Request> {
    seq(n, _ => r)
  }

  lemma {:induction false} AskedAll(reqs: seq<Request>, c: nat, s: nat, n: nat)
    requires s <= n <= |reqs| && forall k | s <= k < n :: reqs[k].client == c
    ensures Asked(reqs, c, s, n) == n - s
    decreases n
  {
    if s < n {
      AskedAll(reqs, c, s, n - 1);
    }
  }

  /** The limit asked for once the window is over, and one more when told. */
  lemma ComesBackEarly(l: Limits, reqs: seq<Request>, s: nat)
    requires Enabled(l) && InTime(reqs) && s < |reqs| && AnswerAt(l, reqs, |reqs| - 1, true).Rejected?
    requires InWindowOf(l, reqs, s, |reqs| - 1) && Told(l, reqs) > reqs[s].now + l.window
    ensures !PromiseKept(l, reqs)
  {
    var c, told, n := reqs[|reqs| - 1].client, Told(l, reqs), |reqs|;
    var over := reqs[s].now + l.window;
    var early := if told - l.window / 2.0 > over then told - l.window / 2.0 else over;
    var later := Copies(Request(c, early), l.perWindow) + [Request(c, told)];
    var all, j := reqs + later, n + l.perWindow;
    assert all[n - 1] == reqs[n - 1] && all[s] == reqs[s] && all[n] == Request(c, early) && all[j] == Request(c, told);
    CopiesInTime(reqs, c, early, told, l.perWindow);
    OpensEarly(l, reqs, later, s);
    hide AnswerAt, Opens, Copies, InTime;
    OpensNext(l, all, s, n);
    TooMany(l, all, n, j);
    assert FirstBack(reqs, all, told, j);
    assert AnswerAt(l, reqs + later, j, true) != Admitted;
  }

  lemma CopiesInTime(reqs: seq<Request>, c: nat, early: real, told: real, n: nat)
    requires InTime(reqs) && reqs != [] && reqs[|reqs| - 1].now <= early < told
    ensures var all := reqs + (Copies(Request(c, early), n) + [Request(c, told)]);
            InTime(all) && forall k | |reqs| <= k < |reqs| + n :: all[k] == Request(c, early)
  {
  }

  lemma TooMany(l: Limits, reqs: seq<Request>, s: nat, j: nat)
    requires Enabled(l) && InTime(reqs) && s < j < |reqs| && j - s >= l.perWindow && InWindowOf(l, reqs, s, j)
    requires forall k | s <= k <= j :: reqs[k].client == reqs[j].client
    ensures AnswerAt(l, reqs, j, true).Rejected?
  {
    AskedAll(reqs, reqs[j].client, s, j + 1);
    var o := AnswerIs(l, reqs, j);
  }

  /** A limit of one in a window and a half: rejected at 0 and told 2, back at 1.5 and at 2. */
  lemma ToldTooLate()
    ensures var l, reqs := Limits(1, 1.5), [Request(0, 0.0), Request(0, 0.0), Request(0, 1.5), Request(0, 2.0)];
            && AnswerAt(l, reqs, 1, true) == Rejected(2) && AnswerAt(l, reqs, 2, true) == Admitted
            && AnswerAt(l, reqs, 3, true).Rejected?
  {
    var l, reqs := Limits(1, 1.5), [Request(0, 0.0), Request(0, 0.0), Request(0, 1.5), Request(0, 2.0)];
    assert reqs[..1][..0] == [] && reqs[..2][..1] == reqs[..1] && reqs[..3][..2] == reqs[..2];
    assert Table(l, reqs[..1], true) == map[0 := Bucket(0.0, 1)];
    assert Table(l, reqs[..2], true) == map[0 := Bucket(0.0, 2)];
    assert Table(l, reqs[..3], true) == map[0 := Bucket(1.5, 1)];
    assert Ceil(1.5) == 2;
  }

  /** The wait is a whole number of seconds, at least one, and less than a second longer than the window has left. */
  lemma RetryAfterIsTight(l: Limits, b: Bucket, now: real)
    requires AnswerFor(l, b, now).Rejected?
    ensures var wait := AnswerFor(l, b, now).retryAfter;
            wait >= 1 && wait as real >= b.start + l.window - now && (wait > 1 ==> (wait - 1) as real < b.start + l.window - now)
  {
  }
}
