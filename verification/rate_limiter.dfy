/** A per-user sliding-window rate limiter. Every user owns a log of the
    instants (integer milliseconds) at which one of their requests was
    admitted; a request is admitted when fewer than `limit` admissions lie
    strictly less than `windowMs` milliseconds in the past. */
module RateLimiting {

  /** JavaScript object keys are strings: a user id is its string form. */
  type UserId = string

  /** The answer to one request. `Denied` carries the whole number of seconds
      the limiter reports as the wait. `DeniedNaN` is the denial whose wait is
      computed from an empty log: the earliest entry is `undefined`, so the
      reported wait is NaN. It can only happen when `limit <= 0`. */
  datatype Decision = Allowed | Denied(timeLeft: int) | DeniedNaN

  /** One call for one user: its decision and the log stored afterwards. */
  datatype Step = Step(decision: Decision, log: seq<int>)

  /** The admissions of one user over a sequence of calls: the stored log and
      every instant that was admitted, in call order. */
  datatype History = History(log: seq<int>, admitted: seq<int>)

  predicate Sorted(s: seq<int>) {
    forall i, j :: 0 <= i <= j < |s| ==> s[i] <= s[j]
  }

  /** `Math.ceil(a / d)` for an integer `a` and a positive divisor `d`;
      Dafny's `/` rounds down (Euclidean), so the ceiling is taken through
      negation. */
  function CeilDiv(a: int, d: int): (q: int)
    requires d > 0
    ensures (q - 1) * d < a <= q * d
  {
    -((-a) / d)
  }

  /** The filter that drops stale timestamps: `t` survives exactly when
      `now - t < windowMs`, so an entry exactly `windowMs` old is dropped. */
  function Purge(log: seq<int>, now: int, windowMs: int): (r: seq<int>)
    ensures |r| <= |log|
    ensures forall t :: t in r <==> t in log && now - t < windowMs
  {
    if log == [] then []
    else if now - log[0] < windowMs then [log[0]] + Purge(log[1..], now, windowMs)
    else Purge(log[1..], now, windowMs)
  }

  /** The wait, in whole seconds, reported from the earliest surviving entry. */
  function RetryHint(windowMs: int, now: int, earliest: int): int {
    CeilDiv(windowMs - (now - earliest), 1000)
  }

  /** What one call does to one user's log: purge, then deny when the purged
      log already holds `limit` entries, otherwise append `now`. */
  function Decide(log: seq<int>, now: int, limit: int, windowMs: int): Step {
    var kept := Purge(log, now, windowMs);
    if |kept| >= limit then
      Step(if kept == [] then DeniedNaN else Denied(RetryHint(windowMs, now, kept[0])), kept)
    else
      Step(Allowed, kept + [now])
  }

  /** The log a user has, the empty log for a user never seen. */
  function LogOf(users: map<UserId, seq<int>>, u: UserId): seq<int> {
    if u in users then users[u] else []
  }

  /** The limiter state: fixed configuration and a mutable map from user to log. */
  class RateLimiter {
    const limit: int
    const windowMs: int
    var users: map<UserId, seq<int>>

    /** No stored log holds more than `limit` entries (an empty log is stored
        for a user whose requests are all denied, even when `limit < 0`). */
    ghost predicate Valid()
      reads this
    {
      forall u | u in users :: users[u] == [] || |users[u]| <= limit
    }

    constructor (limit: int := 5, windowMs: int := 60000)
      ensures this.limit == limit && this.windowMs == windowMs
      ensures users == map[]
      ensures Valid()
    {
      this.limit := limit;
      this.windowMs := windowMs;
      users := map[];
    }

    /** Decides one request of `userId` arriving at `now` and records it. */
    method IsAllowed(userId: UserId, now: int) returns (d: Decision)
      requires Valid()
      modifies this
      ensures Valid()
      ensures userId in users
      ensures var step := Decide(LogOf(old(users), userId), now, limit, windowMs);
        d == step.decision && users == old(users)[userId := step.log]
      ensures forall v :: v != userId ==> LogOf(users, v) == LogOf(old(users), v)
      ensures userId !in old(users) && limit > 0 ==> d == Allowed
    {
      if userId !in users {
        users := users[userId := []];
      }
      users := users[userId := Purge(users[userId], now, windowMs)];
      if |users[userId]| >= limit {
        if users[userId] == [] {
          return DeniedNaN;
        }
        var earliest := users[userId][0];
        var timeLeft := CeilDiv(windowMs - (now - earliest), 1000);
        return Denied(timeLeft);
      }
      users := users[userId := users[userId] + [now]];
      d := Allowed;
    }
  }

  /** The example driver: seven requests of "user123" at one instant against
      a limiter with the default configuration. */
  method ExampleUsage(now: int) returns (decisions: seq<Decision>)
    ensures decisions == [Allowed, Allowed, Allowed, Allowed, Allowed, Denied(60), Denied(60)]
  {
    var limiter := new RateLimiter();
    decisions := [];
    var i := 1;
    while i <= 7
      invariant 1 <= i <= 8
      invariant limiter.limit == 5 && limiter.windowMs == 60000 && limiter.Valid()
      invariant LogOf(limiter.users, "user123") == seq(if i - 1 < 5 then i - 1 else 5, _ => now)
      invariant decisions == seq(i - 1, k => if k < 5 then Allowed else Denied(60))
    {
      ghost var log := LogOf(limiter.users, "user123");
      PurgeKeepsFresh(log, now, 60000);
      var result := limiter.IsAllowed("user123", now);
      decisions := decisions + [result];
      i := i + 1;
    }
  }

  /** Replays the calls of one user at the instants `nows`, in order. */
  function Replay(nows: seq<int>, limit: int, windowMs: int): History
  {
    if nows == [] then History([], [])
    else
      var h := Replay(nows[..|nows| - 1], limit, windowMs);
      var now := nows[|nows| - 1];
      var step := Decide(h.log, now, limit, windowMs);
      History(step.log, if step.decision == Allowed then h.admitted + [now] else h.admitted)
  }

  // ---------------------------------------------------------------------------
  // Purging
  // ---------------------------------------------------------------------------

  lemma {:induction false} PurgeKeepsFresh(log: seq<int>, now: int, windowMs: int)
    requires forall t :: t in log ==> now - t < windowMs
    ensures Purge(log, now, windowMs) == log
  {
    if log != [] {
      assert log[0] in log;
      forall t | t in log[1..] ensures now - t < windowMs {
        assert t in log;
      }
      PurgeKeepsFresh(log[1..], now, windowMs);
      assert log == [log[0]] + log[1..];
    }
  }

  /** On a sorted log, purging removes a prefix: nothing leaves the middle. */
  lemma {:induction false} PurgeDropsPrefix(log: seq<int>, now: int, windowMs: int)
    requires Sorted(log)
    ensures exists k :: 0 <= k <= |log| && Purge(log, now, windowMs) == log[k..]
  {
    if log == [] {
      assert Purge(log, now, windowMs) == log[0..];
    } else if now - log[0] < windowMs {
      PurgeKeepsFresh(log, now, windowMs);
      assert Purge(log, now, windowMs) == log[0..];
    } else {
      PurgeDropsPrefix(log[1..], now, windowMs);
      var k :| 0 <= k <= |log[1..]| && Purge(log[1..], now, windowMs) == log[1..][k..];
      assert Purge(log, now, windowMs) == log[k + 1..];
    }
  }

  /** Purging at `now` and then at a later `now2` is purging at `now2`. */
  lemma {:induction false} PurgeTwice(log: seq<int>, now: int, now2: int, windowMs: int)
    requires now <= now2
    ensures Purge(Purge(log, now, windowMs), now2, windowMs) == Purge(log, now2, windowMs)
  {
    if log != [] {
      PurgeTwice(log[1..], now, now2, windowMs);
    }
  }

  lemma {:induction false} PurgeAppend(log: seq<int>, x: int, now: int, windowMs: int)
    ensures Purge(log + [x], now, windowMs)
         == Purge(log, now, windowMs) + (if now - x < windowMs then [x] else [])
  {
    if log == [] {
      assert log + [x] == [x];
    } else {
      assert (log + [x])[1..] == log[1..] + [x];
      PurgeAppend(log[1..], x, now, windowMs);
    }
  }

  /** A log whose first entry has expired shrinks when purged. */
  lemma PurgeDropsStaleHead(log: seq<int>, now: int, windowMs: int)
    requires log != [] && now - log[0] >= windowMs
    ensures |Purge(log, now, windowMs)| < |log|
  {
  }

  // ---------------------------------------------------------------------------
  // One call
  // ---------------------------------------------------------------------------

  /** The decision rule: deny exactly when the purged log already holds
      `limit` entries, leaving it as it is; otherwise append `now`. */
  lemma DecideRule(log: seq<int>, now: int, limit: int, windowMs: int)
    ensures var kept := Purge(log, now, windowMs);
      var step := Decide(log, now, limit, windowMs);
      && (step.decision == Allowed <==> |kept| < limit)
      && (step.decision != Allowed ==> step.log == kept)
      && (step.decision == Allowed ==> step.log == kept + [now] && |step.log| == |kept| + 1)
  {
  }

  /** After a call, no stored entry is stale. */
  lemma DecideLeavesNoStaleEntry(log: seq<int>, now: int, limit: int, windowMs: int)
    requires windowMs > 0
    ensures forall t :: t in Decide(log, now, limit, windowMs).log ==> now - t < windowMs
  {
  }

  /** A call never lets a log grow beyond `limit`. */
  lemma DecideKeepsBound(log: seq<int>, now: int, limit: int, windowMs: int)
    requires log == [] || |log| <= limit
    ensures var r := Decide(log, now, limit, windowMs).log; r == [] || |r| <= limit
  {
  }

  /** A sorted log stays sorted when purged. */
  lemma PurgeKeepsSorted(log: seq<int>, now: int, windowMs: int)
    requires Sorted(log)
    ensures Sorted(Purge(log, now, windowMs))
  {
    PurgeDropsPrefix(log, now, windowMs);
    var k :| 0 <= k <= |log| && Purge(log, now, windowMs) == log[k..];
    var r := log[k..];
    forall i, j | 0 <= i <= j < |r| ensures r[i] <= r[j] {
      assert r[i] == log[k + i] && r[j] == log[k + j];
    }
  }

  lemma SortedAppend(s: seq<int>, x: int)
    requires Sorted(s)
    requires forall t :: t in s ==> t <= x
    ensures Sorted(s + [x])
  {
    var r := s + [x];
    forall i, j | 0 <= i <= j < |r| ensures r[i] <= r[j] {
      if j < |s| {
        assert r[i] == s[i] && r[j] == s[j];
      } else {
        assert r[i] in s || r[i] == x;
      }
    }
  }

  /** With non-decreasing call instants a log stays sorted, so its first
      entry is its minimum. */
  lemma DecideKeepsSorted(log: seq<int>, now: int, limit: int, windowMs: int)
    requires Sorted(log)
    requires forall t :: t in log ==> t <= now
    ensures var r := Decide(log, now, limit, windowMs).log;
      && Sorted(r)
      && (forall t :: t in r ==> t <= now)
      && (r != [] ==> forall t :: t in r ==> r[0] <= t)
  {
    var kept := Purge(log, now, windowMs);
    PurgeKeepsSorted(log, now, windowMs);
    var r := Decide(log, now, limit, windowMs).log;
    if r != kept {
      SortedAppend(kept, now);
    }
    assert Sorted(r);
    forall t | t in r ensures r[0] <= t {
      var i :| 0 <= i < |r| && r[i] == t;
    }
  }

  /** A user never seen before is admitted whenever `limit > 0`. */
  lemma FirstRequestAllowed(now: int, limit: int, windowMs: int)
    requires limit > 0
    ensures Decide([], now, limit, windowMs) == Step(Allowed, [now])
  {
  }

  /** The reported wait on a denial lies between one second and the window
      rounded up to seconds, when the earliest entry is not in the future. */
  lemma RetryHintBounds(log: seq<int>, now: int, limit: int, windowMs: int)
    requires windowMs > 0
    requires Decide(log, now, limit, windowMs).decision.Denied?
    requires Purge(log, now, windowMs)[0] <= now
    ensures var h := Decide(log, now, limit, windowMs).decision.timeLeft;
      1 <= h <= CeilDiv(windowMs, 1000)
  {
  }

  /** Retrying `timeLeft` seconds after a denial is admitted: the earliest
      entry has expired by then and the log was full at most. One second
      earlier, the earliest entry would still count. */
  lemma RetryHintRecovers(log: seq<int>, now: int, limit: int, windowMs: int)
    requires |log| <= limit
    requires Decide(log, now, limit, windowMs).decision.Denied?
    ensures var step := Decide(log, now, limit, windowMs);
      var later := now + 1000 * step.decision.timeLeft;
      && Decide(step.log, later, limit, windowMs).decision == Allowed
      && later - 1000 - step.log[0] < windowMs
  {
  }

  /** A denial consumes no quota: an immediate repeat gets the same answer
      and leaves the same log. */
  lemma DenialIsIdempotent(log: seq<int>, now: int, limit: int, windowMs: int)
    requires Decide(log, now, limit, windowMs).decision != Allowed
    ensures var step := Decide(log, now, limit, windowMs);
      Decide(step.log, now, limit, windowMs) == step
  {
    PurgeTwice(log, now, now, windowMs);
  }

  /** The boundary case of a one-request window of one second. */
  lemma OnePerSecondScenario()
    ensures Decide([], 0, 1, 1000) == Step(Allowed, [0])
    ensures Decide([0], 500, 1, 1000) == Step(Denied(1), [0])
    ensures Decide([0], 1000, 1, 1000) == Step(Allowed, [1000])
  {
  }

  // ---------------------------------------------------------------------------
  // Many calls
  // ---------------------------------------------------------------------------

  predicate NonDecreasing(nows: seq<int>) {
    forall i, j :: 0 <= i <= j < |nows| ==> nows[i] <= nows[j]
  }

  /** Over non-decreasing call instants, the stored log is exactly the
      admissions still inside the window at the last call, and within the limit. */
  lemma {:induction false} ReplayInvariant(nows: seq<int>, limit: int, windowMs: int)
    requires windowMs > 0 && limit >= 0
    requires NonDecreasing(nows) && nows != []
    ensures var h := Replay(nows, limit, windowMs);
      var last := nows[|nows| - 1];
      && h.log == Purge(h.admitted, last, windowMs)
      && |h.log| <= limit
      && forall t :: t in h.admitted ==> t <= last
  {
    var ns := nows[..|nows| - 1];
    var n := nows[|nows| - 1];
    var h := Replay(ns, limit, windowMs);
    if ns == [] {
      assert h == History([], []);
    } else {
      ReplayInvariant(ns, limit, windowMs);
      var last := ns[|ns| - 1];
      PurgeTwice(h.admitted, last, n, windowMs);
      PurgeAppend(h.admitted, n, n, windowMs);
    }
  }

  /** The sliding-window guarantee: at the instant of any call, at most
      `limit` admissions of the user lie in the window ending there (every
      admission is at or before that instant). */
  lemma AdmissionBound(nows: seq<int>, limit: int, windowMs: int)
    requires windowMs > 0 && limit >= 0
    requires NonDecreasing(nows) && nows != []
    ensures |Purge(Replay(nows, limit, windowMs).admitted, nows[|nows| - 1], windowMs)| <= limit
  {
    ReplayInvariant(nows, limit, windowMs);
  }
}
