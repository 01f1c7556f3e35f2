/** What a window of so many seconds, a rounded wait and a reported quota mean, on both limiters
    (packages/rate-limit/src/local-rate-limiter.ts, distributed-rate-limiter.ts). */
module RateLimitWindows {
  import opened Wrappers
  import opened RateLimit
  import opened LocalLimiter
  import opened RedisLimiter
  import opened RateLimitParity
  import opened LocalLimiterPromises

  /** Two dimensions share a counter exactly if class, kind and identifier are the same. */
  lemma CountersAreShared(d: Decision, i: nat, e: Decision, j: nat)
    requires i < |d.dimensions| && j < |e.dimensions|
    ensures d.KeyAt(i) == e.KeyAt(j) <==>
              && d.endpointClass == e.endpointClass
              && d.dimensions[i].kind == e.dimensions[j].kind
              && d.dimensions[i].identifier == e.dimensions[j].identifier
  {
  }

  /** Seconds are milliseconds rounded up. */
  lemma SecondsRoundUp(millis: int)
    ensures 1000 * (CeilSeconds(millis) - 1) < millis <= 1000 * CeilSeconds(millis)
  {
  }

  /** None of the decision's dimensions has a live counter. */
  ghost predicate Fresh(t: Table, d: Decision, now: int) {
    forall i :: 0 <= i < |d.dimensions| ==> View(t, d.KeyAt(i), now).None?
  }

  lemma FreshCounter(t: Table, d: Decision, n: nat, now: int)
    requires t.Valid() && d.Valid() && 0 < n <= |d.dimensions| && Fresh(t, d, now) && Room(t, d, n, now)
    ensures Room(t, d, n - 1, now)
    ensures CounterAt(t, d, n - 1, now) == Counter(1, now + 1000 * d.windowSeconds)
  {
    hide LocalLimiter.Counted, LocalLimiter.CounterAt, LocalLimiter.Bump;
    RoomForFewer(LiveKeys(t, now), d, n);
    CountedOnItsTurn(t, d, n, now);
  }

  /** A full window to go, and all but one of the least limit. */
  ghost predicate SpeaksOfFresh(q: Quota, d: Decision, n: nat)
    requires n <= |d.dimensions|
  {
    && q.resetSeconds == d.windowSeconds && q.remaining == q.limit - 1
    && (exists i :: 0 <= i < n && d.LimitAt(i) == q.limit)
    && forall i :: 0 <= i < n ==> q.limit <= d.LimitAt(i)
  }

  lemma {:induction false} FreshQuota(t: Table, d: Decision, n: nat, now: int)
    requires t.Valid() && d.Valid() && 0 < n <= |d.dimensions| && Fresh(t, d, now) && Room(t, d, n, now)
    ensures Tightest(t, d, n, now).Some? && SpeaksOfFresh(Tightest(t, d, n, now).value, d, n)
    decreases n
  {
    hide LocalLimiter.Counted, LocalLimiter.CounterAt, LocalLimiter.Room, Fresh;
    FreshCounter(t, d, n, now);
    assert d.LimitAt(n - 1) == d.LimitAt(n - 1);
    if n > 1 {
      FreshQuota(t, d, n - 1, now);
    }
  }

  lemma FreshIsAdmitted(t: Table, d: Decision, now: int)
    requires t.Valid() && d.Valid() && Fresh(t, d, now) && Room(t, d, |d.dimensions|, now)
    ensures var (answer, after) := Consumed(t, d, now);
            && answer.Allowed? && answer.quota.Some? && SpeaksOfFresh(answer.quota.value, d, |d.dimensions|)
            && (forall i :: 0 <= i < |d.dimensions| ==>
                  View(after, d.KeyAt(i), now) == Some(Counter(1, now + 1000 * d.windowSeconds)))
  {
    hide LocalLimiter.Bump;
    var all := |d.dimensions|;
    var scanned := Scanned(t, d, all, now);
    NothingLimited(t, d, all, now);
    ScannedIsEquivalent(t, d, all, now);
    FreshQuota(scanned, d, all, now);
    CountedWithRoom(scanned, d, all, now);
    forall i | 0 <= i < all
      ensures View(Counted(scanned, d, all, now), d.KeyAt(i), now) == Some(Counter(1, now + 1000 * d.windowSeconds))
    {
      assert d.KeyAt(i) in KeysUpTo(d, all);
    }
  }

  /** A decision with fresh counters opens a window of exactly its seconds on both limiters: the answer
      says so, and each counter lives until then and is gone from then on. */
  lemma FreshWindow(t: Table, r: Store, d: Decision, now: int, i: nat, later: int)
    requires t.Valid() && d.Valid() && Agree(t, r, now) && Positive(t, now)
    requires Fresh(t, d, now) && Room(t, d, |d.dimensions|, now)
    requires i < |d.dimensions| && now <= later
    ensures var (answer, after) := Consumed(t, d, now);
            var (reply, stored) := Script(r, d, now);
            && answer.Allowed? && answer.quota.Some? && Interpreted(d, reply) == Some(answer)
            && SpeaksOfFresh(answer.quota.value, d, |d.dimensions|)
            && (View(after, d.KeyAt(i), later).Some? <==> later < now + 1000 * d.windowSeconds)
            && (At(stored, d.KeyAt(i), later).Some? <==> later < now + 1000 * d.windowSeconds)
  {
    hide LocalLimiter.Consumed, RedisLimiter.Script, RedisLimiter.Interpreted;
    FreshIsAdmitted(t, d, now);
    assert forall k: nat :: k < |d.dimensions| ==> !RefusedAt(t, d, k, now);
    ParityStep(t, r, d, now);
    var after, stored := Consumed(t, d, now).1, Script(r, d, now).1;
    assert At(stored, d.KeyAt(i), now) == Lifted(View(after, d.KeyAt(i), now));
  }

  /** So a limit of one refuses every further request of the window, and admits the next one after it. */
  lemma OnePerWindow(t: Table, d: Decision, now: int, later: int)
    requires t.Valid() && d.Valid() && Fresh(t, d, now) && Room(t, d, |d.dimensions|, now) && now <= later
    requires |d.dimensions| == 1 && d.LimitAt(0) == 1
    ensures Consumed(Consumed(t, d, now).1, d, later).0.Allowed? <==> later >= now + 1000 * d.windowSeconds
  {
    hide LocalLimiter.Bump;
    FreshIsAdmitted(t, d, now);
    NothingLimited(Consumed(t, d, now).1, d, 1, later);
  }

  // ----- Reported quotas -----

  /** The dimension a quota speaks of, among the first n: the first with the least budget left. */
  ghost predicate SpeaksOf(q: Quota, t: Table, d: Decision, n: nat, now: int, i: nat)
    requires i < n <= |d.dimensions|
  {
    var after := j requires 0 <= j < n => CounterAfter(t, d.KeyAt(j), now, 1000 * d.windowSeconds);
    && q.limit == d.LimitAt(i) && q.remaining == d.LimitAt(i) - after(i).count
    && (forall j :: 0 <= j < n ==> q.remaining <= d.LimitAt(j) - after(j).count)
    && (forall j :: 0 <= j < i ==> q.remaining < d.LimitAt(j) - after(j).count)
    && 1000 * (q.resetSeconds - 1) < after(i).expiresAt - now <= 1000 * q.resetSeconds
  }

  lemma {:induction false} TightestSpeaks(t: Table, d: Decision, n: nat, now: int) returns (i: nat)
    requires t.Valid() && d.Valid() && 0 < n <= |d.dimensions|
    requires forall i :: 0 <= i < |d.dimensions| ==> Remembers(t, d, now, d.KeyAt(i))
    ensures Tightest(t, d, n, now).Some? && i < n && SpeaksOf(Tightest(t, d, n, now).value, t, d, n, now, i)
    decreases n
  {
    hide LocalLimiter.Counted, LocalLimiter.CounterAt, LocalLimiter.Remembers;
    OwnCounter(t, d, now, n - 1);
    var c := CounterAfter(t, d.KeyAt(n - 1), now, d.Window());
    SecondsRoundUp(c.expiresAt - now);
    i := n - 1;
    if n > 1 {
      var before := TightestSpeaks(t, d, n - 1, now);
      if Tightest(t, d, n, now) == Tightest(t, d, n - 1, now) {
        i := before;
      }
    }
  }

  /** An admitted quota gives limit, remaining budget and reset of the first dimension with the least
      budget left, the reset rounded up to seconds. */
  lemma QuotaSpeaksOfTheTightest(t: Table, d: Decision, now: int) returns (i: nat)
    requires t.Valid() && d.Valid() && Consumed(t, d, now).0.Allowed?
    requires forall i :: 0 <= i < |d.dimensions| ==>
               Remembers(Scanned(t, d, |d.dimensions|, now), d, now, d.KeyAt(i))
    ensures i < |d.dimensions| && Consumed(t, d, now).0.quota.Some?
    ensures SpeaksOf(Consumed(t, d, now).0.quota.value, t, d, |d.dimensions|, now, i)
  {
    hide LocalLimiter.Bump, LocalLimiter.Counted;
    var all := |d.dimensions|;
    ScannedIsEquivalent(t, d, all, now);
    i := TightestSpeaks(Scanned(t, d, all, now), d, all, now);
  }

  /** A counter that was left without a lifetime is taken to have a whole window to go. */
  lemma WithoutLifetime(r: Store, d: Decision, now: int, count: int)
    requires d.Valid() && |d.dimensions| == 1 && count >= d.LimitAt(0)
    requires d.KeyAt(0) in r && r[d.KeyAt(0)] == Entry(count, None)
    ensures Script(r, d, now) == (Reply(0, 1000 * d.windowSeconds, 1, None), r)
    ensures Interpreted(d, Script(r, d, now).0)
         == Some(Refused(if d.windowSeconds <= 60 then d.windowSeconds else 60, d.dimensions[0].kind))
  {
    assert Rejected(r, d, 0, now) == (0, 0);
    assert Rejected(r, d, 1, now) == (1, 1000 * d.windowSeconds);
    SecondsRoundUp(1000 * d.windowSeconds);
  }

  /** Redis reports a wait rounded up to seconds, at least one and never more than a minute. What the
      script cannot have answered is refused. */
  lemma RedisWait(d: Decision, millis: int, index: nat)
    ensures var answer := Interpreted(d, Reply(0, millis, index, None));
            && (answer.Some? <==> millis >= 0 && 1 <= index <= |d.dimensions|)
            && (answer.Some? ==> answer.value.Refused? && answer.value.limitedDimension == d.dimensions[index - 1].kind)
            && (answer.Some? && millis <= 60_000 ==> answer.value.retryAfterSeconds >= 1)
            && (answer.Some? && 0 < millis <= 60_000 ==>
                  1000 * (answer.value.retryAfterSeconds - 1) < millis <= 1000 * answer.value.retryAfterSeconds)
            && (answer.Some? && millis == 0 ==> answer.value.retryAfterSeconds == 1)
            && (answer.Some? && millis > 60_000 ==> answer.value.retryAfterSeconds == 60)
  {
    SecondsRoundUp(millis);
  }
}
