/** What the local limiter's answers are worth: how much a key can be admitted over any
    stretch of time, and whether a wait or a remaining budget is honest. */
module LocalLimiterPromises {
  import opened Wrappers
  import opened RateLimit
  import opened LocalLimiter
  import opened RateLimitParity

  /** What one request does to the counter k, as long as it does not have to be forgotten. */
  lemma StepView(t: Table, d: Decision, now: int, k: Key)
    requires t.Valid() && d.DistinctKeys() && d.Window() > 0
    requires Remembers(Scanned(t, d, |d.dimensions|, now), d, now, k)
    ensures var (answer, after) := Consumed(t, d, now);
            && after.Valid()
            && View(after, k, now)
               == if answer.Allowed? && k in d.Keys() then Some(CounterAfter(t, k, now, d.Window())) else View(t, k, now)
  {
    hide LocalLimiter.Bump;
    var all := |d.dimensions|;
    var scanned := Scanned(t, d, all, now);
    ScannedIsEquivalent(t, d, all, now);
    CountedIsValid(scanned, d, all, now);
    CountedWhenRemembered(scanned, d, all, now, k);
    assert KeysUpTo(d, all) == d.Keys();
  }

  /** An admitted key was under its limit. */
  lemma AdmittedUnderLimit(t: Table, d: Decision, now: int, i: nat)
    requires i < |d.dimensions| && Consumed(t, d, now).0.Allowed?
    ensures View(t, d.KeyAt(i), now).Some? ==> View(t, d.KeyAt(i), now).value.count < d.LimitAt(i)
  {
    NothingLimited(t, d, |d.dimensions|, now);
  }

  // ----- Fixed windows: at most twice the limit in any window's length -----

  /** The key is always consumed with the same limit and window, never forgotten, and the
      clock never steps back. */
  ghost predicate Steady(t: Table, from: int, calls: seq<Call>, k: Key, limit: int, window: int)
    decreases |calls|
  {
    calls != [] ==>
      var d, now := calls[0].decision, calls[0].now;
      && from <= now && d.DistinctKeys() && d.Window() > 0
      && (forall i :: 0 <= i < |d.dimensions| && d.KeyAt(i) == k ==> d.LimitAt(i) == limit && d.Window() == window)
      && Remembers(Scanned(t, d, |d.dimensions|, now), d, now, k)
      && Steady(Consumed(t, d, now).1, now, calls[1..], k, limit, window)
  }

  /** Requests for k admitted between two moments, both included. */
  function Admitted(t: Table, calls: seq<Call>, k: Key, lo: int, hi: int): nat
    decreases |calls|
  {
    if calls == [] then 0
    else
      var d, now := calls[0].decision, calls[0].now;
      var (answer, after) := Consumed(t, d, now);
      (if answer.Allowed? && k in d.Keys() && lo <= now <= hi then 1 else 0) + Admitted(after, calls[1..], k, lo, hi)
  }

  /** The counter respects its limit and will expire within its window. */
  ghost predicate Kept(t: Table, now: int, k: Key, limit: int, window: int) {
    var c := View(t, k, now);
    c.Some? ==> 1 <= c.value.count <= limit && c.value.expiresAt <= now + window
  }

  /** One request keeps the counter within its limit. */
  lemma StepKept(t: Table, from: int, calls: seq<Call>, k: Key, limit: int, window: int)
    requires t.Valid() && limit > 0 && window > 0 && calls != []
    requires Steady(t, from, calls, k, limit, window) && Kept(t, from, k, limit, window)
    ensures var d, now := calls[0].decision, calls[0].now;
            var (answer, after) := Consumed(t, d, now);
            && after.Valid() && Kept(after, now, k, limit, window)
            && (answer.Allowed? && k in d.Keys() ==>
                  View(after, k, now) == Some(CounterAfter(t, k, now, window))
                  && (View(t, k, now).Some? ==> View(t, k, now).value.count < limit))
            && (!(answer.Allowed? && k in d.Keys()) ==> View(after, k, now) == View(t, k, now))
  {
    hide LocalLimiter.Consumed, LocalLimiter.Counted, LocalLimiter.Scanned;
    var d, now := calls[0].decision, calls[0].now;
    StepView(t, d, now, k);
    if Consumed(t, d, now).0.Allowed? && k in d.Keys() {
      var i :| 0 <= i < |d.dimensions| && d.KeyAt(i) == k;
      AdmittedUnderLimit(t, d, now, i);
    }
  }

  lemma {:induction false} KeptThroughout(t: Table, from: int, calls: seq<Call>, k: Key, limit: int, window: int)
    requires t.Valid() && limit > 0 && window > 0
    requires Steady(t, from, calls, k, limit, window) && Kept(t, from, k, limit, window)
    ensures Kept(LocalRun(t, calls).1, if calls == [] then from else calls[|calls| - 1].now, k, limit, window)
    decreases |calls|
  {
    hide LocalLimiter.Consumed, LocalLimiter.Counted, LocalLimiter.Scanned;
    if calls != [] {
      StepKept(t, from, calls, k, limit, window);
      KeptThroughout(Consumed(t, calls[0].decision, calls[0].now).1, calls[0].now, calls[1..], k, limit, window);
    }
  }

  /** What can still be admitted until hi: the rest of the live window and at most one more. */
  lemma {:induction false} AdmittedFromNow(t: Table, from: int, calls: seq<Call>, k: Key, limit: int, window: int, hi: int)
    requires t.Valid() && limit > 0 && window > 0
    requires Steady(t, from, calls, k, limit, window) && Kept(t, from, k, limit, window)
    ensures var n := Admitted(t, calls, k, from, hi);
            match View(t, k, from)
            case None =>
              (hi < from + window ==> n <= limit) && (hi <= from + window ==> n <= 2 * limit)
            case Some(c) =>
              hi < c.expiresAt + window ==> n <= limit - c.count + (if hi >= c.expiresAt then limit else 0)
    decreases |calls|
  {
    hide LocalLimiter.Consumed, LocalLimiter.Counted, LocalLimiter.Scanned;
    if calls != [] {
      var d, now := calls[0].decision, calls[0].now;
      var after := Consumed(t, d, now).1;
      StepKept(t, from, calls, k, limit, window);
      AdmittedFromNow(after, now, calls[1..], k, limit, window, hi);
      LaterStart(after, now, calls[1..], k, limit, window, from, hi);
    }
  }

  /** The calls that are left all come later, so an earlier start counts the same ones. */
  lemma {:induction false} LaterStart(t: Table, from: int, calls: seq<Call>, k: Key, limit: int, window: int, lo: int, hi: int)
    requires Steady(t, from, calls, k, limit, window) && lo <= from
    ensures Admitted(t, calls, k, lo, hi) == Admitted(t, calls, k, from, hi)
    ensures hi < from ==> Admitted(t, calls, k, lo, hi) == 0
    decreases |calls|
  {
    hide LocalLimiter.Consumed, LocalLimiter.Counted, LocalLimiter.Scanned;
    if calls != [] {
      var now, after := calls[0].now, Consumed(t, calls[0].decision, calls[0].now).1;
      LaterStart(after, now, calls[1..], k, limit, window, lo, hi);
      LaterStart(after, now, calls[1..], k, limit, window, from, hi);
    }
  }

  lemma {:induction false} TwiceInMillis(t: Table, from: int, calls: seq<Call>, k: Key, limit: int, window: int, lo: int, hi: int)
    requires t.Valid() && limit > 0 && window > 0 && hi <= lo + window
    requires Steady(t, from, calls, k, limit, window) && Kept(t, from, k, limit, window)
    ensures Admitted(t, calls, k, lo, hi) <= 2 * limit
    decreases |calls|
  {
    hide LocalLimiter.Consumed, LocalLimiter.Counted, LocalLimiter.Scanned;
    if calls != [] {
      var d, now := calls[0].decision, calls[0].now;
      var after := Consumed(t, d, now).1;
      if now < lo {
        StepKept(t, from, calls, k, limit, window);
        TwiceInMillis(after, now, calls[1..], k, limit, window, lo, hi);
      } else {
        assert Steady(t, now, calls, k, limit, window);
        AdmittedFromNow(t, now, calls, k, limit, window, hi);
        LaterStart(t, now, calls, k, limit, window, lo, hi);
      }
    }
  }

  /** The key is always consumed with the same limit and the same window in seconds, never forgotten,
      and the clock never steps back. */
  ghost predicate SteadyFor(t: Table, from: int, calls: seq<Call>, k: Key, limit: int, seconds: int)
    decreases |calls|
  {
    calls != [] ==>
      var d, now := calls[0].decision, calls[0].now;
      && from <= now && d.DistinctKeys() && d.windowSeconds > 0
      && (forall i :: 0 <= i < |d.dimensions| && d.KeyAt(i) == k ==> d.LimitAt(i) == limit && d.windowSeconds == seconds)
      && Remembers(Scanned(t, d, |d.dimensions|, now), d, now, k)
      && SteadyFor(Consumed(t, d, now).1, now, calls[1..], k, limit, seconds)
  }

  lemma {:induction false} SteadyInMillis(t: Table, from: int, calls: seq<Call>, k: Key, limit: int, seconds: int)
    requires SteadyFor(t, from, calls, k, limit, seconds)
    ensures Steady(t, from, calls, k, limit, 1000 * seconds)
    decreases |calls|
  {
    hide LocalLimiter.Consumed, LocalLimiter.Counted, LocalLimiter.Scanned;
    if calls != [] {
      SteadyInMillis(Consumed(t, calls[0].decision, calls[0].now).1, calls[0].now, calls[1..], k, limit, seconds);
    }
  }

  /** In every state of such a run the live count stays within the limit, and the counter has at most
      the window's seconds to go. */
  lemma LiveCountWithinLimit(t: Table, from: int, calls: seq<Call>, k: Key, limit: int, seconds: int)
    requires t.Valid() && limit > 0 && seconds > 0
    requires SteadyFor(t, from, calls, k, limit, seconds) && Kept(t, from, k, limit, 1000 * seconds)
    ensures Kept(LocalRun(t, calls).1, if calls == [] then from else calls[|calls| - 1].now, k, limit, 1000 * seconds)
  {
    SteadyInMillis(t, from, calls, k, limit, seconds);
    KeptThroughout(t, from, calls, k, limit, 1000 * seconds);
  }

  /** Any closed stretch of 1000 milliseconds for each second of the window holds at most twice the limit. */
  lemma TwiceTheLimit(t: Table, from: int, calls: seq<Call>, k: Key, limit: int, seconds: int, lo: int, hi: int)
    requires t.Valid() && limit > 0 && seconds > 0 && hi <= lo + 1000 * seconds
    requires SteadyFor(t, from, calls, k, limit, seconds) && Kept(t, from, k, limit, 1000 * seconds)
    ensures Admitted(t, calls, k, lo, hi) <= 2 * limit
  {
    SteadyInMillis(t, from, calls, k, limit, seconds);
    TwiceInMillis(t, from, calls, k, limit, 1000 * seconds, lo, hi);
  }

  // ----- Refusals -----

  /** The reported wait is the longest among the dimensions that refuse. */
  lemma {:induction false} LongestWait(t: Table, d: Decision, n: nat, now: int)
    requires n <= |d.dimensions|
    ensures forall i :: 0 <= i < n && View(t, d.KeyAt(i), now).Some? && View(t, d.KeyAt(i), now).value.count >= d.LimitAt(i) ==>
              Limited(t, d, n, now).Some? && View(t, d.KeyAt(i), now).value.expiresAt - now <= Limited(t, d, n, now).value.0
    ensures Limited(t, d, n, now).Some? ==>
              exists i :: 0 <= i < n && View(t, d.KeyAt(i), now).Some? && View(t, d.KeyAt(i), now).value.count >= d.LimitAt(i)
                          && View(t, d.KeyAt(i), now).value.expiresAt - now == Limited(t, d, n, now).value.0
  {
    if n > 0 {
      LongestWait(t, d, n - 1, now);
    }
  }

  /** With no other traffic a refused decision is admitted from the promised moment on,
      and not a full second earlier. */
  lemma RefusalIsHonest(t: Table, d: Decision, now: int, later: int)
    requires t.Valid() && Consumed(t, d, now).0.Refused? && now <= later
    ensures var (answer, after) := Consumed(t, d, now);
            && (later >= now + 1000 * answer.retryAfterSeconds ==> Consumed(after, d, later).0.Allowed?)
            && (later <= now + 1000 * (answer.retryAfterSeconds - 1) ==> Consumed(after, d, later).0.Refused?)
  {
    hide LocalLimiter.Bump;
    var all := |d.dimensions|;
    var after := Consumed(t, d, now).1;
    ScannedIsEquivalent(t, d, all, now);
    LongestWait(t, d, all, now);
    NothingLimited(after, d, all, later);
    var wait := Limited(t, d, all, now).value.0;
    forall i | 0 <= i < all
      ensures View(after, d.KeyAt(i), later).Some? ==> View(after, d.KeyAt(i), later) == View(t, d.KeyAt(i), now)
      ensures View(t, d.KeyAt(i), now).Some? && View(t, d.KeyAt(i), now).value.expiresAt > later ==>
                View(after, d.KeyAt(i), later) == View(t, d.KeyAt(i), now)
    {
      assert View(after, d.KeyAt(i), now) == View(t, d.KeyAt(i), now);
    }
  }

  // ----- Quotas -----

  /** Every dimension's counter is live and stays so until the given moment. */
  ghost predicate AllLive(t: Table, d: Decision, until: int) {
    forall i :: 0 <= i < |d.dimensions| ==> View(t, d.KeyAt(i), until).Some?
  }

  /** The least budget left among the first n dimensions. */
  function Slack(t: Table, d: Decision, n: nat, now: int): Option<int>
    requires n <= |d.dimensions|
  {
    if n == 0 then None
    else
      var before := Slack(t, d, n - 1, now);
      var c := View(t, d.KeyAt(n - 1), now);
      var left := d.LimitAt(n - 1) - (if c.Some? then c.value.count else 0);
      if before.None? || left < before.value then Some(left) else before
  }

  predicate CountedMore(t: Table, u: Table, k: Key, now: int, later: int, more: int) {
    View(t, k, now).Some? && View(u, k, later).Some?
    && View(u, k, later).value.count == View(t, k, now).value.count + more
  }

  lemma {:induction false} SlackOfSameCounts(t: Table, u: Table, d: Decision, n: nat, now: int, later: int, less: int)
    requires n <= |d.dimensions|
    requires forall i :: 0 <= i < n ==> CountedMore(t, u, d.KeyAt(i), now, later, less)
    ensures Slack(t, d, n, now).Some? <==> n > 0
    ensures n > 0 ==> Slack(u, d, n, later) == Some(Slack(t, d, n, now).value - less)
  {
    if n > 0 {
      SlackOfSameCounts(t, u, d, n - 1, now, later, less);
    }
  }

  lemma {:induction false} SlackDecides(t: Table, d: Decision, n: nat, now: int)
    requires 0 < n <= |d.dimensions| && forall i :: 0 <= i < n ==> d.LimitAt(i) > 0
    ensures Slack(t, d, n, now).Some?
    ensures Limited(t, d, n, now).None? <==> Slack(t, d, n, now).value > 0
  {
    if n > 1 {
      SlackDecides(t, d, n - 1, now);
    }
  }

  /** Counting live counters only adds one to each; nothing is created or forgotten. */
  lemma {:induction false} CountingLive(t: Table, d: Decision, n: nat, now: int)
    requires n <= |d.dimensions| && d.DistinctKeys() && AllLive(t, d, now)
    ensures forall k :: View(Counted(t, d, n, now), k, now)
              == if k in KeysUpTo(d, n) then Some(CounterAfter(t, k, now, d.Window())) else View(t, k, now)
    decreases n
  {
    if n > 0 {
      CountingLive(t, d, n - 1, now);
      KeysUpToStep(d, n);
      var before, key := Counted(t, d, n - 1, now), d.KeyAt(n - 1);
      assert View(t, key, now).Some?;
      assert View(before, key, now) == View(t, key, now);
    }
  }

  /** Repeating a decision whose counters are all live: it passes while budget is left, and
      then takes one from every dimension. */
  lemma RepeatedRequest(t: Table, d: Decision, now: int)
    requires t.Valid() && d.Valid() && AllLive(t, d, now)
    ensures var (answer, after) := Consumed(t, d, now);
            var slack := Slack(t, d, |d.dimensions|, now);
            && slack.Some? && after.Valid()
            && (answer.Allowed? <==> slack.value > 0)
            && (forall i :: 0 <= i < |d.dimensions| ==>
                  View(after, d.KeyAt(i), now)
                  == if answer.Allowed? then Some(CounterAfter(t, d.KeyAt(i), now, d.Window())) else View(t, d.KeyAt(i), now))
  {
    hide LocalLimiter.Bump;
    var all := |d.dimensions|;
    var scanned := Scanned(t, d, all, now);
    ScannedIsEquivalent(t, d, all, now);
    SlackDecides(t, d, all, now);
    assert AllLive(scanned, d, now);
    CountingLive(scanned, d, all, now);
    CountedIsValid(scanned, d, all, now);
  }

  function Repeats(d: Decision, times: seq<int>): seq<Call> { seq(|times|, i requires 0 <= i < |times| => Call(d, times[i])) }

  /** The counters that are live at the latest of the given moments. */
  ghost predicate LiveThroughout(t: Table, d: Decision, from: int, times: seq<int>)
  {
    AllLive(t, d, from)
    && forall j :: 0 <= j < |times| ==> from <= times[j] && AllLive(t, d, times[j])
  }

  /** Identical requests before any counter expires: exactly the slack is admitted. */
  lemma {:induction false} SlackIsExact(t: Table, d: Decision, from: int, times: seq<int>)
    requires t.Valid() && d.Valid() && LiveThroughout(t, d, from, times) && Slack(t, d, |d.dimensions|, from).Some?
    requires forall i, j :: 0 <= i < j < |times| ==> times[i] <= times[j]
    requires Slack(t, d, |d.dimensions|, from).value >= 0
    ensures var answers := LocalRun(t, Repeats(d, times)).0;
            |answers| == |times|
            && forall j :: 0 <= j < |times| ==> (answers[j].Allowed? <==> j < Slack(t, d, |d.dimensions|, from).value)
    decreases |times|
  {
    hide LocalLimiter.Consumed;
    if times != [] {
      var all, now := |d.dimensions|, times[0];
      assert AllLive(t, d, now);
      RepeatedRequest(t, d, now);
      var (answer, after) := Consumed(t, d, now);
      StillLive(t, after, d, now, times);
      SlackOfSameCounts(t, t, d, all, from, now, 0);
      SlackOfSameCounts(t, after, d, all, now, now, if answer.Allowed? then 1 else 0);
      SlackIsExact(after, d, now, times[1..]);
      assert Repeats(d, times)[1..] == Repeats(d, times[1..]);
      assert LocalRun(t, Repeats(d, times)).0 == [answer] + LocalRun(after, Repeats(d, times[1..])).0;
    }
  }

  /** Counting a live counter keeps its expiry. */
  lemma StillLive(t: Table, after: Table, d: Decision, now: int, times: seq<int>)
    requires times != [] && now == times[0] && LiveThroughout(t, d, now, times)
    requires forall i :: 0 <= i < |d.dimensions| ==>
               View(after, d.KeyAt(i), now) in {View(t, d.KeyAt(i), now), Some(CounterAfter(t, d.KeyAt(i), now, d.Window()))}
    ensures LiveThroughout(after, d, now, times[1..])
  {
    forall j, i | 0 <= j < |times[1..]| && 0 <= i < |d.dimensions|
      ensures View(after, d.KeyAt(i), times[1..][j]).Some?
    {
      assert AllLive(t, d, times[j + 1]);
      assert View(t, d.KeyAt(i), times[j + 1]).Some? && View(t, d.KeyAt(i), now).Some?;
    }
  }

  /** A remembered dimension counts itself once, on its turn, and keeps that count. */
  lemma OwnCounter(t: Table, d: Decision, now: int, i: nat)
    requires t.Valid() && d.Valid() && i < |d.dimensions| && Remembers(t, d, now, d.KeyAt(i))
    ensures var c := CounterAfter(t, d.KeyAt(i), now, d.Window());
            View(Counted(t, d, |d.dimensions|, now), d.KeyAt(i), now) == Some(c) && CounterAt(t, d, i, now) == c
  {
    hide LocalLimiter.Counted;
    CountedWhenRemembered(t, d, |d.dimensions|, now, d.KeyAt(i));
    CountedWhenRemembered(t, d, i, now, d.KeyAt(i));
    RateLimitParity.ExpectedStep(t, d, i + 1, now);
    assert d.KeyAt(i) in KeysUpTo(d, |d.dimensions|);
  }

  /** The reported quota is the slack it leaves behind. */
  lemma {:induction false} QuotaIsSlack(t: Table, d: Decision, n: nat, now: int)
    requires t.Valid() && d.Valid() && n <= |d.dimensions|
    requires forall i :: 0 <= i < |d.dimensions| ==> Remembers(t, d, now, d.KeyAt(i))
    ensures Tightest(t, d, n, now).Some? <==> n > 0
    ensures n > 0 ==> Slack(Counted(t, d, |d.dimensions|, now), d, n, now) == Some(Tightest(t, d, n, now).value.remaining)
    decreases n
  {
    hide LocalLimiter.Counted, LocalLimiter.CounterAt, LocalLimiter.Remembers;
    if n > 0 {
      QuotaIsSlack(t, d, n - 1, now);
      OwnCounter(t, d, now, n - 1);
    }
  }

  /** An admitted quota says exactly how many more identical requests pass, at any later
      times before one of the counters involved expires. */
  lemma QuotaIsExact(t: Table, d: Decision, now: int, times: seq<int>)
    requires t.Valid() && d.Valid() && Consumed(t, d, now).0.Allowed?
    requires forall i :: 0 <= i < |d.dimensions| ==>
               Remembers(Scanned(t, d, |d.dimensions|, now), d, now, d.KeyAt(i))
    requires LiveThroughout(Consumed(t, d, now).1, d, now, times)
    requires forall i, j :: 0 <= i < j < |times| ==> times[i] <= times[j]
    ensures var (answer, after) := Consumed(t, d, now);
            var answers := LocalRun(after, Repeats(d, times)).0;
            && answer.quota.Some? && |answers| == |times|
            && forall j :: 0 <= j < |times| ==> (answers[j].Allowed? <==> j < answer.quota.value.remaining)
  {
    hide LocalLimiter.Bump;
    var all := |d.dimensions|;
    var scanned, after := Scanned(t, d, all, now), Consumed(t, d, now).1;
    ScannedIsEquivalent(t, d, all, now);
    CountedIsValid(scanned, d, all, now);
    QuotaIsSlack(scanned, d, all, now);
    SlackNotNegative(t, d, all, now);
    SlackIsExact(after, d, now, times);
  }

  /** An admission never takes a budget below zero. */
  lemma {:induction false} SlackNotNegative(t: Table, d: Decision, n: nat, now: int)
    requires t.Valid() && d.Valid() && Consumed(t, d, now).0.Allowed? && 0 < n <= |d.dimensions|
    requires forall i :: 0 <= i < |d.dimensions| ==>
               Remembers(Scanned(t, d, |d.dimensions|, now), d, now, d.KeyAt(i))
    ensures Slack(Consumed(t, d, now).1, d, n, now).Some? && Slack(Consumed(t, d, now).1, d, n, now).value >= 0
  {
    hide LocalLimiter.Consumed, LocalLimiter.Scanned;
    if n > 1 {
      SlackNotNegative(t, d, n - 1, now);
    }
    StepView(t, d, now, d.KeyAt(n - 1));
    AdmittedUnderLimit(t, d, now, n - 1);
    assert d.KeyAt(n - 1) in d.Keys();
  }
}
