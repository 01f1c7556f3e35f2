/** The local limiter answers as Redis would: the promise in the local limiter's header. */
module RateLimitParity {
  import opened Wrappers
  import opened RateLimit
  import opened LocalLimiter
  import opened RedisLimiter

  function Lifted(c: Option<Counter>): Option<Entry> {
    match c
    case None => None
    case Some(counter) => Some(Entry(counter.count, Some(counter.expiresAt)))
  }

  /** Both limiters hold the same live counters. */
  ghost predicate Agree(t: Table, r: Store, now: int) {
    forall k :: At(r, k, now) == Lifted(View(t, k, now))
  }

  /** Live counters have counted something. */
  ghost predicate Positive(t: Table, now: int) {
    forall k :: View(t, k, now).Some? ==> View(t, k, now).value.count >= 1
  }

  ghost predicate SameAnswer(a: Answer, b: Answer) {
    match (a, b)
    case (Allowed(p), Allowed(q)) => p == q
    case (Refused(s, _), Refused(u, _)) => s == u
    case _ => false
  }

  // ----- The first loops -----

  lemma {:induction false} RefusalsAgree(t: Table, r: Store, d: Decision, n: nat, now: int)
    requires n <= |d.dimensions| && d.Valid() && Agree(t, r, now) && Positive(t, now)
    ensures Limited(t, d, n, now).None? <==> Rejected(r, d, n, now).0 == 0
    ensures Rejected(r, d, n, now).0 <= n && Rejected(r, d, n, now).1 >= 0
    ensures Limited(t, d, n, now).Some? ==>
              Rejected(r, d, n, now).1 == Limited(t, d, n, now).value.0 && Limited(t, d, n, now).value.0 > 0
    ensures Limited(t, d, n, now).None? ==> Rejected(r, d, n, now).1 == 0
    decreases n
  {
    if n > 0 {
      RefusalsAgree(t, r, d, n - 1, now);
      var key := d.KeyAt(n - 1);
      assert At(r, key, now) == Lifted(View(t, key, now));
    }
  }

  // ----- The second loops -----

  /** The script's counting is the fixed-window rule as well. */
  lemma {:induction false} ScriptCounts(t: Table, r: Store, d: Decision, n: nat, now: int)
    requires n <= |d.dimensions| && d.Valid() && Agree(t, r, now) && Positive(t, now)
    ensures forall k :: At(CountedIn(r, d, n, now), k, now) == Lifted(Expected(t, d, n, now, k))
    decreases n
  {
    if n > 0 {
      ScriptCounts(t, r, d, n - 1, now);
      var before := CountedIn(r, d, n - 1, now);
      ExpectedStep(t, d, n, now);
      forall k
        ensures At(IncrAndExpire(before, d.KeyAt(n - 1), now, d.Window()), k, now) == Lifted(Expected(t, d, n, now, k))
      {
        assert At(before, k, now) == Lifted(Expected(t, d, n - 1, now, k));
      }
    }
  }

  lemma ExpectedStep(t: Table, d: Decision, n: nat, now: int)
    requires 0 < n <= |d.dimensions| && d.DistinctKeys()
    ensures forall k :: k != d.KeyAt(n - 1) ==> Expected(t, d, n, now, k) == Expected(t, d, n - 1, now, k)
    ensures var key := d.KeyAt(n - 1);
            && Expected(t, d, n, now, key) == Some(CounterAfter(t, key, now, d.Window()))
            && Expected(t, d, n - 1, now, key) == View(t, key, now)
  {
    KeysUpToStep(d, n);
  }

  function AsQuota(b: Option<Budget>): Option<Quota> {
    match b
    case None => None
    case Some(budget) => Some(Quota(budget.tightest, budget.remaining, Max(1, CeilSeconds(budget.resetMillis))))
  }

  lemma TighterAgrees(best: Option<Budget>, limit: int, c: Counter, now: int)
    ensures Tighter(AsQuota(best), limit, c, now) == AsQuota(TighterBudget(best, limit, c.count, c.expiresAt - now))
  {}

  /** A dimension's own key has not been counted before its turn. */
  lemma CountedOnItsTurn(t: Table, d: Decision, n: nat, now: int)
    requires 0 < n <= |d.dimensions| && d.Valid() && t.Valid() && Room(t, d, n - 1, now)
    ensures CounterAt(t, d, n - 1, now) == CounterAfter(t, d.KeyAt(n - 1), now, d.Window())
  {
    assert View(Counted(t, d, n - 1, now), d.KeyAt(n - 1), now) == Expected(t, d, n - 1, now, d.KeyAt(n - 1)) by {
      CountedWithRoom(t, d, n - 1, now);
    }
    ExpectedStep(t, d, n, now);
  }

  lemma CountersAgree(t: Table, r: Store, d: Decision, n: nat, now: int)
    requires 0 < n <= |d.dimensions| && d.Valid() && t.Valid() && Agree(t, r, now) && Positive(t, now)
    requires Room(t, d, n - 1, now)
    ensures var c, counted, key := CounterAt(t, d, n - 1, now), CountedIn(r, d, n, now), d.KeyAt(n - 1);
            Get(counted, key, now) == c.count && Pttl(counted, key, now) == c.expiresAt - now
  {
    var key := d.KeyAt(n - 1);
    assert At(CountedIn(r, d, n, now), key, now) == Lifted(Expected(t, d, n, now, key)) by {
      ScriptCounts(t, r, d, n, now);
    }
    ExpectedStep(t, d, n, now);
    CountedOnItsTurn(t, d, n, now);
  }

  lemma {:induction false} QuotasAgree(t: Table, r: Store, d: Decision, n: nat, now: int)
    requires n <= |d.dimensions| && d.Valid() && t.Valid() && Agree(t, r, now) && Positive(t, now)
    requires Room(t, d, n, now)
    ensures Tightest(t, d, n, now) == AsQuota(TightestBudget(r, d, n, now))
    decreases n
  {
    hide LocalLimiter.Counted, LocalLimiter.CounterAt, RedisLimiter.CountedIn;
    if n > 0 {
      assert Room(t, d, n - 1, now) by {
        RoomForFewer(LiveKeys(t, now), d, n);
      }
      QuotasAgree(t, r, d, n - 1, now);
      var best, limit, c := TightestBudget(r, d, n - 1, now), d.LimitAt(n - 1), CounterAt(t, d, n - 1, now);
      assert TightestBudget(r, d, n, now) == TighterBudget(best, limit, c.count, c.expiresAt - now) by {
        CountersAgree(t, r, d, n, now);
      }
      assert Tightest(t, d, n, now) == Tighter(Tightest(t, d, n - 1, now), limit, c, now);
      TighterAgrees(best, limit, c, now);
    }
  }

  /** Dropping expired counters on the way changes nothing that either limiter sees. */
  lemma {:induction false} ScannedIsEquivalent(t: Table, d: Decision, n: nat, now: int)
    requires t.Valid() && n <= |d.dimensions|
    ensures Scanned(t, d, n, now).Valid() && LiveKeys(Scanned(t, d, n, now), now) == LiveKeys(t, now)
    ensures forall k :: View(Scanned(t, d, n, now), k, now) == View(t, k, now)
  {
    if n > 0 {
      ScannedIsEquivalent(t, d, n - 1, now);
    }
    forall k
      ensures k in LiveKeys(Scanned(t, d, n, now), now) <==> k in LiveKeys(t, now)
    {
      ScanningKeepsViews(t, d, n, now);
      assert k in LiveKeys(Scanned(t, d, n, now), now) <==> View(Scanned(t, d, n, now), k, now).Some?;
    }
  }

  /** Nothing refused: every dimension is still under its limit. */
  lemma {:induction false} NothingLimited(t: Table, d: Decision, n: nat, now: int)
    requires n <= |d.dimensions|
    ensures Limited(t, d, n, now).None? <==>
              forall i :: 0 <= i < n && View(t, d.KeyAt(i), now).Some? ==> View(t, d.KeyAt(i), now).value.count < d.LimitAt(i)
  {
    if n > 0 {
      NothingLimited(t, d, n - 1, now);
    }
  }

  lemma {:induction false} BudgetNeverOverrun(t: Table, d: Decision, n: nat, now: int)
    requires n <= |d.dimensions| && d.Valid() && t.Valid() && Room(t, d, n, now)
    requires Limited(t, d, |d.dimensions|, now).None?
    ensures Tightest(t, d, n, now).Some? ==> Tightest(t, d, n, now).value.remaining >= 0
    ensures Tightest(t, d, n, now).Some? <==> n > 0
    decreases n
  {
    hide LocalLimiter.Bump;
    if n > 0 {
      assert Room(t, d, n - 1, now) by {
        RoomForFewer(LiveKeys(t, now), d, n);
      }
      BudgetNeverOverrun(t, d, n - 1, now);
      assert CounterAt(t, d, n - 1, now).count <= d.LimitAt(n - 1) by {
        NothingLimited(t, d, |d.dimensions|, now);
        CountedOnItsTurn(t, d, n, now);
      }
    }
  }

  /** An admitted decision leaves both limiters with the same counters. */
  lemma CountingKeepsAgreement(t: Table, r: Store, d: Decision, now: int)
    requires d.Valid() && t.Valid() && Agree(t, r, now) && Positive(t, now)
    requires Room(t, d, |d.dimensions|, now)
    ensures var after := Counted(t, d, |d.dimensions|, now);
            after.Valid() && Positive(after, now) && Agree(after, CountedIn(r, d, |d.dimensions|, now), now)
  {
    var all := |d.dimensions|;
    var after := Counted(t, d, all, now);
    assert AsExpected(t, after, d, all, now) by {
      CountedWithRoom(t, d, all, now);
    }
    ScriptCounts(t, r, d, all, now);
    forall k
      ensures At(CountedIn(r, d, all, now), k, now) == Lifted(View(after, k, now))
      ensures View(after, k, now).Some? ==> View(after, k, now).value.count >= 1
    {
      assert View(after, k, now) == Expected(t, d, all, now, k);
      assert View(t, k, now).Some? ==> View(t, k, now).value.count >= 1;
    }
  }

  // ----- Waits -----

  const MINUTE := 60_000

  predicate RefusedAt(t: Table, d: Decision, i: nat, now: int)
    requires i < |d.dimensions|
  {
    View(t, d.KeyAt(i), now).Some? && View(t, d.KeyAt(i), now).value.count >= d.LimitAt(i)
  }

  function WaitAt(t: Table, d: Decision, i: nat, now: int): int
    requires i < |d.dimensions| && RefusedAt(t, d, i, now)
  {
    View(t, d.KeyAt(i), now).value.expiresAt - now
  }

  /** The local limiter names the first dimension with the longest wait. */
  lemma {:induction false} LocalNames(t: Table, d: Decision, n: nat, now: int) returns (named: nat)
    requires n <= |d.dimensions| && Limited(t, d, n, now).Some?
    ensures named < n && RefusedAt(t, d, named, now)
    ensures Limited(t, d, n, now) == Some((WaitAt(t, d, named, now), d.dimensions[named].kind))
    ensures forall i :: 0 <= i < n && RefusedAt(t, d, i, now) ==> WaitAt(t, d, i, now) <= WaitAt(t, d, named, now)
    ensures forall i :: 0 <= i < named && RefusedAt(t, d, i, now) ==> WaitAt(t, d, i, now) < WaitAt(t, d, named, now)
  {
    NothingLimited(t, d, n - 1, now);
    if Limited(t, d, n - 1, now) == Limited(t, d, n, now) {
      named := LocalNames(t, d, n - 1, now);
    } else {
      named := n - 1;
      if Limited(t, d, n - 1, now).Some? {
        var earlier := LocalNames(t, d, n - 1, now);
      }
    }
  }

  /** No counter that refuses the decision has more than a minute to go. */
  predicate ShortRefusals(t: Table, d: Decision, now: int) {
    forall i :: 0 <= i < |d.dimensions| && RefusedAt(t, d, i, now) ==> WaitAt(t, d, i, now) <= MINUTE
  }

  lemma ShortRefusalsBound(t: Table, d: Decision, now: int)
    ensures Limited(t, d, |d.dimensions|, now).Some? ==>
              (ShortRefusals(t, d, now) <==> CeilSeconds(Limited(t, d, |d.dimensions|, now).value.0) <= 60)
    ensures Limited(t, d, |d.dimensions|, now).None? ==> ShortRefusals(t, d, now)
  {
    if Limited(t, d, |d.dimensions|, now).Some? {
      var named := LocalNames(t, d, |d.dimensions|, now);
    } else {
      NothingLimited(t, d, |d.dimensions|, now);
    }
  }

  /** Redis answered, with the same verdict and quota, and with the same wait exactly if no refusing
      counter has more than a minute to go: Redis's answer caps the wait, the local one does not. */
  ghost predicate Matches(ours: Answer, theirs: Option<Answer>, short: bool) {
    theirs.Some? && ours.Allowed? == theirs.value.Allowed? && (SameAnswer(ours, theirs.value) <==> short)
  }

  /** Refused, or with room for the counters of this decision. */
  ghost predicate Comparable(t: Table, d: Decision, now: int) {
    d.Valid() && (Limited(t, d, |d.dimensions|, now).Some? || Room(t, d, |d.dimensions|, now))
  }

  /** One request: same verdict, same quota and the same counters afterwards, and the same
      wait exactly when no refusing counter has more than a minute to go. */
  lemma ParityStep(t: Table, r: Store, d: Decision, now: int)
    requires t.Valid() && Agree(t, r, now) && Positive(t, now) && Comparable(t, d, now)
    ensures var (answer, after) := Consumed(t, d, now);
            var (reply, stored) := Script(r, d, now);
            Matches(answer, Interpreted(d, reply), ShortRefusals(t, d, now))
            && after.Valid() && Agree(after, stored, now) && Positive(after, now)
  {
    var all := |d.dimensions|;
    RefusalsAgree(t, r, d, all, now);
    ShortRefusalsBound(t, d, now);
    var scanned := Scanned(t, d, all, now);
    ScannedIsEquivalent(t, d, all, now);
    if Limited(t, d, all, now).None? {
      assert Room(scanned, d, all, now);
      assert Limited(scanned, d, all, now).None? by {
        NothingLimited(t, d, all, now);
        NothingLimited(scanned, d, all, now);
      }
      QuotasAgree(scanned, r, d, all, now);
      BudgetNeverOverrun(scanned, d, all, now);
      CountingKeepsAgreement(scanned, r, d, now);
    }
  }

  // ----- Whole runs -----

  datatype Call = Call(decision: Decision, now: int)

  function LocalRun(t: Table, calls: seq<Call>): (seq<Answer>, Table)
    decreases |calls|
  {
    if calls == [] then ([], t)
    else
      var (answer, after) := Consumed(t, calls[0].decision, calls[0].now);
      var (answers, end) := LocalRun(after, calls[1..]);
      ([answer] + answers, end)
  }

  function RedisRun(r: Store, calls: seq<Call>): (seq<Option<Answer>>, Store)
    decreases |calls|
  {
    if calls == [] then ([], r)
    else
      var (reply, stored) := Script(r, calls[0].decision, calls[0].now);
      var (answers, end) := RedisRun(stored, calls[1..]);
      ([Interpreted(calls[0].decision, reply)] + answers, end)
  }

  /** The clock never steps back and every request is comparable where it arrives. */
  ghost predicate ComparableRun(t: Table, from: int, calls: seq<Call>)
    decreases |calls|
  {
    calls != [] ==>
      && from <= calls[0].now
      && Comparable(t, calls[0].decision, calls[0].now)
      && ComparableRun(Consumed(t, calls[0].decision, calls[0].now).1, calls[0].now, calls[1..])
  }

  /** The local counters that the i-th request finds. */
  function CountersAt(t: Table, calls: seq<Call>, i: nat): Table
    requires i < |calls|
    decreases i
  {
    if i == 0 then t else CountersAt(Consumed(t, calls[0].decision, calls[0].now).1, calls[1..], i - 1)
  }

  predicate ShortRefusalsAt(t: Table, calls: seq<Call>, i: nat)
    requires i < |calls|
  {
    ShortRefusals(CountersAt(t, calls, i), calls[i].decision, calls[i].now)
  }

  lemma {:induction false} Parity(t: Table, r: Store, from: int, calls: seq<Call>)
    requires t.Valid() && Agree(t, r, from) && Positive(t, from) && ComparableRun(t, from, calls)
    ensures var (ours, table) := LocalRun(t, calls);
            var (theirs, store) := RedisRun(r, calls);
            && |ours| == |theirs| == |calls|
            && (forall i :: 0 <= i < |calls| ==> Matches(ours[i], theirs[i], ShortRefusalsAt(t, calls, i)))
            && Agree(table, store, if calls == [] then from else calls[|calls| - 1].now)
    decreases |calls|
  {
    hide LocalLimiter.Consumed, RedisLimiter.Script, RedisLimiter.Interpreted, Matches, ShortRefusals;
    if calls != [] {
      var d, now := calls[0].decision, calls[0].now;
      ViewsOnlyExpire(t, r, from, now);
      ParityStep(t, r, d, now);
      var (answer, after) := Consumed(t, d, now);
      var (reply, stored) := Script(r, d, now);
      var ours, theirs := LocalRun(after, calls[1..]).0, RedisRun(stored, calls[1..]).0;
      Parity(after, stored, now, calls[1..]);
      assert LocalRun(t, calls).0 == [answer] + ours;
      assert RedisRun(r, calls).0 == [Interpreted(d, reply)] + theirs;
      forall i | 0 < i < |calls|
        ensures ShortRefusalsAt(t, calls, i) == ShortRefusalsAt(after, calls[1..], i - 1)
      {
      }
      assert ShortRefusalsAt(t, calls, 0) == ShortRefusals(t, d, now);
    }
  }

  /** Time alone keeps the limiters together. */
  lemma ViewsOnlyExpire(t: Table, r: Store, from: int, now: int)
    requires from <= now && Agree(t, r, from) && Positive(t, from)
    ensures Agree(t, r, now) && Positive(t, now)
  {
    forall k
      ensures At(r, k, now) == Lifted(View(t, k, now))
      ensures View(t, k, now).Some? ==> View(t, k, now).value.count >= 1
    {
      assert At(r, k, from) == Lifted(View(t, k, from));
      assert View(t, k, now).Some? ==> View(t, k, from) == View(t, k, now);
    }
  }

  /** Two fresh limiters agree from the start. */
  lemma FreshLimitersAgree(now: int)
    ensures Agree(Table(map[], []), map[], now) && Positive(Table(map[], []), now)
  {}

  // ----- When waits stay within a minute -----

  ghost predicate ShortWaits(t: Table, now: int) {
    forall k :: View(t, k, now).Some? ==> View(t, k, now).value.expiresAt - now <= MINUTE
  }

  lemma {:induction false} CountingKeepsWaitsShort(t: Table, d: Decision, n: nat, now: int)
    requires n <= |d.dimensions| && t.Valid() && ShortWaits(t, now) && 0 < d.Window() <= MINUTE
    ensures ShortWaits(Counted(t, d, n, now), now)
    decreases n
  {
    if n > 0 {
      CountingKeepsWaitsShort(t, d, n - 1, now);
      var before, key := Counted(t, d, n - 1, now), d.KeyAt(n - 1);
      forall k | View(Bump(before, key, now, d.Window()), k, now).Some?
        ensures View(Bump(before, key, now, d.Window()), k, now).value.expiresAt - now <= MINUTE
      {
        CountedIsValid(t, d, n - 1, now);
        BumpOneView(before, key, now, d.Window(), k);
      }
    }
  }

  lemma {:induction false} MinuteWindowsAreShort(t: Table, from: int, calls: seq<Call>)
    requires t.Valid() && ShortWaits(t, from) && ComparableRun(t, from, calls)
    requires forall i :: 0 <= i < |calls| ==> calls[i].decision.windowSeconds <= 60
    ensures forall i :: 0 <= i < |calls| ==> ShortRefusalsAt(t, calls, i)
    decreases |calls|
  {
    hide LocalLimiter.Bump;
    if calls != [] {
      var d, now := calls[0].decision, calls[0].now;
      var all, scanned := |d.dimensions|, Scanned(t, d, |d.dimensions|, now);
      assert ShortWaits(t, now) by {
        assert forall k :: View(t, k, now).Some? ==> View(t, k, from) == View(t, k, now);
      }
      ScannedIsEquivalent(t, d, all, now);
      assert ShortWaits(scanned, now);
      CountingKeepsWaitsShort(scanned, d, all, now);
      CountedIsValid(scanned, d, all, now);
      var after := Consumed(t, d, now).1;
      MinuteWindowsAreShort(after, now, calls[1..]);
      assert ShortRefusalsAt(t, calls, 0);
      assert forall i :: 0 < i < |calls| ==> ShortRefusalsAt(t, calls, i) == ShortRefusalsAt(after, calls[1..], i - 1);
    }
  }

  /** With windows of at most a minute, all answers of a run agree, waits included. */
  lemma MinuteWindowsAgree(t: Table, r: Store, from: int, calls: seq<Call>)
    requires t.Valid() && Agree(t, r, from) && Positive(t, from) && ComparableRun(t, from, calls)
    requires ShortWaits(t, from) && forall i :: 0 <= i < |calls| ==> calls[i].decision.windowSeconds <= 60
    ensures var ours, theirs := LocalRun(t, calls).0, RedisRun(r, calls).0;
            |ours| == |theirs| == |calls|
            && forall i :: 0 <= i < |calls| ==> theirs[i].Some? && SameAnswer(ours[i], theirs[i].value)
  {
    hide LocalRun, RedisRun, ComparableRun, ShortRefusalsAt, SameAnswer;
    Parity(t, r, from, calls);
    MinuteWindowsAreShort(t, from, calls);
  }

  // ----- Why room is needed -----

  /** The local limiter never holds more counters than its bound. */
  lemma {:induction false} TableStaysBounded(t: Table, d: Decision, n: nat, now: int)
    requires n <= |d.dimensions| && t.Valid() && d.Window() > 0 && |t.entries| <= MAX_COUNTERS
    ensures |Counted(t, d, n, now).entries| <= MAX_COUNTERS
    decreases n
  {
    if n > 0 {
      TableStaysBounded(t, d, n - 1, now);
      CountedIsValid(t, d, n - 1, now);
      BumpStaysBounded(Counted(t, d, n - 1, now), d.KeyAt(n - 1), now, d.Window());
    }
  }

  lemma BumpStaysBounded(t: Table, key: Key, now: int, window: int)
    requires t.Valid() && |t.entries| <= MAX_COUNTERS
    ensures |Bump(t, key, now, window).entries| <= MAX_COUNTERS
  {
    if View(t, key, now).Some? {
      assert Bump(t, key, now, window).entries.Keys == t.entries.Keys;
    } else {
      var dropped := DropIfExpired(t, key, now);
      DroppingShrinks(t.entries, key);
      assert dropped.Valid();
      RoomIsMade(dropped, now);
      var room := MakeRoom(dropped, now);
      assert room.entries[key := Counter(1, now + window)].Keys == room.entries.Keys + {key};
    }
  }

  lemma DroppingShrinks(entries: map<Key, Counter>, key: Key)
    ensures |entries - {key}| <= |entries|
    ensures key in entries ==> |entries - {key}| == |entries| - 1
  {
    assert (entries - {key}).Keys == entries.Keys - {key};
  }

  lemma RoomIsMade(t: Table, now: int)
    requires t.Valid() && |t.entries| <= MAX_COUNTERS
    ensures |MakeRoom(t, now).entries| < MAX_COUNTERS
  {
    if |t.entries| >= MAX_COUNTERS {
      var swept := Sweep(t, now);
      SweepKeepsLive(t, now);
      SweptToValid(t, |t.order|, now);
      SubsetIsSmaller(LiveKeys(t, now), t.entries.Keys);
      if |swept.entries| >= MAX_COUNTERS {
        assert swept.entries != map[];
        var k :| k in swept.entries;
        assert k in swept.order;
        DroppingShrinks(swept.entries, swept.order[0]);
      }
    }
  }

  lemma {:induction false} SubsetIsSmaller(a: set<Key>, b: set<Key>)
    requires a <= b
    ensures |a| <= |b|
  {
    assert b == a + (b - a);
  }

  /** Admitting a decision without room for its counters makes the limiters part: the
      local one must forget a live counter that Redis keeps. */
  lemma WithoutRoomTheyPart(t: Table, r: Store, d: Decision, now: int)
    requires d.Valid() && t.Valid() && Agree(t, r, now) && Positive(t, now) && |t.entries| <= MAX_COUNTERS
    requires Limited(t, d, |d.dimensions|, now).None? && !Room(t, d, |d.dimensions|, now)
    ensures !Agree(Consumed(t, d, now).1, Script(r, d, now).1, now)
  {
    var all := |d.dimensions|;
    var scanned := Scanned(t, d, all, now);
    ScannedIsEquivalent(t, d, all, now);
    ScanningShrinks(t, d, all, now);
    RefusalsAgree(t, r, d, all, now);
    TableStaysBounded(scanned, d, all, now);
    var after, stored := Consumed(t, d, now).1, Script(r, d, now).1;
    if Agree(after, stored, now) {
      ScriptCounts(t, r, d, all, now);
      forall k | k in LiveKeys(t, now) + KeysUpTo(d, all)
        ensures k in after.entries
      {
        assert Expected(t, d, all, now, k).Some?;
        assert At(stored, k, now) == Lifted(View(after, k, now));
      }
      SubsetIsSmaller(LiveKeys(t, now) + KeysUpTo(d, all), after.entries.Keys);
    }
  }

  lemma {:induction false} ScanningShrinks(t: Table, d: Decision, n: nat, now: int)
    requires n <= |d.dimensions|
    ensures |Scanned(t, d, n, now).entries| <= |t.entries|
  {
    if n > 0 {
      hide DropIfExpired, RateLimit.Decision.KeyAt;
      ScanningShrinks(t, d, n - 1, now);
      DropShrinks(Scanned(t, d, n - 1, now), d.KeyAt(n - 1), now);
    }
  }

  lemma DropShrinks(t: Table, key: Key, now: int)
    ensures |DropIfExpired(t, key, now).entries| <= |t.entries|
  {
    DroppingShrinks(t.entries, key);
  }

  // ----- The dimension a refusal names -----

  /** Redis names the last dimension that refuses. */
  lemma {:induction false} RedisNames(t: Table, r: Store, d: Decision, n: nat, now: int)
    requires n <= |d.dimensions| && d.Valid() && Agree(t, r, now) && Rejected(r, d, n, now).0 > 0
    ensures var last := Rejected(r, d, n, now).0 - 1;
            last < n && RefusedAt(t, d, last, now) && forall i :: last < i < n ==> !RefusedAt(t, d, i, now)
  {
    var key := d.KeyAt(n - 1);
    assert At(r, key, now) == Lifted(View(t, key, now));
    if Get(r, key, now) < d.LimitAt(n - 1) {
      RedisNames(t, r, d, n - 1, now);
    }
  }

  /** What the two refusals report is the kind of one dimension each: the local limiter's first with
      the longest wait, Redis's last. They are the same dimension exactly when the last one to refuse
      also has the strictly longest wait. */
  lemma NamesAgreeExactlyWhen(t: Table, r: Store, d: Decision, now: int) returns (ours: nat, theirs: nat)
    requires d.Valid() && Agree(t, r, now) && Positive(t, now) && Consumed(t, d, now).0.Refused?
    ensures ours < |d.dimensions| && theirs < |d.dimensions| && RefusedAt(t, d, ours, now) && RefusedAt(t, d, theirs, now)
    ensures forall i :: 0 <= i < |d.dimensions| && RefusedAt(t, d, i, now) ==>
              i <= theirs && WaitAt(t, d, i, now) <= WaitAt(t, d, ours, now)
              && (i < ours ==> WaitAt(t, d, i, now) < WaitAt(t, d, ours, now))
    ensures Consumed(t, d, now).0.limitedDimension == d.dimensions[ours].kind
    ensures var answer := Interpreted(d, Script(r, d, now).0);
            answer.Some? && answer.value.Refused? && answer.value.limitedDimension == d.dimensions[theirs].kind
    ensures ours == theirs <==>
              forall i :: 0 <= i < |d.dimensions| && i != theirs && RefusedAt(t, d, i, now) ==>
                WaitAt(t, d, i, now) < WaitAt(t, d, theirs, now)
  {
    var all := |d.dimensions|;
    ours := LocalNames(t, d, all, now);
    RefusalsAgree(t, r, d, all, now);
    RedisNames(t, r, d, all, now);
    theirs := Rejected(r, d, all, now).0 - 1;
  }

  /** So they can differ: a client that waits a minute and an account that waits half of one. */
  lemma NamesCanDiffer()
    ensures exists t: Table, r: Store, d: Decision ::
              t.Valid() && d.Valid() && Agree(t, r, 0) && Positive(t, 0)
              && Consumed(t, d, 0).0 == Refused(60, ClientAddress)
              && Interpreted(d, Script(r, d, 0).0) == Some(Refused(60, Account))
  {
    var d := Decision("identity_start", 60, [Dimension(ClientAddress, "a", 1), Dimension(Account, "x", 1)]);
    var client, account := d.KeyAt(0), d.KeyAt(1);
    var t := Table(map[client := Counter(1, 60_000), account := Counter(1, 30_000)], [client, account]);
    var r: Store := map[client := Entry(1, Some(60_000)), account := Entry(1, Some(30_000))];
    assert Rejected(r, d, 1, 0) == (1, 60_000);
    assert Rejected(r, d, 2, 0) == (2, 60_000);
    assert Limited(t, d, 1, 0) == Some((60_000, ClientAddress));
    assert Limited(t, d, 2, 0) == Some((60_000, ClientAddress));
    assert Agree(t, r, 0);
    assert Consumed(t, d, 0).0 == Refused(60, ClientAddress);
    assert Interpreted(d, Script(r, d, 0).0) == Some(Refused(60, Account));
  }
}
