/** The limiter used while Redis is out (packages/rate-limit/src/local-rate-limiter.ts). */
module LocalLimiter {
  import opened Wrappers
  import opened RateLimit

  const MAX_COUNTERS := 50_000

  /** A JavaScript Map: its entries and the order they were inserted in. */
  datatype Table = Table(entries: map<Key, Counter>, order: seq<Key>) {
    ghost predicate Valid() {
      forall k :: k in entries <==> k in order
    }
  }

  function Without(order: seq<Key>, k: Key): (rest: seq<Key>)
    ensures forall x :: x in rest <==> x in order && x != k
  {
    if order == [] then []
    else if order[0] == k then Without(order[1..], k)
    else [order[0]] + Without(order[1..], k)
  }

  function Delete(t: Table, k: Key): Table { Table(t.entries - {k}, Without(t.order, k)) }

  /** The counter as the limiter sees it at this moment. */
  function View(t: Table, k: Key, now: int): Option<Counter> {
    if k in t.entries && t.entries[k].expiresAt > now then Some(t.entries[k]) else None
  }

  /** live() deletes an expired counter it comes across. */
  function DropIfExpired(t: Table, k: Key, now: int): Table {
    if k in t.entries && t.entries[k].expiresAt <= now then Delete(t, k) else t
  }

  function LiveKeys(t: Table, now: int): set<Key> { set k | k in t.entries && t.entries[k].expiresAt > now }

  /** The sweep over the first i counters of the table's own order. */
  function SweptTo(t: Table, i: nat, now: int): Table
    requires i <= |t.order|
  {
    if i == 0 then t else DropIfExpired(SweptTo(t, i - 1, now), t.order[i - 1], now)
  }

  function Sweep(t: Table, now: int): Table { SweptTo(t, |t.order|, now) }

  /** makeRoom: sweep what expired; if that is not enough, forget the oldest counter. */
  function MakeRoom(t: Table, now: int): Table {
    if |t.entries| < MAX_COUNTERS then t
    else
      var swept := Sweep(t, now);
      if |swept.entries| < MAX_COUNTERS || swept.order == [] then swept else Delete(swept, swept.order[0])
  }

  function Bump(t: Table, k: Key, now: int, window: int): Table {
    match View(t, k, now)
    case Some(c) => t.(entries := t.entries[k := Counter(c.count + 1, c.expiresAt)])
    case None =>
      var room := MakeRoom(DropIfExpired(t, k, now), now);
      Table(room.entries[k := Counter(1, now + window)], room.order + [k])
  }

  // ----- consume, by its two loops after n dimensions -----

  function Scanned(t: Table, d: Decision, n: nat, now: int): Table
    requires n <= |d.dimensions|
  {
    if n == 0 then t else DropIfExpired(Scanned(t, d, n - 1, now), d.KeyAt(n - 1), now)
  }

  /** The longest wait so far and the first dimension that asks for it. */
  function Limited(t: Table, d: Decision, n: nat, now: int): Option<(int, DimensionKind)>
    requires n <= |d.dimensions|
  {
    if n == 0 then None
    else
      var before := Limited(t, d, n - 1, now);
      match View(t, d.KeyAt(n - 1), now)
      case Some(c) =>
        if c.count >= d.LimitAt(n - 1) && (before.None? || c.expiresAt - now > before.value.0)
        then Some((c.expiresAt - now, d.dimensions[n - 1].kind))
        else before
      case None => before
  }

  function Counted(t: Table, d: Decision, n: nat, now: int): Table
    requires n <= |d.dimensions|
  {
    if n == 0 then t else Bump(Counted(t, d, n - 1, now), d.KeyAt(n - 1), now, d.Window())
  }

  function CounterAfter(t: Table, k: Key, now: int, window: int): Counter {
    match View(t, k, now)
    case Some(c) => Counter(c.count + 1, c.expiresAt)
    case None => Counter(1, now + window)
  }

  /** The quota to report, given the best one so far and the next dimension's counter. */
  function Tighter(best: Option<Quota>, limit: int, c: Counter, now: int): Option<Quota> {
    if best.None? || limit - c.count < best.value.remaining
    then Some(Quota(limit, limit - c.count, Max(1, CeilSeconds(c.expiresAt - now))))
    else best
  }

  /** The first dimension with the least remaining budget. */
  function Tightest(t: Table, d: Decision, n: nat, now: int): Option<Quota>
    requires n <= |d.dimensions|
  {
    if n == 0 then None
    else Tighter(Tightest(t, d, n - 1, now), d.LimitAt(n - 1), CounterAt(t, d, n - 1, now), now)
  }

  /** The counter that dimension n reads back right after counting itself. */
  function CounterAt(t: Table, d: Decision, n: nat, now: int): Counter
    requires n < |d.dimensions|
  {
    CounterAfter(Counted(t, d, n, now), d.KeyAt(n), now, d.Window())
  }

  function Consumed(t: Table, d: Decision, now: int): (Answer, Table) {
    var all := |d.dimensions|;
    var scanned := Scanned(t, d, all, now);
    match Limited(t, d, all, now)
    case Some((retryMillis, kind)) => (Refused(CeilSeconds(retryMillis), kind), scanned)
    case None => (Allowed(Tightest(scanned, d, all, now)), Counted(scanned, d, all, now))
  }

  // ----- The class -----

  class LocalRateLimiter {
    var counters: map<Key, Counter>
    var order: seq<Key>

    constructor ()
      ensures Contents() == Table(map[], []) && Contents().Valid()
    {
      counters, order := map[], [];
    }

    function Contents(): Table
      reads this
    {
      Table(counters, order)
    }

    method Remove(k: Key)
      requires Contents().Valid()
      modifies this
      ensures Contents() == Delete(old(Contents()), k) && Contents().Valid()
    {
      counters := counters - {k};
      order := Without(order, k);
    }

    method Live(k: Key, now: int) returns (counter: Option<Counter>)
      requires Contents().Valid()
      modifies this
      ensures Contents() == DropIfExpired(old(Contents()), k, now) && Contents().Valid()
      ensures counter == View(old(Contents()), k, now)
      ensures counter.Some? <==> k in LiveKeys(old(Contents()), now)
      ensures LiveKeys(Contents(), now) == LiveKeys(old(Contents()), now) && counter.Some? == (k in counters)
      ensures forall j :: View(Contents(), j, now) == View(old(Contents()), j, now)
    {
      if k !in counters || counters[k].expiresAt > now {
        return if k in counters then Some(counters[k]) else None;
      }
      Remove(k);
      return None;
    }

    /** The loop over all counters that frees the expired ones. */
    method SweepExpired(now: int)
      requires Contents().Valid()
      modifies this
      ensures Contents() == Sweep(old(Contents()), now) && Contents().Valid()
    {
      ghost var before := Contents();
      var snapshot := order;
      for i := 0 to |snapshot|
        invariant Contents() == SweptTo(before, i, now) && Contents().Valid()
      {
        var key := snapshot[i];
        if key in counters && counters[key].expiresAt <= now {
          Remove(key);
        }
      }
    }

    method Evict(now: int)
      requires Contents().Valid()
      modifies this
      ensures Contents() == MakeRoom(old(Contents()), now) && Contents().Valid()
    {
      if |counters| < MAX_COUNTERS {
        return;
      }
      SweepExpired(now);
      if |counters| < MAX_COUNTERS || order == [] {
        return;
      }
      Remove(order[0]);
    }

    method Consume(d: Decision, now: int) returns (answer: Answer)
      requires Contents().Valid()
      modifies this
      ensures (answer, Contents()) == Consumed(old(Contents()), d, now)
      ensures Contents().Valid()
    {
      var limited := FindLimited(d, now);
      if limited.Some? {
        return Refused(CeilSeconds(limited.value.0), limited.value.1);
      }
      var quota := CountAll(d, now);
      return Allowed(quota);
    }

    /** The first loop: nothing is counted before every dimension has been asked. */
    method FindLimited(d: Decision, now: int) returns (limited: Option<(int, DimensionKind)>)
      requires Contents().Valid()
      modifies this
      ensures Contents() == Scanned(old(Contents()), d, |d.dimensions|, now) && Contents().Valid()
      ensures limited == Limited(old(Contents()), d, |d.dimensions|, now)
    {
      ghost var before := Contents();
      limited := None;
      for i := 0 to |d.dimensions|
        invariant Contents() == Scanned(before, d, i, now) && Contents().Valid()
        invariant limited == Limited(before, d, i, now)
      {
        ScanningKeepsViews(before, d, i, now);
        var counter := Live(d.KeyAt(i), now);
        if counter.None? || counter.value.count < d.dimensions[i].limit {
          continue;
        }
        var retryMillis := counter.value.expiresAt - now;
        if limited.None? || retryMillis > limited.value.0 {
          limited := Some((retryMillis, d.dimensions[i].kind));
        }
      }
    }

    /** The second loop. */
    method CountAll(d: Decision, now: int) returns (quota: Option<Quota>)
      requires Contents().Valid()
      modifies this
      ensures Contents() == Counted(old(Contents()), d, |d.dimensions|, now) && Contents().Valid()
      ensures quota == Tightest(old(Contents()), d, |d.dimensions|, now)
    {
      ghost var before := Contents();
      quota := None;
      for i := 0 to |d.dimensions|
        invariant Contents() == Counted(before, d, i, now) && Contents().Valid()
        invariant quota == Tightest(before, d, i, now)
      {
        var counter := Count(d.KeyAt(i), now, d.Window());
        quota := Tighter(quota, d.dimensions[i].limit, counter, now);
      }
    }

    method Count(key: Key, now: int, window: int) returns (counter: Counter)
      requires Contents().Valid()
      modifies this
      ensures Contents() == Bump(old(Contents()), key, now, window) && Contents().Valid()
      ensures counter == CounterAfter(old(Contents()), key, now, window)
    {
      ghost var before := Contents();
      var found := Live(key, now);
      if found.None? {
        Evict(now);
        assert key !in counters by { RoomForNew(DropIfExpired(before, key, now), key, now); }
        counter := Counter(1, now + window);
        counters := counters[key := counter];
        order := order + [key];
      } else {
        counter := Counter(found.value.count + 1, found.value.expiresAt);
        counters := counters[key := counter];
      }
    }
  }

  // ----- Facts about the table -----

  lemma {:induction false} SweptToEntries(t: Table, i: nat, now: int)
    requires t.Valid() && i <= |t.order|
    ensures forall k :: k in SweptTo(t, i, now).entries <==> k in t.entries && (View(t, k, now).Some? || k !in t.order[..i])
    ensures forall k :: k in SweptTo(t, i, now).entries ==> SweptTo(t, i, now).entries[k] == t.entries[k]
    decreases i
  {
    if i > 0 {
      SweptToEntries(t, i - 1, now);
      assert t.order[..i] == t.order[..i - 1] + [t.order[i - 1]];
    }
  }

  /** After a sweep exactly the live counters are left. */
  lemma SweepKeepsLive(t: Table, now: int)
    requires t.Valid()
    ensures Sweep(t, now).entries.Keys == LiveKeys(t, now)
    ensures forall k :: k in LiveKeys(t, now) ==> Sweep(t, now).entries[k] == t.entries[k]
  {
    SweptToEntries(t, |t.order|, now);
    assert t.order[..|t.order|] == t.order;
  }

  lemma ScanningKeepsViews(t: Table, d: Decision, n: nat, now: int)
    requires n <= |d.dimensions|
    ensures forall k :: View(Scanned(t, d, n, now), k, now) == View(t, k, now)
  {}

  /** Making room adds nothing, and a counter that stays is unchanged. */
  lemma RoomForNew(t: Table, key: Key, now: int)
    requires t.Valid()
    ensures key !in t.entries ==> key !in MakeRoom(t, now).entries
    ensures forall k :: k in MakeRoom(t, now).entries ==> k in t.entries && MakeRoom(t, now).entries[k] == t.entries[k]
    ensures MakeRoom(t, now).Valid()
  {
    SweptToEntries(t, |t.order|, now);
    SweptToValid(t, |t.order|, now);
  }

  /** Where everything is live, making room forgets the counter that was inserted first. */
  lemma ForgetsTheOldest(t: Table, now: int)
    requires t.Valid() && |t.entries| >= MAX_COUNTERS && LiveKeys(t, now) == t.entries.Keys
    ensures t.order != []
    ensures MakeRoom(t, now).entries.Keys == t.entries.Keys - {t.order[0]}
    ensures forall k :: k in MakeRoom(t, now).entries ==> MakeRoom(t, now).entries[k] == t.entries[k]
    ensures MakeRoom(t, now).order == Without(t.order, t.order[0])
  {
    EntriesMeanOrder(t);
    SweepOfLive(t, |t.order|, now);
  }

  lemma EntriesMeanOrder(t: Table)
    requires t.Valid() && |t.entries| > 0
    ensures t.order != []
  {
    assert t.entries.Keys != {};
    var k :| k in t.entries;
  }

  lemma {:induction false} SweepOfLive(t: Table, i: nat, now: int)
    requires t.Valid() && i <= |t.order| && LiveKeys(t, now) == t.entries.Keys
    ensures SweptTo(t, i, now) == t
    decreases i
  {
    if i > 0 {
      SweepOfLive(t, i - 1, now);
      assert t.order[i - 1] in t.order;
      assert t.order[i - 1] in LiveKeys(t, now);
    }
  }

  /** The table's order is that of insertion: a new counter comes last, a counted one keeps its place. */
  lemma NewestIsLast(t: Table, key: Key, now: int, window: int)
    requires t.Valid() && window > 0
    ensures View(t, key, now).Some? ==> Bump(t, key, now, window).order == t.order
    ensures View(t, key, now).None? ==>
              Bump(t, key, now, window).order == MakeRoom(DropIfExpired(t, key, now), now).order + [key]
              && key !in MakeRoom(DropIfExpired(t, key, now), now).order
  {
    if View(t, key, now).None? {
      RoomForNew(DropIfExpired(t, key, now), key, now);
    }
  }

  lemma {:induction false} SweptToValid(t: Table, i: nat, now: int)
    requires t.Valid() && i <= |t.order|
    ensures SweptTo(t, i, now).Valid()
    decreases i
  {
    if i > 0 {
      SweptToValid(t, i - 1, now);
    }
  }

  // ----- What counting does to what the limiter sees -----

  /** A counter forgotten to make room is the only one besides its own that a count can change. */
  lemma BumpViews(t: Table, key: Key, now: int, window: int)
    requires t.Valid() && window > 0
    ensures Bump(t, key, now, window).Valid()
    ensures View(Bump(t, key, now, window), key, now) == Some(CounterAfter(t, key, now, window))
    ensures forall k :: k != key ==> View(Bump(t, key, now, window), k, now) in {View(t, k, now), None}
    ensures View(t, key, now).Some? || |LiveKeys(t, now)| < MAX_COUNTERS ==>
              forall k :: k != key ==> View(Bump(t, key, now, window), k, now) == View(t, k, now)
  {
    if View(t, key, now).None? {
      var dropped := DropIfExpired(t, key, now);
      assert dropped.Valid();
      RoomForNew(dropped, key, now);
      SweepKeepsLive(dropped, now);
      assert LiveKeys(dropped, now) == LiveKeys(t, now);
      if |LiveKeys(t, now)| < MAX_COUNTERS {
        forall k | k != key
          ensures View(Bump(t, key, now, window), k, now) == View(t, k, now)
        {
          assert k in LiveKeys(dropped, now) <==> View(t, k, now).Some?;
        }
      }
    }
  }

  /** The same for one counter. */
  lemma BumpOneView(t: Table, key: Key, now: int, window: int, k: Key)
    requires t.Valid() && window > 0
    ensures var after := View(Bump(t, key, now, window), k, now);
            if k == key then after == Some(CounterAfter(t, key, now, window)) else after.Some? ==> after == View(t, k, now)
  {
    BumpViews(t, key, now, window);
  }

  function KeysUpTo(d: Decision, n: nat): set<Key>
    requires n <= |d.dimensions|
  {
    set i | 0 <= i < n :: d.KeyAt(i)
  }

  /** Fixed-window counting of the first n dimensions, with no eviction in sight. */
  function Expected(t: Table, d: Decision, n: nat, now: int, k: Key): Option<Counter>
    requires n <= |d.dimensions|
  {
    if k in KeysUpTo(d, n) then Some(CounterAfter(t, k, now, d.Window())) else View(t, k, now)
  }

  lemma KeysUpToStep(d: Decision, n: nat)
    requires 0 < n <= |d.dimensions|
    ensures KeysUpTo(d, n) == KeysUpTo(d, n - 1) + {d.KeyAt(n - 1)}
    ensures d.DistinctKeys() ==> d.KeyAt(n - 1) !in KeysUpTo(d, n - 1)
  {}

  lemma {:induction false} CountedIsValid(t: Table, d: Decision, n: nat, now: int)
    requires t.Valid() && d.Window() > 0 && n <= |d.dimensions|
    ensures Counted(t, d, n, now).Valid()
  {
    if n > 0 {
      CountedIsValid(t, d, n - 1, now);
      BumpViews(Counted(t, d, n - 1, now), d.KeyAt(n - 1), now, d.Window());
    }
  }

  /** This decision never makes the limiter forget the live counter k, not even midway. */
  ghost predicate Remembers(t: Table, d: Decision, now: int, k: Key) {
    forall n :: 0 <= n <= |d.dimensions| && Expected(t, d, n, now, k).Some? ==> View(Counted(t, d, n, now), k, now).Some?
  }

  lemma {:induction false} CountedWhenRemembered(t: Table, d: Decision, n: nat, now: int, k: Key)
    requires t.Valid() && d.DistinctKeys() && d.Window() > 0 && n <= |d.dimensions| && Remembers(t, d, now, k)
    ensures View(Counted(t, d, n, now), k, now) == Expected(t, d, n, now, k)
  {
    if n > 0 {
      var before, key := Counted(t, d, n - 1, now), d.KeyAt(n - 1);
      CountedWhenRemembered(t, d, n - 1, now, k);
      CountedIsValid(t, d, n - 1, now);
      BumpOneView(before, key, now, d.Window(), k);
      KeysUpToStep(d, n);
    }
  }

  lemma BumpLiveKeys(t: Table, key: Key, now: int, window: int)
    requires t.Valid() && window > 0 && (View(t, key, now).Some? || |LiveKeys(t, now)| < MAX_COUNTERS)
    ensures LiveKeys(Bump(t, key, now, window), now) == LiveKeys(t, now) + {key}
  {
    BumpViews(t, key, now, window);
    forall k
      ensures k in LiveKeys(Bump(t, key, now, window), now) <==> k in LiveKeys(t, now) + {key}
    {
      assert k in LiveKeys(Bump(t, key, now, window), now) <==> View(Bump(t, key, now, window), k, now).Some?;
    }
  }

  lemma OneMore(some: set<Key>, key: Key)
    ensures |some| <= |some + {key}|
    ensures key !in some ==> |some + {key}| == |some| + 1
  {
    if key in some {
      assert some + {key} == some;
    }
  }

  lemma BumpWithRoom(t: Table, key: Key, now: int, window: int)
    requires t.Valid() && window > 0 && |LiveKeys(t, now) + {key}| <= MAX_COUNTERS
    ensures LiveKeys(Bump(t, key, now, window), now) == LiveKeys(t, now) + {key}
    ensures forall k :: k != key ==> View(Bump(t, key, now, window), k, now) == View(t, k, now)
  {
    OneMore(LiveKeys(t, now), key);
    BumpLiveKeys(t, key, now, window);
    BumpViews(t, key, now, window);
  }

  /** Counting the first n dimensions did exactly what a fixed window asks for. */
  ghost predicate AsExpected(t: Table, after: Table, d: Decision, n: nat, now: int)
    requires n <= |d.dimensions|
  {
    after.Valid() && LiveKeys(after, now) == LiveKeys(t, now) + KeysUpTo(d, n)
    && forall k :: View(after, k, now) == Expected(t, d, n, now, k)
  }

  ghost predicate Room(t: Table, d: Decision, n: nat, now: int)
    requires n <= |d.dimensions|
  {
    |LiveKeys(t, now) + KeysUpTo(d, n)| <= MAX_COUNTERS
  }

  /** As long as all live counters fit, counting forgets none of them. */
  lemma {:induction false} CountedWithRoom(t: Table, d: Decision, n: nat, now: int)
    requires t.Valid() && d.DistinctKeys() && d.Window() > 0 && n <= |d.dimensions| && Room(t, d, n, now)
    ensures AsExpected(t, Counted(t, d, n, now), d, n, now)
    decreases n
  {
    if n == 0 {
      assert LiveKeys(t, now) + KeysUpTo(d, 0) == LiveKeys(t, now);
    } else {
      assert Room(t, d, n - 1, now) by {
        RoomForFewer(LiveKeys(t, now), d, n);
      }
      CountedWithRoom(t, d, n - 1, now);
      BumpExpected(t, Counted(t, d, n - 1, now), d, n, now);
    }
  }

  lemma RoomForFewer(live: set<Key>, d: Decision, n: nat)
    requires 0 < n <= |d.dimensions|
    ensures live + KeysUpTo(d, n) == live + KeysUpTo(d, n - 1) + {d.KeyAt(n - 1)}
    ensures |live + KeysUpTo(d, n - 1)| <= |live + KeysUpTo(d, n)|
  {
    KeysUpToStep(d, n);
    assert live + KeysUpTo(d, n) == live + KeysUpTo(d, n - 1) + {d.KeyAt(n - 1)};
    OneMore(live + KeysUpTo(d, n - 1), d.KeyAt(n - 1));
  }

  lemma BumpExpected(t: Table, before: Table, d: Decision, n: nat, now: int)
    requires 0 < n <= |d.dimensions| && d.DistinctKeys() && d.Window() > 0
    requires AsExpected(t, before, d, n - 1, now) && Room(t, d, n, now)
    ensures AsExpected(t, Bump(before, d.KeyAt(n - 1), now, d.Window()), d, n, now)
  {
    var after := Bump(before, d.KeyAt(n - 1), now, d.Window());
    RoomForFewer(LiveKeys(t, now), d, n);
    BumpWithRoom(before, d.KeyAt(n - 1), now, d.Window());
    BumpViews(before, d.KeyAt(n - 1), now, d.Window());
    ExpectedAfterBump(t, before, after, d, n, now);
  }

  lemma ExpectedAfterBump(t: Table, before: Table, after: Table, d: Decision, n: nat, now: int)
    requires 0 < n <= |d.dimensions| && d.DistinctKeys()
    requires forall k :: View(before, k, now) == Expected(t, d, n - 1, now, k)
    requires View(after, d.KeyAt(n - 1), now) == Some(CounterAfter(before, d.KeyAt(n - 1), now, d.Window()))
    requires forall k :: k != d.KeyAt(n - 1) ==> View(after, k, now) == View(before, k, now)
    ensures forall k :: View(after, k, now) == Expected(t, d, n, now, k)
  {
    KeysUpToStep(d, n);
  }
}
