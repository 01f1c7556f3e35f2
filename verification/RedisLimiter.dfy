/** The Redis-backed limiter (packages/rate-limit/src/distributed-rate-limiter.ts). The store
    is a map of counters, each live while the clock is before its expiry. */
module RedisLimiter {
  import opened Wrappers
  import opened RateLimit

  /** A key that was never given a lifetime does not expire. */
  datatype Entry = Entry(count: int, expiry: Option<int>)

  type Store = map<Key, Entry>

  function At(r: Store, k: Key, now: int): Option<Entry> {
    if k in r && (r[k].expiry.None? || now < r[k].expiry.value) then Some(r[k]) else None
  }

  function Get(r: Store, k: Key, now: int): int {
    match At(r, k, now)
    case Some(e) => e.count
    case None => 0
  }

  /** PTTL: -2 for a missing key, -1 for one without a lifetime. */
  function Pttl(r: Store, k: Key, now: int): int {
    match At(r, k, now)
    case Some(e) => if e.expiry.Some? then e.expiry.value - now else -1
    case None => -2
  }

  function Incr(r: Store, k: Key, now: int): Store {
    match At(r, k, now)
    case Some(e) => r[k := Entry(e.count + 1, e.expiry)]
    case None => r[k := Entry(1, None)]
  }

  function PExpire(r: Store, k: Key, millis: int, now: int): Store
    requires k in r
  {
    r[k := Entry(r[k].count, Some(now + millis))]
  }

  /** One round of the script's second loop. */
  function IncrAndExpire(r: Store, k: Key, now: int, window: int): Store {
    var counted := Incr(r, k, now);
    if counted[k].count == 1 then PExpire(counted, k, window, now) else counted
  }

  // ----- CONSUME_SCRIPT, by its two loops after n keys -----

  /** The last rejected index, counted from 1, and the longest wait. */
  function Rejected(r: Store, d: Decision, n: nat, now: int): (nat, int)
    requires n <= |d.dimensions|
  {
    if n == 0 then (0, 0)
    else
      var (index, retry) := Rejected(r, d, n - 1, now);
      if Get(r, d.KeyAt(n - 1), now) < d.LimitAt(n - 1) then (index, retry)
      else
        var ttl := Pttl(r, d.KeyAt(n - 1), now);
        (n, Max(if ttl < 1 then d.Window() else ttl, retry))
  }

  function CountedIn(r: Store, d: Decision, n: nat, now: int): Store
    requires n <= |d.dimensions|
  {
    if n == 0 then r else IncrAndExpire(CountedIn(r, d, n - 1, now), d.KeyAt(n - 1), now, d.Window())
  }

  /** remaining, tightest and reset_ms. */
  datatype Budget = Budget(remaining: int, tightest: int, resetMillis: int)

  function TighterBudget(best: Option<Budget>, limit: int, count: int, ttl: int): Option<Budget> {
    if best.None? || limit - count < best.value.remaining then Some(Budget(limit - count, limit, ttl)) else best
  }

  function TightestBudget(r: Store, d: Decision, n: nat, now: int): Option<Budget>
    requires n <= |d.dimensions|
  {
    if n == 0 then None
    else
      var counted, key := CountedIn(r, d, n, now), d.KeyAt(n - 1);
      TighterBudget(TightestBudget(r, d, n - 1, now), d.LimitAt(n - 1), Get(counted, key, now), Pttl(counted, key, now))
  }

  datatype Reply = Reply(allowed: int, retryMillis: int, limitedIndex: nat, budget: Option<Budget>)

  function Script(r: Store, d: Decision, now: int): (Reply, Store) {
    var all := |d.dimensions|;
    var (index, retry) := Rejected(r, d, all, now);
    if index > 0 then (Reply(0, retry, index, None), r)
    else (Reply(1, 0, 0, TightestBudget(r, d, all, now)), CountedIn(r, d, all, now))
  }

  /** How consume reads the reply; None stands for the error it throws. */
  function Interpreted(d: Decision, reply: Reply): Option<Answer> {
    if reply.allowed == 1 && reply.retryMillis == 0 && reply.limitedIndex == 0 && reply.budget.Some? then
      var b := reply.budget.value;
      Some(Allowed(Some(Quota(b.tightest, Max(0, b.remaining), Max(1, CeilSeconds(b.resetMillis))))))
    else if reply.allowed != 0 || reply.retryMillis < 0 || !(1 <= reply.limitedIndex <= |d.dimensions|) then None
    else Some(Refused(Min(60, Max(1, CeilSeconds(reply.retryMillis))), d.dimensions[reply.limitedIndex - 1].kind))
  }

  class Redis {
    var store: Store

    constructor ()
      ensures store == map[]
    {
      store := map[];
    }

    /** Redis runs a script without interleaving it with other commands. */
    method EvalConsume(d: Decision, now: int) returns (reply: Reply)
      requires d.Window() > 0
      modifies this
      ensures (reply, store) == Script(old(store), d, now)
    {
      var rejectedIndex, retryMillis := 0, 0;
      for index := 0 to |d.dimensions|
        invariant store == old(store)
        invariant (rejectedIndex, retryMillis) == Rejected(store, d, index, now)
      {
        var key := d.KeyAt(index);
        if Get(store, key, now) >= d.dimensions[index].limit {
          rejectedIndex := index + 1;
          var ttl := Pttl(store, key, now);
          if ttl < 1 {
            ttl := d.Window();
          }
          if ttl > retryMillis {
            retryMillis := ttl;
          }
        }
      }
      if rejectedIndex > 0 {
        return Reply(0, retryMillis, rejectedIndex, None);
      }
      var budget: Option<Budget> := None;
      for index := 0 to |d.dimensions|
        invariant store == CountedIn(old(store), d, index, now)
        invariant budget == TightestBudget(old(store), d, index, now)
      {
        var key := d.KeyAt(index);
        store := Incr(store, key, now);
        if store[key].count == 1 {
          store := PExpire(store, key, d.Window(), now);
        }
        var limit := d.dimensions[index].limit;
        budget := TighterBudget(budget, limit, Get(store, key, now), Pttl(store, key, now));
      }
      return Reply(1, 0, 0, budget);
    }
  }

  class DistributedRateLimiter {
    const redis: Redis

    constructor (redis: Redis)
      ensures this.redis == redis
    {
      this.redis := redis;
    }

    method Consume(d: Decision, now: int) returns (answer: Option<Answer>)
      modifies redis
      ensures !d.Valid() ==> answer == None && redis.store == old(redis.store)
      ensures d.Valid() ==> var (reply, store) := Script(old(redis.store), d, now);
                            redis.store == store && answer == Interpreted(d, reply)
    {
      var ok := AssertDecision(d);
      if !ok {
        return None;
      }
      var reply := redis.EvalConsume(d, now);
      return Interpreted(d, reply);
    }
  }
}
