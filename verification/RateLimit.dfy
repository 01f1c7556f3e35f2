/** Rate-limit decisions and answers shared by the two limiters
    (packages/rate-limit/src/policy.ts, distributed-rate-limiter.ts). */
module RateLimit {
  import opened Wrappers

  datatype DimensionKind = ClientAddress | Account | Actor | Workspace | Connection | Token | Form

  datatype Dimension = Dimension(kind: DimensionKind, identifier: string, limit: int)

  datatype Decision = Decision(endpointClass: string, windowSeconds: int, dimensions: seq<Dimension>) {
    function Window(): int { windowSeconds * 1000 }

    function KeyAt(i: nat): Key
      requires i < |dimensions|
    {
      Key(endpointClass, dimensions[i].kind, dimensions[i].identifier)
    }

    function LimitAt(i: nat): int
      requires i < |dimensions|
    {
      dimensions[i].limit
    }

    predicate DistinctKeys() {
      forall i, j :: 0 <= i < j < |dimensions| ==> KeyAt(i) != KeyAt(j)
    }

    /** What assertDecision demands of windows, limits and dimensions. */
    predicate Valid() {
      windowSeconds > 0 && dimensions != [] && DistinctKeys()
      && forall i :: 0 <= i < |dimensions| ==> LimitAt(i) > 0
    }

    function Keys(): set<Key> { set i | 0 <= i < |dimensions| :: KeyAt(i) }
  }

  /** One counter's name. Class and kind are fixed words, so the joined text and its
      digest identify the triple. */
  datatype Key = Key(endpointClass: string, kind: DimensionKind, identifier: string)

  datatype Quota = Quota(limit: int, remaining: int, resetSeconds: int)

  datatype Answer =
    | Allowed(quota: Option<Quota>)
    | Refused(retryAfterSeconds: int, limitedDimension: DimensionKind)

  datatype Counter = Counter(count: int, expiresAt: int)

  /** Math.ceil(millis / 1_000). */
  function CeilSeconds(millis: int): int { (millis + 999) / 1000 }

  function Max(a: int, b: int): int { if a > b then a else b }

  function Min(a: int, b: int): int { if a < b then a else b }

  /** assertDecision, which refuses a decision before Redis is asked. */
  method AssertDecision(d: Decision) returns (ok: bool)
    ensures ok <==> d.Valid()
  {
    if d.windowSeconds <= 0 || |d.dimensions| == 0 {
      return false;
    }
    var keys: set<Key> := {};
    for i := 0 to |d.dimensions|
      invariant forall j :: 0 <= j < i ==> d.LimitAt(j) > 0
      invariant forall j, k :: 0 <= j < k < i ==> d.KeyAt(j) != d.KeyAt(k)
      invariant keys == set j | 0 <= j < i :: d.KeyAt(j)
    {
      if d.dimensions[i].limit <= 0 {
        assert d.LimitAt(i) <= 0;
        return false;
      }
      if d.KeyAt(i) in keys {
        return false;
      }
      keys := keys + {d.KeyAt(i)};
    }
    return true;
  }
}
