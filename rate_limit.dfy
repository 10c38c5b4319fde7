/**
 * The fixed-window request counter kept in Redis, and the guard that builds
 * its key from the client address and the route, picks the limit and the
 * window, and refuses a request over the limit with 429.
 */
module RateLimit {
  import opened Results
  import opened Text

  /** The Redis strings the limiter uses, with each key's time to live in seconds. */
  class KeyValueStore {
    var values: map<string, string>
    var ttl: map<string, int>

    constructor ()
      ensures values == map[] && ttl == map[]
    {
      values := map[];
      ttl := map[];
    }

    /** `set(key, value, seconds)`: the value is stored and its time to live reset. */
    method Set(key: string, value: string, seconds: int)
      modifies this
      ensures values == old(values)[key := value]
      ensures ttl == old(ttl)[key := seconds]
    {
      values := values[key := value];
      ttl := ttl[key := seconds];
    }

    /** The key's time to live runs out. */
    method Expire(key: string)
      modifies this
      ensures values == old(values) - {key}
      ensures ttl == old(ttl) - {key}
    {
      values := values - {key};
      ttl := ttl - {key};
    }
  }

  /** `get(key)` as the code tests it: None when the key is absent or its value is the empty string. */
  function Current(values: map<string, string>, key: string): Option<string>
  {
    if key in values && values[key] != "" then Some(values[key]) else None
  }

  /** Whether the call is refused, and the value it stores (with the window as time to live). */
  datatype Decision = Decision(limited: bool, write: Option<string>)

  /**
   * `isRateLimited`: an absent count starts at "1"; a count at or over the
   * limit refuses and writes nothing; otherwise the count goes up by one. A
   * value parseInt reads as NaN is neither limited nor counted: "NaN" is
   * stored back.
   */
  function Decide(current: Option<string>, limit: int): (d: Decision)
    ensures d.limited <==> d.write.None?
  {
    if current.None? then Decision(false, Some("1"))
    else match ParseInt(current.value)
      case None => Decision(false, Some("NaN"))
      case Some(count) =>
        if count >= limit then Decision(true, None) else Decision(false, Some(IntToString(count + 1)))
  }

  method IsRateLimited(store: KeyValueStore, key: string, limit: int, windowSeconds: int) returns (limited: bool)
    modifies store
    ensures limited == Decide(Current(old(store.values), key), limit).limited
    ensures Decide(Current(old(store.values), key), limit).write.Some? ==>
              && store.values == old(store.values)[key := Decide(Current(old(store.values), key), limit).write.value]
              && store.ttl == old(store.ttl)[key := windowSeconds]
    ensures Decide(Current(old(store.values), key), limit).write.None? ==>
              store.values == old(store.values) && store.ttl == old(store.ttl)
  {
    var current := Current(store.values, key);
    if current.None? {
      store.Set(key, "1", windowSeconds);
      return false;
    }
    var count := ParseInt(current.value);
    if count.Some? && count.value >= limit {
      return true;
    }
    var next := if count.Some? then IntToString(count.value + 1) else "NaN";
    store.Set(key, next, windowSeconds);
    return false;
  }

  /** `getRemainingRequests`: the limit when there is no count, else max(0, limit - count); None stands for NaN. */
  function Remaining(current: Option<string>, limit: int): (r: Option<int>)
    ensures current.None? ==> r == Some(limit)
    ensures current.Some? ==> (r.Some? <==> ParseInt(current.value).Some?)
    ensures current.Some? && r.Some? ==>
              var count := ParseInt(current.value).value;
              r.value >= 0 && r.value >= limit - count && (r.value == 0 || r.value == limit - count)
  {
    if current.None? then Some(limit)
    else match ParseInt(current.value)
      case None => None
      case Some(count) => Some(if limit - count > 0 then limit - count else 0)
  }

  method GetRemainingRequests(store: KeyValueStore, key: string, limit: int) returns (remaining: Option<int>)
    ensures remaining == Remaining(Current(store.values, key), limit)
  {
    var current := Current(store.values, key);
    if current.None? {
      return Some(limit);
    }
    var count := ParseInt(current.value);
    if count.None? {
      return None;
    }
    remaining := Some(if limit - count.value > 0 then limit - count.value else 0);
  }

  /** For a count the limiter itself stored (a non-negative number), the remaining count lies in [0, limit]. */
  lemma RemainingWithinLimit(count: nat, limit: nat)
    ensures Remaining(Some(IntToString(count)), limit).Some?
    ensures 0 <= Remaining(Some(IntToString(count)), limit).value <= limit
  {
    ParseIntOfIntToString(count);
  }

  /** The stored count after `n` calls in one window, starting with no count. */
  function CountAfter(n: nat, limit: int): Option<string>
  {
    if n == 0 then None
    else
      var d := Decide(CountAfter(n - 1, limit), limit);
      if d.write.Some? then d.write else CountAfter(n - 1, limit)
  }

  /**
   * Fixed window: from no count and a limit L >= 1, call n + 1 is refused
   * exactly when n >= L, and the stored count is min(n, L) and never above L.
   */
  lemma {:induction false} FixedWindow(n: nat, limit: int)
    requires limit >= 1
    ensures n == 0 ==> CountAfter(n, limit) == None
    ensures n > 0 ==> CountAfter(n, limit) == Some(IntToString(if n < limit then n else limit))
    ensures Decide(CountAfter(n, limit), limit).limited <==> n >= limit
  {
    if n == 0 {
    } else {
      FixedWindow(n - 1, limit);
      if n - 1 > 0 {
        ParseIntOfIntToString(if n - 1 < limit then n - 1 else limit);
      }
      var m := if n < limit then n else limit;
      ParseIntOfIntToString(m);
      assert IntToString(1) == "1";
    }
  }

  /** A refused call leaves value and time to live alone; an accepted call resets the time to live. */
  lemma RefusalKeepsWindow(current: Option<string>, limit: int)
    ensures Decide(current, limit).limited ==>
              current.Some? && ParseInt(current.value).Some? && ParseInt(current.value).value >= limit
    ensures !Decide(current, limit).limited ==> Decide(current, limit).write.Some?
  {
  }

  /**
   * A stored value parseInt cannot read is never refused: the call is let
   * through and "NaN" is stored, which again is not refused.
   */
  lemma NotANumberNeverLimits(value: string, limit: int)
    requires |value| > 0 && !IsSpace(value[0]) && value[0] != '-' && value[0] != '+' && DigitValue(value[0]) >= 10
    ensures Decide(Some(value), limit) == Decision(false, Some("NaN"))
    ensures Decide(Some("NaN"), limit) == Decision(false, Some("NaN"))
  {
    ParseIntOfNonDigit(value);
    var nan := "NaN";
    assert DigitValue(nan[0]) >= 10 && !IsSpace(nan[0]);
    ParseIntOfNonDigit(nan);
  }

  // ----- The guard -----

  const DefaultLimit := 50
  const DefaultWindow := 1800
  const TooManyMessage := "Quá nhiều yêu cầu, vui lòng thử lại sau"

  /** The metadata the route handler carries under 'rateLimit' and 'rateLimitWindow'. */
  datatype RouteMetadata = RouteMetadata(rateLimit: Option<int>, rateLimitWindow: Option<int>)

  /** The decorator's window when none is given. */
  const DecoratorDefaultWindow := 3600

  /**
   * The `@RateLimit(limit, windowSeconds = 3600)` decorator: the metadata for
   * 'rateLimit' is built and thrown away; only the window is attached.
   */
  function RateLimitDecorator(limit: int, windowSeconds: int := DecoratorDefaultWindow): RouteMetadata
  {
    RouteMetadata(None, Some(windowSeconds))
  }

  /** `meta || fallback`: absent or 0 gives the fallback. */
  function OrDefault(meta: Option<int>, fallback: int): (r: int)
    ensures meta.Some? && meta.value != 0 ==> r == meta.value
    ensures meta.None? || meta.value == 0 ==> r == fallback
  {
    if meta.None? || meta.value == 0 then fallback else meta.value
  }

  /** `rate_limit:<ip>:<route path>`. */
  function RateKey(ip: string, routePath: string): string
  {
    "rate_limit:" + ip + ":" + routePath
  }

  /** Two requests share a counter only from the same address on the same route (for addresses without ':'). */
  lemma RateKeyInjective(ip1: string, path1: string, ip2: string, path2: string)
    requires ':' !in ip1 && ':' !in ip2
    requires RateKey(ip1, path1) == RateKey(ip2, path2)
    ensures ip1 == ip2 && path1 == path2
  {
    var prefix := "rate_limit:";
    var s1 := ip1 + ":" + path1;
    var s2 := ip2 + ":" + path2;
    assert RateKey(ip1, path1) == prefix + s1 && RateKey(ip2, path2) == prefix + s2;
    assert s1 == (prefix + s1)[|prefix|..] && s2 == (prefix + s2)[|prefix|..];
    IndexOfPrefix(ip1, ':', path1);
    IndexOfPrefix(ip2, ':', path2);
    assert ip1 == s1[..|ip1|] && ip2 == s2[..|ip2|];
    assert path1 == s1[|ip1| + 1..] && path2 == s2[|ip2| + 1..];
  }

  /** The two response headers the guard sets, whether or not it refuses. */
  datatype Headers = Headers(limit: int, remaining: Option<int>)

  /**
   * `canActivate`: the counter is updated first and the remaining count is
   * read afterwards; a refused request fails with 429 carrying the window
   * as `remainingTime`.
   */
  method CanActivate(store: KeyValueStore, ip: string, routePath: string, meta: RouteMetadata)
    returns (headers: Headers, result: Result<bool>)
    modifies store
    ensures var key := RateKey(ip, routePath);
      var limit := OrDefault(meta.rateLimit, 50);
      var window := OrDefault(meta.rateLimitWindow, 1800);
      var d := Decide(Current(old(store.values), key), limit);
      && (d.write.Some? ==> store.values == old(store.values)[key := d.write.value]
                             && store.ttl == old(store.ttl)[key := window])
      && (d.write.None? ==> store.values == old(store.values) && store.ttl == old(store.ttl))
      && headers == Headers(limit, Remaining(Current(store.values, key), limit))
      && (d.limited ==> result == Err(TooManyRequests(window)))
      && (!d.limited ==> result == Ok(true))
  {
    var key := RateKey(ip, routePath);
    var limit := OrDefault(meta.rateLimit, DefaultLimit);
    var window := OrDefault(meta.rateLimitWindow, DefaultWindow);
    var limited := IsRateLimited(store, key, limit, window);
    var remaining := GetRemainingRequests(store, key, limit);
    headers := Headers(limit, remaining);
    if limited {
      return headers, Err(TooManyRequests(window));
    }
    return headers, Ok(true);
  }

  /** Whatever limit the decorator is given, the guard counts against 50. */
  lemma DecoratorLimitIgnored(limit: int, windowSeconds: int)
    ensures OrDefault(RateLimitDecorator(limit, windowSeconds).rateLimit, DefaultLimit) == 50
    ensures windowSeconds != 0 ==> OrDefault(RateLimitDecorator(limit, windowSeconds).rateLimitWindow, DefaultWindow) == windowSeconds
    ensures OrDefault(RateLimitDecorator(limit).rateLimitWindow, DefaultWindow) == 3600
  {
  }

  /**
   * The remaining count the guard reports on an accepted request is read
   * after the update: the limit minus the new count (the first request of a
   * window leaves limit - 1).
   */
  lemma RemainingAfterUpdate(count: nat, limit: int)
    requires count < limit
    ensures Decide(Some(IntToString(count)), limit).write == Some(IntToString(count + 1))
    ensures Remaining(Decide(Some(IntToString(count)), limit).write, limit) == Some(limit - (count + 1))
  {
    ParseIntOfIntToString(count);
    ParseIntOfIntToString(count + 1);
  }

  lemma RemainingAfterFirst(limit: int)
    requires limit >= 1
    ensures Decide(None, limit).write == Some("1")
    ensures Remaining(Some("1"), limit) == Some(limit - 1)
  {
    ParseIntOfIntToString(1);
    assert IntToString(1) == "1";
  }
}
