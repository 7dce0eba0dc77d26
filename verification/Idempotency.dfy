// The idempotency interceptor: one processing marker or cached response per key.
module Idempotency {
  import opened Prelude
  import opened TtlStore

  const DEFAULT_IDEMPOTENCY_TTL_MS: nat := 24 * 60 * 60 * 1000
  const MARKER_TTL_MS: nat := 60000
  const STALE_AFTER_MS: nat := 30000

  datatype CacheEntry = Processing(startedAt: Time) | Response(body: string)

  datatype Config = Config(ttl: Option<nat>, required: bool, keyPrefix: string)

  datatype Code = KeyRequired | KeyTooShort | KeyTooLong | KeyInvalidFormat | KeyInUse

  datatype Reply = Conflict(code: Code) | Body(body: string) | Failed(error: string)

  // A configured zero counts as not configured.
  function Ttl(config: Config): nat {
    if config.ttl.Some? && config.ttl.value > 0 then config.ttl.value else DEFAULT_IDEMPOTENCY_TTL_MS
  }

  // ----- Keys -----

  predicate KeyChar(c: char) {
    'a' <= c <= 'z' || 'A' <= c <= 'Z' || '0' <= c <= '9' || c == '-' || c == '_'
  }

  function KeyProblem(key: string): Option<Code> {
    if |key| < 16 then Some(KeyTooShort)
    else if |key| > 256 then Some(KeyTooLong)
    else if forall i :: 0 <= i < |key| ==> KeyChar(key[i]) then None
    else Some(KeyInvalidFormat)
  }

  function BuildCacheKey(prefix: string, tenantId: string, key: string): string {
    (if prefix == "" then "idempotency" else prefix) + ":" + tenantId + ":" + key
  }

  lemma LastColon(a: string, b: string, x: string, y: string)
    requires a + ":" + x == b + ":" + y && ':' !in x && ':' !in y
    ensures a == b && x == y
  {
    var s, t := a + ":" + x, b + ":" + y;
    assert s[|a|] == ':' && t[|b|] == ':';
    assert forall i :: |a| < i < |s| ==> s[i] in x;
    assert forall i :: |b| < i < |t| ==> t[i] in y;
    assert s[..|a|] == a && t[..|b|] == b && s[|a| + 1..] == x && t[|b| + 1..] == y;
  }

  // No two tenants, and no two valid keys of one tenant, ever share a cache entry.
  lemma CacheKeysAreDistinct(p1: string, t1: string, k1: string, p2: string, t2: string, k2: string)
    requires ':' !in t1 && ':' !in t2 && KeyProblem(k1).None? && KeyProblem(k2).None?
    requires BuildCacheKey(p1, t1, k1) == BuildCacheKey(p2, t2, k2)
    ensures t1 == t2 && k1 == k2
    ensures (if p1 == "" then "idempotency" else p1) == (if p2 == "" then "idempotency" else p2)
  {
    var f1, f2 := if p1 == "" then "idempotency" else p1, if p2 == "" then "idempotency" else p2;
    assert ':' !in k1 && ':' !in k2;
    LastColon(f1 + ":" + t1, f2 + ":" + t2, k1, k2);
    LastColon(f1, f2, t1, t2);
  }

  // What is wrong with a key, if anything: its length first, then its characters.
  lemma KeyProblemExactly(key: string)
    ensures KeyProblem(key) == Some(KeyTooShort) <==> |key| < 16
    ensures KeyProblem(key) == Some(KeyTooLong) <==> |key| > 256
    ensures KeyProblem(key) == None <==>
              16 <= |key| <= 256 && forall i :: 0 <= i < |key| ==>
                'a' <= key[i] <= 'z' || 'A' <= key[i] <= 'Z' || '0' <= key[i] <= '9' || key[i] == '-' || key[i] == '_'
    ensures KeyProblem(key) in {None, Some(KeyTooShort), Some(KeyTooLong), Some(KeyInvalidFormat)}
  {
  }

  // A response is kept as long as configured, and for a day if nothing is.
  lemma TtlExactly(config: Config)
    ensures config.ttl == None || config.ttl == Some(0) ==> Ttl(config) == 86400000
    ensures config.ttl.Some? && config.ttl.value > 0 ==> Ttl(config) == config.ttl.value
  {
  }

  // ----- What a cached entry means to a request -----

  datatype Decision = Proceed | InUse | Replay(body: string)

  function Decide(cached: Option<CacheEntry>, now: Time): Decision {
    match cached
    case None => Proceed
    case Some(Response(body)) => Replay(body)
    case Some(Processing(startedAt)) => if now - startedAt < STALE_AFTER_MS then InUse else Proceed
  }

  // A cached response is replayed; a marker holds others off for thirty seconds.
  lemma DecideExactly(cached: Option<CacheEntry>, now: Time)
    ensures Decide(cached, now) == InUse <==>
              cached.Some? && cached.value.Processing? && now < cached.value.startedAt + 30000
    ensures Decide(cached, now).Replay? <==> cached.Some? && cached.value.Response?
    ensures cached.Some? && cached.value.Response? ==> Decide(cached, now) == Replay(cached.value.body)
  {
  }

  function Lookup(live: map<string, Entry<CacheEntry>>, key: string): Option<CacheEntry> {
    if key in live then Some(live[key].value) else None
  }

  // The entries when a handler is done at `now`: every other one that has not expired by then,
  // and under the key its response from `now` on, or nothing.
  function Settled(entries: map<string, Entry<CacheEntry>>, now: Time, key: string, outcome: Result<string, string>, ttl: nat)
      : map<string, Entry<CacheEntry>>
  {
    var kept := LiveEntries(entries, now);
    if outcome.Ok? then kept[key := Entry(Response(outcome.value), now + ttl)] else kept - {key}
  }

  // Nothing is left of the marker, and it does not touch the other entries.
  lemma MarkerIsReplaced(entries: map<string, Entry<CacheEntry>>, now: Time, key: string, marker: Entry<CacheEntry>,
                         e: Entry<CacheEntry>)
    ensures LiveEntries(entries[key := marker], now) - {key} == LiveEntries(entries, now) - {key}
    ensures LiveEntries(entries[key := marker], now)[key := e] == LiveEntries(entries, now)[key := e]
  {
  }

  // An empty header counts as none; of a repeated header the first is taken.
  function ExtractKey(headers: seq<string>): (key: Option<string>)
    ensures key == None <==> headers == [] || headers[0] == ""
    ensures key.Some? ==> key.value == headers[0]
  {
    if headers == [] || headers[0] == "" then None else Some(headers[0])
  }

  class IdempotencyInterceptor {
    const cache: Store<CacheEntry>

    constructor (cache: Store<CacheEntry>)
      ensures this.cache == cache
    {
      this.cache := cache;
    }

    // One request on its own, its handler taking `elapsed` and ending in `outcome`.
    // IdempotencyRuns interleaves many, and lets the cache writes land late or never.
    method Intercept(config: Option<Config>, headers: seq<string>, tenantId: string,
                     outcome: Result<string, string>, elapsed: Time) returns (reply: Reply, handled: bool)
      modifies cache
      ensures var header := ExtractKey(headers);
              if config.None? || (header.None? && !config.value.required) then
                handled && reply == Outcome(outcome) && cache.Live() == old(cache.Live())
              else if header.None? || KeyProblem(header.value).Some? then
                && !handled && cache.Live() == old(cache.Live())
                && reply == Conflict(if header.None? then KeyRequired else KeyProblem(header.value).value)
              else
                var key := BuildCacheKey(config.value.keyPrefix, tenantId, header.value);
                match Decide(Lookup(old(cache.Live()), key), old(cache.now))
                case InUse => !handled && reply == Conflict(KeyInUse) && cache.Live() == old(cache.Live())
                case Replay(body) => !handled && reply == Body(body) && cache.Live() == old(cache.Live())
                case Proceed =>
                  && handled && reply == Outcome(outcome) && cache.now == old(cache.now) + elapsed
                  && cache.Live() == Settled(old(cache.Live()), cache.now, key, outcome, Ttl(config.value))
      ensures handled && config.Some? && ExtractKey(headers).Some? ==>
                var key := BuildCacheKey(config.value.keyPrefix, tenantId, ExtractKey(headers).value);
                && (outcome.Ok? ==>
                      && reply == Body(outcome.value)
                      && key in cache.Live() && cache.Live()[key] == Entry(Response(outcome.value), cache.now + Ttl(config.value)))
                && (outcome.Err? ==> reply == Failed(outcome.error) && key !in cache.Live())
    {
      if config.None? {
        return Outcome(outcome), true;
      }
      var header := ExtractKey(headers);
      if header.None? {
        if config.value.required {
          return Conflict(KeyRequired), false;
        }
        return Outcome(outcome), true;
      }
      var problem := KeyProblem(header.value);
      if problem.Some? {
        return Conflict(problem.value), false;
      }
      var key := BuildCacheKey(config.value.keyPrefix, tenantId, header.value);
      var cached := cache.Get(key);
      match Decide(cached, cache.now)
      case InUse => return Conflict(KeyInUse), false;
      case Replay(body) => return Body(body), false;
      case Proceed =>
        Handle(key, Ttl(config.value), outcome, elapsed);
        return Outcome(outcome), true;
    }

    // Mark, run the handler, and replace the marker by the response or delete it.
    method Handle(key: string, ttl: nat, outcome: Result<string, string>, elapsed: Time)
      requires ttl > 0
      modifies cache
      ensures cache.now == old(cache.now) + elapsed
      ensures cache.Live() == Settled(old(cache.Live()), cache.now, key, outcome, ttl)
    {
      cache.Set(key, Processing(cache.now), MARKER_TTL_MS);
      ghost var marked := cache.Live();
      cache.now := cache.now + elapsed;
      assert cache.Live() == LiveEntries(marked, cache.now);
      if outcome.Ok? {
        MarkerIsReplaced(old(cache.Live()), cache.now, key, marked[key], Entry(Response(outcome.value), cache.now + ttl));
        cache.Set(key, Response(outcome.value), ttl);
      } else {
        MarkerIsReplaced(old(cache.Live()), cache.now, key, marked[key], marked[key]);
        cache.Del(key);
      }
    }
  }

  function Outcome(outcome: Result<string, string>): Reply {
    match outcome
    case Ok(body) => Body(body)
    case Err(error) => Failed(error)
  }
}
