/** The bot's time-to-live cache. The wall clock is an explicit `now`
    argument (seconds, as `time.time()` gives them). */
module Cache {
  import opened Common

  const CacheTtlSeconds: int := 5
  const CrdCacheTtlSeconds: int := 300

  datatype Entry<V> = Entry(data: V, timestamp: real)

  datatype TtlCache<V> = TtlCache(entries: map<string, Entry<V>>, defaultTtl: int)

  /** A new cache holds nothing. */
  function New<V>(defaultTtl: int): (c: TtlCache<V>)
    ensures c.defaultTtl == defaultTtl
    ensures forall key :: key !in c.entries
  {
    TtlCache(map[], defaultTtl)
  }

  /** The TTL a lookup uses: the per-call override when one is given, even 0. */
  function EffectiveTtl<V>(c: TtlCache<V>, ttl: Option<int>): int {
    if ttl.Some? then ttl.value else c.defaultTtl
  }

  /** An entry is served while its age is strictly below the TTL. */
  predicate Fresh<V>(e: Entry<V>, ttl: int, now: real) {
    now - e.timestamp < ttl as real
  }

  function Get<V>(c: TtlCache<V>, key: string, ttl: Option<int>, now: real): (r: Option<V>)
    ensures key !in c.entries ==> r.None?
    ensures r.Some? <==> key in c.entries && Fresh(c.entries[key], EffectiveTtl(c, ttl), now)
    ensures r.Some? ==> r.value == c.entries[key].data
  {
    if key !in c.entries then None
    else
      var entry := c.entries[key];
      var age := now - entry.timestamp;
      var cacheTtl := if ttl.Some? then ttl.value else c.defaultTtl;
      if age < cacheTtl as real then Some(entry.data) else None
  }

  function Set<V>(c: TtlCache<V>, key: string, value: V, now: real): (r: TtlCache<V>)
    ensures key in r.entries && r.entries[key] == Entry(value, now)
    ensures r.entries.Keys == c.entries.Keys + {key}
    ensures forall k :: k in c.entries && k != key ==> r.entries[k] == c.entries[k]
    ensures r.defaultTtl == c.defaultTtl
  {
    c.(entries := c.entries[key := Entry(value, now)])
  }

  function Invalidate<V>(c: TtlCache<V>, key: string): (r: TtlCache<V>)
    ensures key !in r.entries
    ensures r.entries.Keys == c.entries.Keys - {key}
    ensures forall k :: k in r.entries ==> r.entries[k] == c.entries[k]
    ensures key !in c.entries ==> r == c
    ensures r.defaultTtl == c.defaultTtl
  {
    c.(entries := c.entries - {key})
  }

  function Clear<V>(c: TtlCache<V>): (r: TtlCache<V>)
    ensures |r.entries| == 0
    ensures r.defaultTtl == c.defaultTtl
  {
    c.(entries := map[])
  }

  /** A value just stored is served back until the TTL has elapsed, and
      storing one key never changes what another key serves. */
  lemma GetAfterSet<V>(c: TtlCache<V>, key: string, value: V, setAt: real, other: string, ttl: Option<int>, now: real)
    ensures Get(Set(c, key, value, setAt), key, ttl, now) ==
      if now - setAt < EffectiveTtl(c, ttl) as real then Some(value) else None
    ensures other != key ==> Get(Set(c, key, value, setAt), other, ttl, now) == Get(c, other, ttl, now)
  {
  }

  /** After `invalidate` the key misses; every other key is served as before. */
  lemma GetAfterInvalidate<V>(c: TtlCache<V>, key: string, other: string, ttl: Option<int>, now: real)
    ensures Get(Invalidate(c, key), key, ttl, now).None?
    ensures other != key ==> Get(Invalidate(c, key), other, ttl, now) == Get(c, other, ttl, now)
  {
  }

  /** After `clear` every lookup misses. */
  lemma GetAfterClear<V>(c: TtlCache<V>, key: string, ttl: Option<int>, now: real)
    ensures Get(Clear(c), key, ttl, now).None?
  {
  }

  /** Expiry is permanent as the clock moves forward: a miss on a stored
      key stays a miss at any later time, and a hit was a hit at every
      earlier time since the value was stored. */
  lemma ExpiryIsMonotone<V>(c: TtlCache<V>, key: string, ttl: Option<int>, earlier: real, later: real)
    requires earlier <= later
    ensures Get(c, key, ttl, later).Some? ==> Get(c, key, ttl, earlier).Some?
    ensures key in c.entries && Get(c, key, ttl, earlier).None? ==> Get(c, key, ttl, later).None?
  {
  }

  /** A zero TTL override never serves anything stored in the past or present. */
  lemma ZeroTtlNeverHits<V>(c: TtlCache<V>, key: string, now: real)
    requires key in c.entries ==> c.entries[key].timestamp <= now
    ensures Get(c, key, Some(0), now).None?
  {
  }
}
