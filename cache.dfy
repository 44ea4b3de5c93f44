/** `InMemoryCacheStrategy`: the report cache kept in memory, a map from
    keys to values with optional expiry times and usage counters. The
    clock is a parameter `now` (seconds, as `time.time()` gives them). */
module Cache {
  import opened Text

  /** `CacheMetrics` */
  datatype Metrics = Metrics(hits: nat, misses: nat, writes: nat, invalidations: nat, expirations: nat)

  const NoMetrics := Metrics(0, 0, 0, 0, 0)

  /** Every counter of `b` is at least the one of `a`. */
  predicate Grown(a: Metrics, b: Metrics)
  {
    a.hits <= b.hits && a.misses <= b.misses && a.writes <= b.writes
    && a.invalidations <= b.invalidations && a.expirations <= b.expirations
  }

  /** The content of the strategy: `_store`, `_expirations`, `_metrics`. */
  datatype Contents<V> = Contents(store: map<string, V>, expiry: map<string, real>, metrics: Metrics)

  /** A key expires only while it is stored. */
  predicate Valid<V>(c: Contents<V>)
  {
    c.expiry.Keys <= c.store.Keys
  }

  function Empty<V>(): Contents<V>
  {
    Contents(map[], map[], NoMetrics)
  }

  /** `r` holds every key other than `key` exactly as `c` does: same
      presence, same value, same expiry. */
  ghost predicate OthersKept<V>(c: Contents<V>, r: Contents<V>, key: string)
  {
    forall k :: k != key ==>
      (k in r.store <==> k in c.store) && (k in r.store ==> r.store[k] == c.store[k])
      && (k in r.expiry <==> k in c.expiry) && (k in r.expiry ==> r.expiry[k] == c.expiry[k])
  }

  /** Whether `key` has an expiry strictly before `now`. */
  predicate Expired<V>(c: Contents<V>, key: string, now: real)
  {
    key in c.expiry && c.expiry[key] < now
  }

  /** `get(key)`: an expired entry is dropped first and counted; then a
      stored value is a hit and anything else a miss. */
  function Lookup<V>(c: Contents<V>, key: string, now: real): (r: (Option<V>, Contents<V>))
    ensures Expired(c, key, now) ==>
              r.0 == None && key !in r.1.store && key !in r.1.expiry
              && r.1.metrics == c.metrics.(expirations := c.metrics.expirations + 1, misses := c.metrics.misses + 1)
    ensures !Expired(c, key, now) && key in c.store ==>
              r.0 == Some(c.store[key]) && r.1 == c.(metrics := c.metrics.(hits := c.metrics.hits + 1))
    ensures !Expired(c, key, now) && key !in c.store ==>
              r.0 == None && r.1 == c.(metrics := c.metrics.(misses := c.metrics.misses + 1))
    ensures OthersKept(c, r.1, key)
  {
    var c := if Expired(c, key, now) then
               Contents(c.store - {key}, c.expiry - {key}, c.metrics.(expirations := c.metrics.expirations + 1))
             else c;
    if key in c.store then (Some(c.store[key]), c.(metrics := c.metrics.(hits := c.metrics.hits + 1)))
    else (None, c.(metrics := c.metrics.(misses := c.metrics.misses + 1)))
  }

  /** `set(key, value, ttl_seconds)`: a ttl that is given and not positive
      changes nothing; otherwise the value is stored and counted, with an
      expiry `ttl` seconds from now, or none when no ttl is given. */
  function Stored<V>(c: Contents<V>, key: string, value: V, ttl: Option<int>, now: real): (r: Contents<V>)
    ensures ttl.Some? && ttl.value <= 0 ==> r == c
    ensures !(ttl.Some? && ttl.value <= 0) ==>
              key in r.store && r.store[key] == value
              && r.metrics == c.metrics.(writes := c.metrics.writes + 1)
              && (ttl.Some? ==> key in r.expiry && r.expiry[key] == now + ttl.value as real)
              && (ttl.None? ==> key !in r.expiry)
    ensures OthersKept(c, r, key)
  {
    if ttl.Some? && ttl.value <= 0 then c
    else
      var expiry := if ttl.Some? then c.expiry[key := now + ttl.value as real] else c.expiry - {key};
      Contents(c.store[key := value], expiry, c.metrics.(writes := c.metrics.writes + 1))
  }

  /** `invalidate(key)`: the key goes, and counts only if it was stored. */
  function Invalidated<V>(c: Contents<V>, key: string): (r: Contents<V>)
    ensures key !in r.store && key !in r.expiry
    ensures r.metrics == if key in c.store then c.metrics.(invalidations := c.metrics.invalidations + 1) else c.metrics
    ensures OthersKept(c, r, key)
  {
    var metrics := if key in c.store then c.metrics.(invalidations := c.metrics.invalidations + 1) else c.metrics;
    Contents(c.store - {key}, c.expiry - {key}, metrics)
  }

  /** The stored keys that start with `prefix`. */
  function PrefixKeys<V>(c: Contents<V>, prefix: string): set<string>
  {
    set k | k in c.store && StartsWith(k, prefix)
  }

  /** `invalidate_prefix(prefix)`: every stored key starting with the prefix
      goes, and each counts as an invalidation. */
  function PrefixInvalidated<V>(c: Contents<V>, prefix: string): Contents<V>
  {
    var keys := PrefixKeys(c, prefix);
    if keys == {} then c
    else
      Contents(c.store - keys, c.expiry - keys, c.metrics.(invalidations := c.metrics.invalidations + |keys|))
  }

  /** `invalidate_prefix` removes exactly the keys starting with the prefix
      and counts them; every other entry keeps its value and expiry. */
  lemma InvalidatePrefixExact<V>(c: Contents<V>, prefix: string)
    ensures var r := PrefixInvalidated(c, prefix);
            (forall k :: k in r.store <==> k in c.store && !StartsWith(k, prefix))
            && (forall k :: k in r.store ==> r.store[k] == c.store[k])
            && (forall k :: k in c.expiry && !StartsWith(k, prefix) ==> k in r.expiry && r.expiry[k] == c.expiry[k])
            && r.metrics == c.metrics.(invalidations := c.metrics.invalidations + |PrefixKeys(c, prefix)|)
  {
    var keys := PrefixKeys(c, prefix);
    if keys == {} {
      assert forall k :: k in c.store && StartsWith(k, prefix) ==> k in keys;
    }
  }

  /** Every operation keeps expiries on stored keys only. */
  lemma OperationsKeepValid<V>(c: Contents<V>, key: string, value: V, ttl: Option<int>, prefix: string, now: real)
    requires Valid(c)
    ensures Valid(Lookup(c, key, now).1)
    ensures Valid(Stored(c, key, value, ttl, now))
    ensures Valid(Invalidated(c, key))
    ensures Valid(PrefixInvalidated(c, prefix))
  {
  }

  /** `invalidate_prefix` keeps every expiry attached to a stored key. */
  lemma PrefixKeepsValid<V>(c: Contents<V>, prefix: string)
    ensures Valid(c) ==> Valid(PrefixInvalidated(c, prefix))
  {
  }

  /** No operation makes a counter go down. */
  lemma CountersNeverDecrease<V>(c: Contents<V>, key: string, value: V, ttl: Option<int>, prefix: string, now: real)
    ensures Grown(c.metrics, Lookup(c, key, now).1.metrics)
    ensures Grown(c.metrics, Stored(c, key, value, ttl, now).metrics)
    ensures Grown(c.metrics, Invalidated(c, key).metrics)
    ensures Grown(c.metrics, PrefixInvalidated(c, prefix).metrics)
  {
  }

  /** A value set with a ttl is a hit until its expiry, the expiry instant
      included, and after it a miss that drops the entry. */
  lemma ExpiryBoundary<V>(c: Contents<V>, key: string, value: V, ttl: int, now: real, later: real)
    requires ttl > 0
    ensures var s := Stored(c, key, value, Some(ttl), now);
            later <= now + ttl as real ==> Lookup(s, key, later).0 == Some(value)
    ensures var s := Stored(c, key, value, Some(ttl), now);
            later > now + ttl as real ==> Lookup(s, key, later).0 == None && key !in Lookup(s, key, later).1.store
  {
  }

  /** A miss, the write that follows it and a hit: one of each, and no
      expiration. */
  lemma MissWriteHit<V>(key: string, value: V, ttl: Option<int>, now: real, later: real)
    requires ttl.None? || (ttl.value > 0 && later <= now + ttl.value as real)
    ensures var (first, c1) := Lookup(Empty<V>(), key, now);
            var c2 := Stored(c1, key, value, ttl, now);
            var (second, c3) := Lookup(c2, key, later);
            first == None && second == Some(value) && c3.metrics == Metrics(1, 1, 1, 0, 0)
  {
  }

  /** `InMemoryCacheStrategy` */
  class InMemoryCacheStrategy<V> {
    var store: map<string, V>
    var expirations: map<string, real>
    var metrics: Metrics

    function State(): Contents<V>
      reads this
    {
      Contents(store, expirations, metrics)
    }

    constructor()
      ensures State() == Empty() && Valid(State())
    {
      store := map[];
      expirations := map[];
      metrics := NoMetrics;
    }

    method Get(key: string, now: real) returns (r: Option<V>)
      modifies this
      ensures (r, State()) == Lookup(old(State()), key, now)
      ensures Valid(old(State())) ==> Valid(State())
    {
      var expired := key in expirations && expirations[key] < now;
      if expired {
        store := store - {key};
        expirations := expirations - {key};
        metrics := metrics.(expirations := metrics.expirations + 1);
      }
      if key in store {
        metrics := metrics.(hits := metrics.hits + 1);
        return Some(store[key]);
      }
      metrics := metrics.(misses := metrics.misses + 1);
      return None;
    }

    method Set(key: string, value: V, ttl: Option<int>, now: real)
      modifies this
      ensures State() == Stored(old(State()), key, value, ttl, now)
      ensures Valid(old(State())) ==> Valid(State())
    {
      if ttl.Some? && ttl.value <= 0 {
        return;
      }
      store := store[key := value];
      if ttl.Some? {
        expirations := expirations[key := now + ttl.value as real];
      } else {
        expirations := expirations - {key};
      }
      metrics := metrics.(writes := metrics.writes + 1);
    }

    method Invalidate(key: string)
      modifies this
      ensures State() == Invalidated(old(State()), key)
      ensures Valid(old(State())) ==> Valid(State())
    {
      var removed := key in store;
      store := store - {key};
      expirations := expirations - {key};
      if removed {
        metrics := metrics.(invalidations := metrics.invalidations + 1);
      }
    }

    method InvalidatePrefix(prefix: string)
      modifies this
      ensures State() == PrefixInvalidated(old(State()), prefix)
      ensures Valid(old(State())) ==> Valid(State())
    {
      var keys := set k | k in store && StartsWith(k, prefix);
      if keys == {} {
        return;
      }
      var pending := keys;
      while pending != {}
        invariant pending <= keys
        invariant store == old(store) - (keys - pending)
        invariant expirations == old(expirations) - (keys - pending)
        invariant metrics == old(metrics)
        decreases |pending|
      {
        var key :| key in pending;
        store := store - {key};
        expirations := expirations - {key};
        pending := pending - {key};
      }
      metrics := metrics.(invalidations := metrics.invalidations + |keys|);
      PrefixKeepsValid(old(State()), prefix);
    }

    /** `get_metrics` */
    function GetMetrics(): Metrics
      reads this
    {
      metrics
    }
  }
}
