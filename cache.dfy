/**
 * The in-process TTL cache of app/cache/cache_utils.py (its branch without a
 * Redis client): a dictionary from keys to `{value, expiry}` entries, the four
 * key generators and the two invalidation helpers. The wall clock is the
 * explicit parameter `now`; an entry set at time t with ttl d expires at t + d.
 */
module CacheUtils {
  import opened Wrappers
  import opened Decimal

  datatype CacheEntry<V> = CacheEntry(value: V, expiry: int)

  /** What `get_cache` answers at time `now`: the value while it is fresh. */
  function Lookup<V>(m: map<string, CacheEntry<V>>, key: string, now: int): Option<V>
  {
    if key in m && m[key].expiry > now then Some(m[key].value) else None
  }

  /** The dictionary after `get_cache`: an entry found expired is deleted. */
  function AfterLookup<V>(m: map<string, CacheEntry<V>>, key: string, now: int): map<string, CacheEntry<V>>
  {
    if key in m && m[key].expiry <= now then m - {key} else m
  }

  /** `pattern.replace('*', '')`: the pattern with every star taken out. */
  function StripStars(pattern: string): (r: string)
    ensures |r| <= |pattern|
    ensures forall i :: 0 <= i < |r| ==> r[i] != '*'
    ensures (forall i :: 0 <= i < |pattern| ==> pattern[i] != '*') ==> r == pattern
    ensures |pattern| == 1 ==> r == (if pattern[0] == '*' then [] else pattern)
  {
    if pattern == [] then []
    else (if pattern[0] == '*' then [] else [pattern[0]]) + StripStars(pattern[1..])
  }

  /**
   * A concatenation strips to the concatenation of the stripped parts; with
   * the one-character case of `StripStars`, the non-star characters are kept
   * in order.
   */
  lemma {:induction false} StripStarsConcat(a: string, b: string)
    ensures StripStars(a + b) == StripStars(a) + StripStars(b)
    decreases |a|
  {
    if a == [] {
      assert a + b == b;
    } else {
      assert (a + b)[0] == a[0];
      assert (a + b)[1..] == a[1..] + b;
      StripStarsConcat(a[1..], b);
    }
  }

  /** The keys `clear_cache_pattern(pattern)` deletes: those starting with the star-free pattern. */
  function MatchingKeys<V>(m: map<string, CacheEntry<V>>, pattern: string): set<string>
  {
    set k | k in m && StripStars(pattern) <= k
  }

  // Cache key generators

  function EventsKey(): string { "events:all" }

  function EventKey(eventId: int): string { "event:" + IntToString(eventId) }

  function UserBookingsKey(userId: int): string { "user:" + IntToString(userId) + ":bookings" }

  function AnalyticsKey(): string { "analytics:data" }

  /** The generated keys never collide: distinct families, and distinct ids within a family. */
  lemma KeysDistinct(a: int, b: int)
    ensures EventsKey() != AnalyticsKey()
    ensures EventsKey() != EventKey(a) && EventsKey() != UserBookingsKey(a)
    ensures AnalyticsKey() != EventKey(a) && AnalyticsKey() != UserBookingsKey(a)
    ensures EventKey(a) != UserBookingsKey(b)
    ensures EventKey(a) == EventKey(b) <==> a == b
    ensures UserBookingsKey(a) == UserBookingsKey(b) <==> a == b
  {
    assert EventKey(a)[5] == ':' && EventsKey()[5] == 's';
    assert EventKey(a)[0] == 'e' && UserBookingsKey(b)[0] == 'u' && AnalyticsKey()[0] == 'a';
    assert UserBookingsKey(a)[0] == 'u';
    IntToStringInjective(a, b);
    if EventKey(a) == EventKey(b) {
      assert EventKey(a)[6..] == IntToString(a);
      assert EventKey(b)[6..] == IntToString(b);
    }
    if UserBookingsKey(a) == UserBookingsKey(b) {
      var sa, sb := UserBookingsKey(a), UserBookingsKey(b);
      assert sa[5..|sa| - 9] == IntToString(a);
      assert sb[5..|sb| - 9] == IntToString(b);
    }
  }

  /** Python truthiness of the optional `event_id` argument: `None` and `0` are false. */
  predicate Truthy(eventId: Option<int>) {
    eventId.Some? && eventId.value != 0
  }

  /** The keys `invalidate_event_caches(event_id)` deletes. */
  function EventCacheKeys(eventId: Option<int>): set<string>
  {
    {EventsKey(), AnalyticsKey()} + (if Truthy(eventId) then {EventKey(eventId.value)} else {})
  }

  /** The listing and analytics keys always go; the detail key of id goes exactly when id is truthy. */
  lemma EventCacheKeysCover(id: int)
    ensures EventCacheKeys(None) == {EventsKey(), AnalyticsKey()}
    ensures EventsKey() in EventCacheKeys(Some(id)) && AnalyticsKey() in EventCacheKeys(Some(id))
    ensures EventKey(id) in EventCacheKeys(Some(id)) <==> id != 0
    ensures EventKey(id) !in EventCacheKeys(None)
    ensures forall u :: UserBookingsKey(u) !in EventCacheKeys(Some(id))
  {
    KeysDistinct(id, id);
    forall u ensures UserBookingsKey(u) !in EventCacheKeys(Some(id)) {
      KeysDistinct(id, u);
    }
  }

  /** A set entry is read back unchanged until its expiry time. */
  lemma GetAfterSet<V>(m: map<string, CacheEntry<V>>, key: string, value: V, ttl: int, setAt: int, now: int)
    requires setAt <= now < setAt + ttl
    ensures Lookup(m[key := CacheEntry(value, setAt + ttl)], key, now) == Some(value)
    ensures AfterLookup(m[key := CacheEntry(value, setAt + ttl)], key, now) == m[key := CacheEntry(value, setAt + ttl)]
  {
  }

  /** From its expiry time on, an entry reads as absent and the read deletes it, and only it. */
  lemma GetAfterExpiry<V>(m: map<string, CacheEntry<V>>, key: string, now: int)
    requires key in m && m[key].expiry <= now
    ensures Lookup(m, key, now) == None
    ensures AfterLookup(m, key, now).Keys == m.Keys - {key}
    ensures forall k :: k in m && k != key ==> AfterLookup(m, key, now)[k] == m[k]
  {
  }

  /** The pattern "*" matches every key, so it clears the whole cache. */
  lemma StarMatchesEverything<V>(m: map<string, CacheEntry<V>>)
    ensures MatchingKeys(m, "*") == m.Keys
  {
    assert StripStars("*") == [];
  }

  /** The process-wide `_memory_cache` dictionary. */
  class MemoryCache<V> {
    var entries: map<string, CacheEntry<V>>

    /** The cache is empty when the process starts. */
    constructor ()
      ensures entries == map[]
    {
      entries := map[];
    }

    /** `set_cache(key, value, ttl)`: overwrites the key's entry, leaves all others. */
    method SetCache(key: string, value: V, ttl: int, now: int)
      modifies this
      ensures entries == old(entries)[key := CacheEntry(value, now + ttl)]
    {
      entries := entries[key := CacheEntry(value, now + ttl)];
    }

    /** `get_cache(key)`: the value while fresh; an expired entry is deleted and reads as absent. */
    method GetCache(key: string, now: int) returns (r: Option<V>)
      modifies this
      ensures r == Lookup(old(entries), key, now)
      ensures entries == AfterLookup(old(entries), key, now)
    {
      if key in entries && entries[key].expiry > now {
        r := Some(entries[key].value);
      } else {
        if key in entries {
          entries := entries - {key};
        }
        r := None;
      }
    }

    /** `delete_cache(key)`: removes the key if present, otherwise does nothing. */
    method DeleteCache(key: string)
      modifies this
      ensures entries == old(entries) - {key}
    {
      entries := entries - {key};
    }

    /** `clear_cache_pattern(pattern)`: collects the matching keys, then deletes them one by one. */
    method ClearCachePattern(pattern: string)
      modifies this
      ensures entries == old(entries) - MatchingKeys(old(entries), pattern)
    {
      var prefix := StripStars(pattern);
      var keysToDelete := set k | k in entries && prefix <= k;
      var remaining := keysToDelete;
      while remaining != {}
        invariant remaining <= keysToDelete
        invariant entries == old(entries) - (keysToDelete - remaining)
        decreases remaining
      {
        var key :| key in remaining;
        entries := entries - {key};
        remaining := remaining - {key};
      }
    }

    /** `invalidate_event_caches(event_id)`. */
    method InvalidateEventCaches(eventId: Option<int>)
      modifies this
      ensures entries == old(entries) - EventCacheKeys(eventId)
    {
      DeleteCache(EventsKey());
      DeleteCache(AnalyticsKey());
      if Truthy(eventId) {
        DeleteCache(EventKey(eventId.value));
      }
    }

    /** `invalidate_user_booking_cache(user_id)`. */
    method InvalidateUserBookingCache(userId: int)
      modifies this
      ensures entries == old(entries) - {UserBookingsKey(userId)}
    {
      DeleteCache(UserBookingsKey(userId));
    }
  }
}
