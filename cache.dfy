/**
 * The process-local TTL cache (`SimpleCache`): a dictionary from string keys
 * to a value paired with its expiry time. Entries expire lazily, on the read
 * that finds them stale; `InvalidatePrefix` drops every key that starts with
 * a given string. The wall clock is an integer `now` supplied by the caller.
 */
module Cache {
  import opened Wrappers

  /** The default time-to-live of `set`, in seconds. */
  const DefaultTtl: int := 60

  /** Key to (value, expires_at). */
  type Store<V> = map<string, (V, int)>

  predicate StartsWith(key: string, prefix: string)
  {
    prefix <= key
  }

  /** An entry has expired once its expiry time is strictly before now. */
  predicate Expired<V>(entry: (V, int), now: int)
  {
    entry.1 < now
  }

  /** What `get(key)` returns at time `now`. */
  function Fetch<V>(store: Store<V>, key: string, now: int): Option<V>
  {
    if key in store && !Expired(store[key], now) then Some(store[key].0) else None
  }

  /** The store after `get(key)` at time `now`: a stale entry for `key` is deleted. */
  function Purge<V>(store: Store<V>, key: string, now: int): Store<V>
  {
    if key in store && Expired(store[key], now) then store - {key} else store
  }

  /** The store after `set(key, value, ttl)` at time `now`. */
  function Put<V>(store: Store<V>, key: string, value: V, now: int, ttl: int): Store<V>
  {
    store[key := (value, now + ttl)]
  }

  /** The store after `invalidate_prefix(prefix)`. */
  function WithoutPrefix<V>(store: Store<V>, prefix: string): (r: Store<V>)
    ensures forall k :: k in r ==> !StartsWith(k, prefix)
    ensures forall k :: k in store && !StartsWith(k, prefix) ==> k in r && r[k] == store[k]
    ensures r.Keys <= store.Keys
  {
    map k | k in store && !StartsWith(k, prefix) :: store[k]
  }

  class SimpleCache<V> {
    var store: Store<V>

    constructor ()
      ensures store == map[]
    {
      store := map[];
    }

    method Get(key: string, now: int) returns (r: Option<V>)
      modifies this
      ensures r == Fetch(old(store), key, now)
      ensures store == Purge(old(store), key, now)
    {
      if key !in store {
        return None;
      }
      var (value, expiresAt) := store[key];
      if expiresAt < now {
        store := store - {key};
        return None;
      }
      return Some(value);
    }

    method Set(key: string, value: V, now: int, ttl: int := DefaultTtl)
      modifies this
      ensures store == Put(old(store), key, value, now, ttl)
    {
      store := store[key := (value, now + ttl)];
    }

    /** Collects the matching keys first, then deletes them one at a time. */
    method InvalidatePrefix(prefix: string)
      modifies this
      ensures store == WithoutPrefix(old(store), prefix)
    {
      var keys := set k | k in store && StartsWith(k, prefix);
      ghost var deleted: set<string> := {};
      while keys != {}
        invariant keys !! deleted
        invariant keys + deleted == set k | k in old(store) && StartsWith(k, prefix)
        invariant store == old(store) - deleted
        decreases keys
      {
        var k :| k in keys;
        store := store - {k};
        keys := keys - {k};
        deleted := deleted + {k};
      }
    }
  }

  /** A value set with time-to-live `ttl` is returned by every read up to its expiry time. */
  lemma SetThenGet<V>(store: Store<V>, key: string, value: V, setAt: int, ttl: int, now: int)
    requires now <= setAt + ttl
    ensures Fetch(Put(store, key, value, setAt, ttl), key, now) == Some(value)
    ensures Purge(Put(store, key, value, setAt, ttl), key, now) == Put(store, key, value, setAt, ttl)
  {
  }

  /** The expiry comparison is strict: an entry is still served at its expiry time and gone one tick later. */
  lemma ExpiryIsStrict<V>(store: Store<V>, key: string, value: V, setAt: int, ttl: int)
    ensures Fetch(Put(store, key, value, setAt, ttl), key, setAt + ttl) == Some(value)
    ensures Fetch(Put(store, key, value, setAt, ttl), key, setAt + ttl + 1) == None
  {
  }

  /** Reading a key that was never set returns nothing and leaves the store as it was. */
  lemma GetMissing<V>(store: Store<V>, key: string, now: int)
    requires key !in store
    ensures Fetch(store, key, now) == None
    ensures Purge(store, key, now) == store
  {
  }

  /** Reading an expired key returns nothing and removes that key only. */
  lemma GetExpired<V>(store: Store<V>, key: string, now: int)
    requires key in store && store[key].1 < now
    ensures Fetch(store, key, now) == None
    ensures Purge(store, key, now).Keys == store.Keys - {key}
    ensures forall k :: k in store && k != key ==> Purge(store, key, now)[k] == store[k]
  {
  }

  /** Reading a live key returns its value and changes nothing. */
  lemma GetLive<V>(store: Store<V>, key: string, now: int)
    requires key in store && now <= store[key].1
    ensures Fetch(store, key, now) == Some(store[key].0)
    ensures Purge(store, key, now) == store
  {
  }

  /** `set` overwrites the entry for its key and leaves every other key alone. */
  lemma SetOverwrites<V>(store: Store<V>, key: string, value: V, now: int, ttl: int)
    ensures key in Put(store, key, value, now, ttl)
    ensures Put(store, key, value, now, ttl)[key] == (value, now + ttl)
    ensures Put(store, key, value, now, ttl).Keys == store.Keys + {key}
    ensures forall k :: k in store && k != key ==> Put(store, key, value, now, ttl)[k] == store[k]
  {
  }

  /** After invalidating a prefix no read of a key with that prefix hits; other keys read as before. */
  lemma InvalidateThenGet<V>(store: Store<V>, prefix: string, key: string, now: int)
    ensures StartsWith(key, prefix) ==> Fetch(WithoutPrefix(store, prefix), key, now) == None
    ensures !StartsWith(key, prefix) ==> Fetch(WithoutPrefix(store, prefix), key, now) == Fetch(store, key, now)
  {
  }

  /** Invalidating the same prefix twice is the same as invalidating it once. */
  lemma InvalidateIdempotent<V>(store: Store<V>, prefix: string)
    ensures WithoutPrefix(WithoutPrefix(store, prefix), prefix) == WithoutPrefix(store, prefix)
  {
  }

  /** A cached page of the interview list is dropped by invalidating the collection prefix; a single-interview key survives. */
  lemma InvalidateListPages<V>(store: Store<V>, page: V, one: V, now: int)
    requires now <= 100
    ensures var s := Put(Put(store, "interviews:20:0:None:None", page, 0, 100), "interview:42", one, 0, 100);
            var t := WithoutPrefix(s, "interviews:");
            Fetch(t, "interviews:20:0:None:None", now) == None && Fetch(t, "interview:42", now) == Some(one)
  {
    var s := Put(Put(store, "interviews:20:0:None:None", page, 0, 100), "interview:42", one, 0, 100);
    assert StartsWith("interviews:20:0:None:None", "interviews:");
    assert !StartsWith("interview:42", "interviews:") by {
      assert "interview:42"[9] != "interviews:"[9];
    }
    InvalidateThenGet(s, "interviews:", "interviews:20:0:None:None", now);
    InvalidateThenGet(s, "interviews:", "interview:42", now);
  }
}
