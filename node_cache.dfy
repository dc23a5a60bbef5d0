/**
 * The keyed, expiring store both source files create with `new NodeCache(...)`.
 * Time is an explicit parameter in milliseconds; an entry set with a TTL of
 * `ttl` seconds at time `now` is returned by `get` up to `now + ttl * 1000`.
 */
module NodeCache {
  import opened Wrappers

  datatype Entry<V> = Entry(value: V, expiresAt: nat)

  /** `get` on the entries at time `now`: the stored value while it has not expired. */
  function Get<V>(entries: map<string, Entry<V>>, key: string, now: nat): Option<V> {
    if key in entries && now <= entries[key].expiresAt then Some(entries[key].value) else None
  }

  /** `set(key, value, ttl)` at time `now` on the entries. */
  function Put<V>(entries: map<string, Entry<V>>, key: string, value: V, ttl: nat, now: nat): map<string, Entry<V>> {
    entries[key := Entry(value, now + ttl * 1000)]
  }

  /** A value set is returned up to its expiry and no longer, and every other
      key answers as before. */
  lemma PutGet<V>(entries: map<string, Entry<V>>, key: string, value: V, ttl: nat, now: nat)
    ensures forall t :: now <= t <= now + ttl * 1000 ==> Get(Put(entries, key, value, ttl, now), key, t) == Some(value)
    ensures forall t :: t > now + ttl * 1000 ==> Get(Put(entries, key, value, ttl, now), key, t) == None
    ensures forall k, t :: k != key ==> Get(Put(entries, key, value, ttl, now), k, t) == Get(entries, k, t)
  {
  }

  class Cache<V> {
    var entries: map<string, Entry<V>>

    constructor ()
      ensures entries == map[]
    {
      entries := map[];
    }

    /** `cache.get(key)` at time `now`: the stored value while it has not expired. */
    function Lookup(key: string, now: nat): Option<V>
      reads this
    {
      Get(entries, key, now)
    }

    /** `cache.set(key, value, ttl)` at time `now`; every other key keeps its entry. */
    method Set(key: string, value: V, ttl: nat, now: nat)
      modifies this
      ensures entries == Put(old(entries), key, value, ttl, now)
      ensures forall t :: now <= t <= now + ttl * 1000 ==> Lookup(key, t) == Some(value)
      ensures forall k, t :: k != key ==> Lookup(k, t) == old(Lookup(k, t))
    {
      entries := entries[key := Entry(value, now + ttl * 1000)];
    }
  }
}
