/**
 * The verifier's result cache: a map from the address, exactly as given, to the
 * stored result and the instant it expires. Every entry lives for the standard
 * time-to-live of 86400 seconds from the moment it is stored; a lookup after
 * that instant is a miss. Time is a millisecond clock reading passed in.
 */
module Cache {
  import opened Wrappers

  const TTL_SECONDS := 86400
  const TTL_MS := TTL_SECONDS * 1000

  datatype Entry<V> = Entry(value: V, expiresAt: int)

  type Store<V> = map<string, Entry<V>>

  /** An entry is served up to and including its expiry instant. */
  predicate IsLive<V>(e: Entry<V>, now: int) {
    now <= e.expiresAt
  }

  /** `cache.get(key)`. */
  function Get<V>(store: Store<V>, key: string, now: int): Option<V> {
    if key in store && IsLive(store[key], now) then Some(store[key].value) else None
  }

  /** `cache.set(key, value)` at time `now`: the entry replaces any earlier one. */
  function Set<V>(store: Store<V>, key: string, value: V, now: int): Store<V> {
    store[key := Entry(value, now + TTL_MS)]
  }

  /** A stored value is served unchanged exactly during the time-to-live after storing. */
  lemma GetAfterSet<V>(store: Store<V>, key: string, value: V, storedAt: int, now: int)
    ensures Get(Set(store, key, value, storedAt), key, now) ==
            if now <= storedAt + TTL_SECONDS * 1000 then Some(value) else None
  {
  }

  /** Storing under one key leaves every other key's lookups as they were. */
  lemma SetKeepsOtherKeys<V>(store: Store<V>, key: string, other: string, value: V, storedAt: int, now: int)
    requires other != key
    ensures Get(Set(store, key, value, storedAt), other, now) == Get(store, other, now)
  {
  }

  /** An expired entry stays expired: a miss at one time is a miss at every later time. */
  lemma ExpiryIsPermanent<V>(store: Store<V>, key: string, earlier: int, later: int)
    requires earlier <= later
    requires Get(store, key, earlier).None?
    ensures Get(store, key, later).None?
  {
  }
}
