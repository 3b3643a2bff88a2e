/** The in-memory cache service: a module-level `Map` from keys to cached
    analysis results, read with `get(key) || null` and written with `set`. */
module CacheService {
  import opened Prelude

  /** What `getCachedValue(key)` hands back for the table `entries`: the stored
      value, or nothing when the key is missing or its value is falsy (for a
      string, the empty string). */
  function Lookup(entries: map<string, string>, key: string): (r: Option<string>)
  {
    if key in entries && entries[key] != "" then Some(entries[key]) else None
  }

  /** The `Map` behind the cache, updated in place. */
  class Cache {
    var entries: map<string, string>

    constructor ()
      ensures entries == map[]
    {
      entries := map[];
    }

    /** `getCachedValue(key)`: `cache.get(key) || null`. */
    method Get(key: string) returns (r: Option<string>)
      ensures r.Some? <==> key in entries && entries[key] != ""
      ensures r.Some? ==> r.value == entries[key]
    {
      r := Lookup(entries, key);
    }

    /** `setCachedValue(key, value)`: `cache.set(key, value)`; an existing entry
        is overwritten. */
    method Set(key: string, value: string)
      modifies this
      ensures entries == old(entries)[key := value]
      ensures Lookup(entries, key) == if value == "" then None else Some(value)
      ensures forall k :: k != key ==> Lookup(entries, k) == Lookup(old(entries), k)
    {
      entries := entries[key := value];
    }
  }

  /** The laws of the cache: a key never set reads as nothing; a non-empty value
      reads back as itself after it is set, an empty one as nothing; a set
      leaves every other key as it was; the last of two sets on one key wins. */
  lemma CacheLaws(entries: map<string, string>, key: string, other: string, v: string, w: string)
    ensures key !in entries ==> Lookup(entries, key) == None
    ensures Lookup(entries[key := v], key) == (if v == "" then None else Some(v))
    ensures other != key ==> Lookup(entries[key := v], other) == Lookup(entries, other)
    ensures entries[key := v][key := w] == entries[key := w]
  {
  }
}
