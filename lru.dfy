/** The bounded container the cache stores into (an external LRU library), seen only
    through its interface: a map of at most `capacity` entries. Which entry an insertion
    evicts, and the recency order that decides it, belong to the library and are left
    open: any one other entry may go. */
module Lru {
  import opened Values

  class LruCache<K(==)> {
    const capacity: nat
    var items: map<K, Value>

    ghost predicate Valid()
      reads this
    {
      capacity >= 1 && |items| <= capacity
    }

    constructor (size: nat)
      requires size >= 1
      ensures Valid() && capacity == size && items == map[]
    {
      capacity := size;
      items := map[];
    }

    /** Looks `key` up (the library also marks it recently used). */
    method Get(key: K) returns (v: Value, ok: bool)
      ensures ok == (key in items)
      ensures v == if ok then items[key] else Nil
    {
      ok := key in items;
      v := if ok then items[key] else Nil;
    }

    /** Looks `key` up without marking it recently used. */
    method Peek(key: K) returns (v: Value, ok: bool)
      ensures ok == (key in items)
      ensures v == if ok then items[key] else Nil
    {
      ok := key in items;
      v := if ok then items[key] else Nil;
    }

    /** Stores `v` under `key`; when a new key finds the container full, one other
        entry is evicted. */
    method Add(key: K, v: Value) returns (evicted: bool)
      requires Valid()
      modifies this
      ensures Valid()
      ensures key in items && items[key] == v
      ensures forall k :: k in items && k != key ==> k in old(items) && items[k] == old(items)[k]
      ensures evicted == (key !in old(items) && |old(items)| == capacity)
      ensures !evicted ==> items == old(items)[key := v]
      ensures evicted ==> |items| == |old(items)|
    {
      evicted := key !in items && |items| == capacity;
      if evicted {
        assert items.Keys != {};
        var victim :| victim in items.Keys;
        assert (items - {victim}).Keys == items.Keys - {victim};
        items := items - {victim};
      }
      items := items[key := v];
    }

    /** Removes `key`, answering whether it was present. */
    method Remove(key: K) returns (present: bool)
      requires Valid()
      modifies this
      ensures Valid()
      ensures present == (key in old(items))
      ensures items == old(items) - {key}
    {
      present := key in items;
      if present {
        assert (items - {key}).Keys == items.Keys - {key};
      }
      items := items - {key};
    }
  }
}
