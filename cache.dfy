/** A read-through LRU cache: a lookup that misses, or finds only an expired value, runs
    the configured loader once through a duplicate-call group and stores what it returns.

    The clock is the parameter `now`, one instant per operation (it serves both the expiry
    check and the timestamp of a value stored by the same operation). The loader is an
    oracle: its answer to this lookup, `(loaded, loadErr)`, is a parameter of `Get`, and
    the ghost log `loads` records every key the loader was asked for. Operations run one
    at a time, so no load is in flight between them. */
module Sfcache {
  import opened Values
  import Lru
  import Singleflight

  /** The capacity used when the configuration leaves it zero. */
  const DefaultCapacity: nat := 1000

  /** The cache's settings: `Load` (present or nil; the loader's answers are supplied to
      `Get`), the capacity and the maximum age of a value (a duration; 0 means values
      never expire). `New` writes the default capacity back into it. */
  class Config {
    var hasLoad: bool
    var capacity: int
    var maxAge: int

    constructor (hasLoad: bool, capacity: int, maxAge: int)
      ensures this.hasLoad == hasLoad && this.capacity == capacity && this.maxAge == maxAge
    {
      this.hasLoad, this.capacity, this.maxAge := hasLoad, capacity, maxAge;
    }
  }

  /** The four ways `New` rejects a configuration. */
  datatype ConfigError =
    | ConfigRequired       // "config required"
    | LoadRequired         // "config.Load required"
    | CapacityNotPositive  // "config.Capacity must be positive"
    | MaxAgeNegative       // "config.MaxAge must be positive"

  /** What a valid configuration gives the cache: its container's capacity and its
      maximum age. */
  datatype Settings = Settings(capacity: nat, maxAge: nat)

  /** The checks `New` performs, in its order. */
  function Validate(config: Config?): (r: Outcome<Settings, ConfigError>)
    reads config
    ensures r.Ok? <==> config != null && config.hasLoad && config.capacity >= 0 && config.maxAge >= 0
    ensures config == null ==> r == Err(ConfigRequired)
    ensures config != null && !config.hasLoad ==> r == Err(LoadRequired)
    ensures config != null && config.hasLoad && config.capacity < 0 ==> r == Err(CapacityNotPositive)
    ensures config != null && config.hasLoad && config.capacity >= 0 && config.maxAge < 0 ==>
              r == Err(MaxAgeNegative)
    ensures r.Ok? ==> r.value.capacity >= 1 && r.value.maxAge == config.maxAge
    ensures r.Ok? && config.capacity == 0 ==> r.value.capacity == DefaultCapacity
    ensures r.Ok? && config.capacity != 0 ==> r.value.capacity == config.capacity
  {
    if config == null then Err(ConfigRequired)
    else if !config.hasLoad then Err(LoadRequired)
    else if config.capacity < 0 then Err(CapacityNotPositive)
    else if config.maxAge < 0 then Err(MaxAgeNegative)
    else Ok(Settings(if config.capacity == 0 then DefaultCapacity else config.capacity, config.maxAge))
  }

  /** Filters a container lookup `(v, ok)`: a miss or a nil value is not found; with no
      maximum age any other value is found as stored; otherwise the value is an entry,
      found with its payload while it is younger than `maxAge`. (A non-entry value under a
      maximum age would make the source panic, so it is excluded.) */
  function Unexpired(v: Value, ok: bool, maxAge: nat, now: int): (r: (Value, bool))
    requires ok && v != Nil && maxAge != 0 ==> v.EntryRef?
    ensures r.1 <==> ok && v != Nil && (maxAge == 0 || now - v.entry.time < maxAge)
    ensures r.1 && maxAge == 0 ==> r.0 == v
    ensures r.1 && maxAge != 0 ==> r.0 == v.entry.value
    ensures !r.1 ==> r.0 == Nil
  {
    if ok && v != Nil then
      if maxAge == 0 then (v, ok)
      else if now - v.entry.time < maxAge then (v.entry.value, ok)
      else (Nil, false)
    else (Nil, false)
  }

  /** Expiry is permanent: an entry not found at `now` is not found at any later time. */
  lemma ExpiredStaysExpired(e: Entry, maxAge: nat, now: int, later: int)
    requires maxAge != 0 && now <= later
    requires !Unexpired(EntryRef(e), true, maxAge, now).1
    ensures Unexpired(EntryRef(e), true, maxAge, later) == (Nil, false)
  {
  }

  class Cache<K(==)> {
    const maxAge: nat
    const lru: Lru.LruCache<K>
    const group: Singleflight.Group<K>
    ghost var loads: seq<K>

    /** The container is well formed and, under a maximum age, every stored value is
        an entry. */
    ghost predicate StoreValid()
      reads this, lru
    {
      && lru.Valid()
      && (maxAge != 0 ==> forall k :: k in lru.items ==> lru.items[k].EntryRef?)
    }

    /** The store is well formed and no load is in flight. */
    ghost predicate Valid()
      reads this, lru, group
    {
      StoreValid() && group.m == map[] && group.Valid()
    }

    /** What a lookup of `key` at time `now` finds: the stored value, filtered. */
    ghost function Lookup(key: K, now: int): (Value, bool)
      reads this, lru, group
      requires Valid()
    {
      if key in lru.items then Unexpired(lru.items[key], true, maxAge, now)
      else Unexpired(Nil, false, maxAge, now)
    }

    constructor (capacity: nat, maxAge: nat)
      requires capacity >= 1
      ensures Valid() && fresh(lru) && fresh(group)
      ensures this.maxAge == maxAge && lru.capacity == capacity && lru.items == map[]
      ensures loads == []
    {
      this.maxAge := maxAge;
      lru := new Lru.LruCache(capacity);
      group := new Singleflight.Group();
      loads := [];
    }

    /** Returns the value cached for `key` at time `now`, or runs the loader. */
    method Get(key: K, now: int, loaded: Value, loadErr: Error) returns (v: Value, err: Error)
      requires Valid()
      modifies this, lru, group
      ensures Valid()
      ensures group.sent == old(group.sent) && group.nextChan == old(group.nextChan)
      ensures old(Lookup(key, now)).1 ==>
                v == old(Lookup(key, now)).0 && err == NoError &&
                loads == old(loads) && lru.items == old(lru.items)
      ensures !old(Lookup(key, now)).1 ==> loads == old(loads) + [key]
      ensures !old(Lookup(key, now)).1 && (loadErr != NoError || loaded == Nil) ==>
                v == Nil && err == ErrNotFound && lru.items == old(lru.items)
      ensures !old(Lookup(key, now)).1 && loadErr == NoError && loaded != Nil ==>
                v == loaded && err == NoError && Stored(old(lru.items), key, now, loaded) &&
                Lookup(key, now) == (loaded, true)
    {
      var sv, ok := lru.Get(key);
      var u := Unexpired(sv, ok, maxAge, now);
      if u.1 {
        return u.0, NoError;
      }
      v, err := Do(key, now, loaded, loadErr);
    }

    /** Returns what a lookup of `key` at time `now` finds, without marking it used. */
    method Peek(key: K, now: int) returns (v: Value, found: bool)
      requires Valid()
      ensures (v, found) == Lookup(key, now)
    {
      var sv, ok := lru.Peek(key);
      var u := Unexpired(sv, ok, maxAge, now);
      v, found := u.0, u.1;
    }

    /** Removes `key` from the container, answering whether it was there. */
    method Remove(key: K) returns (present: bool)
      requires Valid()
      modifies lru
      ensures Valid()
      ensures present == (key in old(lru.items))
      ensures lru.items == old(lru.items) - {key}
    {
      present := lru.Remove(key);
    }

    /** The container holds `loaded` under `key`, stored as of `now`; every other entry is
        one it held in `before`; no other entry was lost unless a new key met a full
        container, and then exactly one was. */
    ghost predicate Stored(before: map<K, Value>, key: K, now: int, loaded: Value)
      reads this, lru
    {
      && key in lru.items
      && lru.items[key] == (if maxAge == 0 then loaded else EntryRef(Entry(now, loaded)))
      && (forall k :: k in lru.items && k != key ==> k in before && lru.items[k] == before[k])
      && (key in before || |before| < lru.capacity ==> before.Keys - {key} <= lru.items.Keys)
      && (key !in before && |before| == lru.capacity ==> |lru.items| == |before|)
    }

    /** The function `do` runs under the group: asks the loader for `key`; an error or a
        nil value becomes `ErrNotFound` and stores nothing; any other value is stored (as
        is without a maximum age, otherwise in an entry stamped `now`) and returned. */
    method LoadAndStore(key: K, now: int, loaded: Value, loadErr: Error) returns (v: Value, err: Error)
      requires StoreValid()
      modifies this`loads, lru
      ensures StoreValid()
      ensures loads == old(loads) + [key]
      ensures loadErr != NoError || loaded == Nil ==>
                v == Nil && err == ErrNotFound && lru.items == old(lru.items)
      ensures loadErr == NoError && loaded != Nil ==>
                v == loaded && err == NoError && Stored(old(lru.items), key, now, loaded)
    {
      loads := loads + [key];
      if loadErr != NoError || loaded == Nil {
        return Nil, ErrNotFound;
      }
      var evicted;
      if maxAge == 0 {
        evicted := lru.Add(key, loaded);
      } else {
        evicted := lru.Add(key, EntryRef(Entry(now, loaded)));
      }
      return loaded, NoError;
    }

    /** Loads `key` through the group: an error or a nil value from the loader becomes
        `ErrNotFound` and stores nothing; any other value is stored (as is without a
        maximum age, otherwise in an entry stamped `now`) and returned. */
    method Do(key: K, now: int, loaded: Value, loadErr: Error) returns (v: Value, err: Error)
      requires Valid()
      modifies this, lru, group
      ensures Valid()
      ensures group.sent == old(group.sent) && group.nextChan == old(group.nextChan)
      ensures loads == old(loads) + [key]
      ensures loadErr != NoError || loaded == Nil ==>
                v == Nil && err == ErrNotFound && lru.items == old(lru.items)
      ensures loadErr == NoError && loaded != Nil ==>
                v == loaded && err == NoError && Stored(old(lru.items), key, now, loaded) &&
                Lookup(key, now) == (loaded, true)
    {
      var call, joined := group.BeginDo(key);
      assert !joined && group.m == map[key := call];
      var fv, ferr := LoadAndStore(key, now, loaded, loadErr);
      group.DoCall(call, key, fv, ferr);
      Singleflight.RegisterThenDelete(map[], key, call);
      assert Singleflight.Broadcast([], Singleflight.Result(fv, ferr, call.dups > 0)) == [];
      var shared;
      v, err, shared := Singleflight.Await(call, joined);
      if err != NoError {
        return Nil, err;
      }
    }
  }

  /** Creates a cache from `config`, or says why the configuration is rejected. A zero
      capacity is replaced by the default in `config` itself, before the maximum age is
      checked. */
  method New<K(==)>(config: Config?) returns (r: Outcome<Cache<K>, ConfigError>)
    modifies config
    ensures config != null ==> config.hasLoad == old(config.hasLoad) && config.maxAge == old(config.maxAge)
    ensures config != null && old(config.hasLoad) && old(config.capacity) == 0 ==>
              config.capacity == DefaultCapacity
    ensures config != null && !(old(config.hasLoad) && old(config.capacity) == 0) ==>
              config.capacity == old(config.capacity)
    ensures old(Validate(config)).Err? ==> r == Err(old(Validate(config)).error)
    ensures old(Validate(config)).Ok? ==>
              && r.Ok? && fresh(r.value) && r.value.Valid()
              && r.value.maxAge == old(Validate(config)).value.maxAge
              && r.value.lru.capacity == old(Validate(config)).value.capacity
              && r.value.lru.items == map[] && r.value.loads == []
  {
    if config == null {
      return Err(ConfigRequired);
    }
    if !config.hasLoad {
      return Err(LoadRequired);
    }
    if config.capacity == 0 {
      config.capacity := DefaultCapacity;
    } else if config.capacity < 1 {
      return Err(CapacityNotPositive);
    }
    if config.maxAge < 0 {
      return Err(MaxAgeNegative);
    }
    var cache := new Cache(config.capacity, config.maxAge);
    return Ok(cache);
  }

  /** A value loaded by `Get` is found by an immediate `Peek`, and a second `Get` at the
      same time returns it without asking the loader. */
  method LoadThenPeek<K(==)>(c: Cache<K>, key: K, now: int, loaded: Value)
    returns (peeked: Value, found: bool, again: Value)
    requires c.Valid() && loaded != Nil
    requires !c.Lookup(key, now).1
    modifies c, c.lru, c.group
    ensures peeked == loaded && found && again == loaded
    ensures c.loads == old(c.loads) + [key]
  {
    var v, err := c.Get(key, now, loaded, NoError);
    peeked, found := c.Peek(key, now);
    again, err := c.Get(key, now, Obj(0), Failure(0));
  }

  /** After `Remove(key)`, `Peek` does not find `key` and the next `Get` asks the loader. */
  method RemoveForcesReload<K(==)>(c: Cache<K>, key: K, now: int, loaded: Value, loadErr: Error)
    returns (found: bool)
    requires c.Valid()
    modifies c, c.lru, c.group
    ensures !found
    ensures c.loads == old(c.loads) + [key]
  {
    var present := c.Remove(key);
    var v;
    v, found := c.Peek(key, now);
    var w, err := c.Get(key, now, loaded, loadErr);
  }
}
