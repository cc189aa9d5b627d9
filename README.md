# sfcache: a read-through LRU cache with duplicate-call suppression

This project models the two sequential cores of sfcache and proves properties of them.

- **The duplicate-call registry** (`internal/singleflight`, module `Singleflight`).
  A `Group` maps each key to the one call in flight for it. A `Call` is an object, as the
  source's `*call` is. It has a result (`val`, `err`) written once on completion, a
  duplicate counter `dups` and the queue `chans` of `DoChan` channels. `BeginDo` is the
  registering half of `Do`: it either joins the registered call or registers a fresh one.
  Completion (`doCall`) takes two steps, as in the source. `Finish` records the result
  and ends the wait. `Release` then deletes the key and sends on every queued channel.
  A caller can arrive between the two steps. It joins the finished call, gets its result
  at once and makes the initiator's result shared (`LateJoinerSeesFinishedCall`).
  `DoCall` runs both steps in a row. `Await` is what `Do` returns once the wait ends.
  A channel is a `ChanId` that `DoChan` creates from a counter. Every send is appended to
  the group's log `sent`, and `Inbox` reads one channel's results from that log. The
  invariant `Group.Valid` holds after every step. Each registered call is registered
  under its own key and has not been released, and its channels are distinct. Every
  channel queued or sent to so far was created by the group.
  Completion deletes by key, not by call, and the model keeps this.
  `StaleCompletionDropsNewerCall` shows the consequence. A call is forgotten by
  `ForgetUnshared` and a new call is registered under the same key. The old call then
  completes and unregisters the new call while the new call is still running.
- **The read-through cache** (`cache.go`, module `Sfcache`). `Validate` holds the
  configuration checks of `New`. `Unexpired` is the expiry filter, a pure function of the
  stored value, the maximum age and the clock `now`. The `Cache` class holds `Get`,
  `Peek`, `Remove` and `Do` (the source's `do`) over the external LRU container. The
  container is modelled in module `Lru` only through its interface: a map of at most
  `capacity` entries, where `Add` of a new key into a full map evicts some other entry.
  The loader is an oracle. Its answer `(loaded, loadErr)` is a parameter of `Get`, and the
  ghost log `Cache.loads` records each key the loader was asked for. The cache's group is
  a `Singleflight.Group`. The group type of package `sfcache` is not part of this model;
  it is taken to behave as the singleflight group does.

Values are Go's `interface{}` (`Values.Value`): nil, an opaque object, or a pointer to
the cache's `entry` record. Errors are `Values.Error`: nil, `ErrNotFound` or any other
error.

## Model

| member | source | states |
|---|---|---|
| `Singleflight.Call.constructor` | internal/singleflight/singleflight.go:11-25 | a new call has no result yet, no duplicates, the given channel queue, and is not done |
| `Singleflight.Group.constructor` | internal/singleflight/singleflight.go:27-32 | the zero group has an empty registry (the lazily created map) and has sent nothing |
| `Singleflight.Group.BeginDo` | internal/singleflight/singleflight.go:47-61 | on a registered key: returns that call, increments its `dups` by exactly 1, registers nothing and marks the caller as joined; on an absent key: registers a fresh call with `dups = 0` under that key only; keeps the registry invariant |
| `Singleflight.Group.DoChan` | internal/singleflight/singleflight.go:71-91 | creates a new channel `ch`; on an absent key: returns `true` and registers a fresh call whose queue is exactly `[ch]`; on a registered key: appends `ch` to that call's queue, increments `dups` by 1 and returns `false`; queues stay free of repeated channels |
| `Singleflight.Group.Finish` | internal/singleflight/singleflight.go:95-96 | records `val`/`err` and ends the wait; the call stays registered and nothing else changes; a call is finished only once |
| `Singleflight.Group.Release` | internal/singleflight/singleflight.go:98-103 | for a call whose channels the group created: removes `key` from the registry whichever call it maps to (other keys unchanged) and appends one send of `Result{val, err, dups > 0}` per queued channel, in queue order, with `dups` read at this point; each queued channel's inbox gains exactly one result, every other inbox is unchanged |
| `Singleflight.Group.DoCall` | internal/singleflight/singleflight.go:93-104 | both completion steps in a row: the result is recorded, `key` is unregistered and every queued channel is sent `Result{val, err, dups > 0}` in queue order |
| `Singleflight.DistinctOccursOnce` | internal/singleflight/singleflight.go:72-79 | a channel in a queue without repetitions (as queues of channels each created fresh are) is counted exactly once |
| `Singleflight.LateJoinerSeesFinishedCall` | internal/singleflight/singleflight.go:52-64 | a `Do` caller arriving between the result being recorded and the key being released joins the finished call, gets its result as shared, and turns the initiator's `shared` to true |
| `Singleflight.Group.ForgetUnshared` | internal/singleflight/singleflight.go:106-123 | absent key: returns true, registry unchanged; `dups == 0`: deletes exactly that key, returns true; `dups > 0`: returns false, registry unchanged |
| `Singleflight.Await` | internal/singleflight/singleflight.go:52-64 | a joiner returns once the result is recorded, the initiator only once the whole completion (release included) is over; every caller gets the call's own `val`/`err`; `shared` is true for a joiner and `dups > 0` for the initiator |
| `Singleflight.Broadcast` | internal/singleflight/singleflight.go:100-102 | the sends of a completing call: exactly one per queued channel, in queue order, each carrying the same result |
| `Singleflight.BroadcastDeliversOnce` | internal/singleflight/singleflight.go:100-102 | each channel receives as many copies of the one result as it occurs in the queue: a channel queued once receives exactly one, an unqueued one none |
| `Singleflight.BroadcastInboxes` | internal/singleflight/singleflight.go:100-102 | after a completing call's sends are appended to the log, every channel of a queue without repeats has exactly one more result, and every other channel's inbox is unchanged |
| `Singleflight.JoinersShareResult` | internal/singleflight/singleflight.go:52-64 | two `Do` callers on an idle key: the initiator and the joiner receive the same `val`/`err`, both with `shared = true`, and the key is unregistered afterwards |
| `Singleflight.LoneCallerNotShared` | internal/singleflight/singleflight.go:58-64 | a lone `Do` caller receives its function's result with `shared = false` and leaves the registry as it found it |
| `Singleflight.QueueTwoWaiters` | internal/singleflight/singleflight.go:72-90 | two `DoChan` callers on an idle key: the first gets the next channel and registers a fresh call on it, the second gets the channel after it and is queued on that call with `dups = 1`; nothing is sent |
| `Singleflight.DoChanWaitersReceiveOnce` | internal/singleflight/singleflight.go:72-102 | two `DoChan` callers on an idle key get different channels: the first starts the call, the second is queued; after completion each channel has received exactly one result, the same shared one, in append order, and the registry is as before |
| `Singleflight.UnusedChannelInboxEmpty` | internal/singleflight/singleflight.go:72 | a channel the group has not created yet has received nothing |
| `Singleflight.FreshPairInboxes` | internal/singleflight/singleflight.go:72-102 | sending one result to each of the next two channels leaves each of their inboxes holding exactly that result |
| `Singleflight.StaleCompletionDropsNewerCall` | internal/singleflight/singleflight.go:94-120 | forget an unshared call, register a new one under the same key, complete the old one: the new, still running call is unregistered, and a further `Do` starts a third call instead of joining |
| `Sfcache.Config.constructor` | cache.go:30-40 | a configuration holds the given loader presence, capacity and maximum age |
| `Sfcache.Validate` | cache.go:43-57 | rejects a nil config, a nil `Load`, a negative `Capacity`, then a negative `MaxAge`, in that order; succeeds exactly otherwise, with capacity 1000 for a zero `Capacity`, else `Capacity`, and `maxAge = MaxAge` |
| `Sfcache.New` | cache.go:42-72 | returns `Validate`'s error or a fresh valid cache with an empty container of the validated capacity and `maxAge`; writes 1000 into a zero `Capacity` of the caller's config, even when `MaxAge` is then rejected |
| `Sfcache.Unexpired` | cache.go:93-103 | found exactly when the lookup hit a non-nil value and either `maxAge == 0` or `now - entry.time < maxAge`; the value is the stored one unchanged when `maxAge == 0`, else `entry.value`; not found means `(nil, false)` |
| `Sfcache.ExpiredStaysExpired` | cache.go:98-102 | an entry not found at `now` is not found at any later time |
| `Sfcache.Cache.constructor` | cache.go:64-69 | a new cache has the given `maxAge`, an empty container of the given capacity, an idle group and no loads |
| `Sfcache.Cache.Get` | cache.go:74-80 | the group sends nothing and creates no channel; a live cached value is returned without asking the loader and without changing the container; otherwise it behaves as `Do`: the loader is asked once, an error or nil answer gives `ErrNotFound` and leaves the container unchanged, a value is stored and returned, other entries are kept unless a new key met a full container (then exactly one is evicted), and a lookup at the same `now` finds it |
| `Sfcache.Cache.Peek` | cache.go:82-86 | returns exactly what the filtered lookup of the key at `now` finds, changing nothing |
| `Sfcache.Cache.Remove` | cache.go:88-91 | removes the key from the container and answers whether it was there |
| `Sfcache.Cache.LoadAndStore` | cache.go:106-119 | the function `do` runs under the group: the loader is asked once; an error or nil answer gives `(nil, ErrNotFound)` and leaves the container unchanged; a value is stored under `key` raw when `maxAge == 0`, else as `entry{now, v}`, keeping every other entry unless a new key met a full container (then exactly one is evicted), and is returned |
| `Sfcache.Cache.Do` | cache.go:105-125 | the group is left idle, with nothing sent; the loader is asked once; an error or nil result gives `(nil, ErrNotFound)` and stores nothing; a value is stored under `key` raw when `maxAge == 0`, else as `entry{now, v}`, other entries are never changed and are all kept unless a new key met a full container, when exactly one is evicted, the value is returned and is found by a lookup at the same `now` |
| `Sfcache.LoadThenPeek` | cache.go:105-119 | after a successful load, `Peek` at the same `now` finds the value and a second `Get` returns it without asking the loader |
| `Sfcache.RemoveForcesReload` | cache.go:75-91 | after `Remove(key)`, `Peek(key)` finds nothing and the next `Get(key)` asks the loader again |

## Left out

- Blocking and scheduling: the mutex, the wait group and the goroutine of `DoChan` are not modelled. Completion is the two explicit steps `Finish` and `Release`, taken by the environment in any interleaving with other calls. The wait that `Await` stands for is `c.wg.Wait` for a joiner, so it requires the call to be finished, and the whole of `doCall` for the initiator, so it requires the call to be released as well.
- Channels: a channel is an identifier that `DoChan` takes from a counter. Its one-slot buffer and blocking sends are not modelled; a send is an entry in the group's log.
- Joiners at the cache level: every cache operation runs to completion before the next one starts, so `Cache.Valid` requires an idle group. Concurrent loads of one key are covered by the singleflight model only.
- LRU internals: the recency order, the choice of the evicted entry, and the error of `lru.New`, which cannot occur because the capacity is always at least 1. `Lru.LruCache.Get` and `Lru.LruCache.Peek` act alike on the map because recency is not represented.
- Wall-clock time: `time.Now` and `time.Since` are the parameter `now`. One `Get` uses a single `now` both for its expiry check and for the timestamp of what it stores. Overflow of 64-bit durations is not modelled.
- `context.Context`: it is only passed on to the loader, which is an oracle here. Of `Config.Load` only whether it is nil is modelled.
- `Sfcache.Unexpired`: a non-entry value found under a nonzero maximum age would make the source's type assertion panic. The function's precondition excludes that case, and `Cache.Valid` keeps it from arising.
- The group type of package `sfcache` is not part of this model. Its behaviour is taken from the singleflight group.
- `cache_test.go` exercises a different interface (`New(size, loader)`, `Load`, `Delete`, per-entry expiry). Only its steps that agree with `cache.go` are reflected, in `LoadThenPeek` and `RemoveForcesReload`.
