/** Duplicate function call suppression: a registry from key to the one in-flight call
    for that key. Blocking is not modelled. A call completes in two explicit steps taken
    by whoever runs the function: `Finish` records the result and ends the wait, then
    `Release` unregisters the key and sends on the call's channels. A channel is an
    identifier that receives the sends recorded in the group's log. */
module Singleflight {
  import opened Values

  /** A channel created by `DoChan`. */
  type ChanId = nat

  /** No channel occurs twice in `chans`. */
  predicate Distinct(chans: seq<ChanId>)
  {
    forall i, j :: 0 <= i < j < |chans| ==> chans[i] != chans[j]
  }

  /** A channel that occurs once in a queue without repetitions is counted once. */
  lemma {:induction false} DistinctOccursOnce(chans: seq<ChanId>, ch: ChanId)
    requires Distinct(chans) && ch in chans
    ensures multiset(chans)[ch] == 1
  {
    var rest := chans[1..];
    assert chans == [chans[0]] + rest;
    assert multiset(chans) == multiset{chans[0]} + multiset(rest);
    assert Distinct(rest) by {
      forall i, j | 0 <= i < j < |rest| ensures rest[i] != rest[j] {
        assert rest[i] == chans[i + 1] && rest[j] == chans[j + 1];
      }
    }
    if chans[0] == ch {
      assert ch !in rest by {
        forall i | 0 <= i < |rest| ensures rest[i] != ch {
          assert rest[i] == chans[i + 1];
        }
      }
    } else {
      DistinctOccursOnce(rest, ch);
    }
  }

  /** What a completed call hands to its callers and sends on its channels. */
  datatype Result = Result(val: Value, err: Error, shared: bool)

  /** One send `ch <- result`. */
  datatype Delivery = Delivery(ch: ChanId, result: Result)

  /** The sends a completing call performs: one per queued channel, in queue order. */
  function Broadcast(chans: seq<ChanId>, r: Result): (sends: seq<Delivery>)
    ensures |sends| == |chans|
    ensures forall i :: 0 <= i < |chans| ==> sends[i].ch == chans[i] && sends[i].result == r
  {
    if chans == [] then [] else [Delivery(chans[0], r)] + Broadcast(chans[1..], r)
  }

  /** The results received on channel `ch`, in the order they were sent. */
  function Inbox(sends: seq<Delivery>, ch: ChanId): seq<Result>
  {
    if sends == [] then []
    else (if sends[0].ch == ch then [sends[0].result] else []) + Inbox(sends[1..], ch)
  }

  /** The inbox of a concatenation is the concatenation of the inboxes. */
  lemma {:induction false} InboxAppend(a: seq<Delivery>, b: seq<Delivery>, ch: ChanId)
    ensures Inbox(a + b, ch) == Inbox(a, ch) + Inbox(b, ch)
  {
    if a == [] {
      assert a + b == b;
    } else {
      var head := if a[0].ch == ch then [a[0].result] else [];
      assert (a + b)[0] == a[0] && (a + b)[1..] == a[1..] + b;
      assert Inbox(a + b, ch) == head + Inbox(a[1..] + b, ch);
      InboxAppend(a[1..], b, ch);
      assert Inbox(a, ch) == head + Inbox(a[1..], ch);
    }
  }

  /** Every send in `sends` went to a channel below `bound`. */
  predicate SentBelow(sends: seq<Delivery>, bound: ChanId)
  {
    forall i :: 0 <= i < |sends| ==> sends[i].ch < bound
  }

  /** A channel at or above `bound` has received nothing from sends all below it. */
  lemma {:induction false} UnusedChannelInboxEmpty(sends: seq<Delivery>, bound: ChanId, ch: ChanId)
    requires SentBelow(sends, bound) && bound <= ch
    ensures Inbox(sends, ch) == []
  {
    if sends != [] {
      assert SentBelow(sends[1..], bound) by {
        forall i | 0 <= i < |sends[1..]| ensures sends[1..][i].ch < bound {
          assert sends[1..][i] == sends[i + 1];
        }
      }
      UnusedChannelInboxEmpty(sends[1..], bound, ch);
      assert sends[0].ch < bound;
    }
  }

  /** Two sends of `r` to the two channels just above every earlier send: each of the
      two inboxes gains `r`, and holds nothing else. */
  lemma FreshPairInboxes(before: seq<Delivery>, bound: ChanId, r: Result)
    requires SentBelow(before, bound)
    ensures Inbox(before + [Delivery(bound, r), Delivery(bound + 1, r)], bound) == Inbox(before, bound) + [r] == [r]
    ensures Inbox(before + [Delivery(bound, r), Delivery(bound + 1, r)], bound + 1) == Inbox(before, bound + 1) + [r] == [r]
  {
    var pair := [Delivery(bound, r), Delivery(bound + 1, r)];
    UnusedChannelInboxEmpty(before, bound, bound);
    UnusedChannelInboxEmpty(before, bound, bound + 1);
    InboxAppend(before, pair, bound);
    InboxAppend(before, pair, bound + 1);
    assert pair[1..] == [Delivery(bound + 1, r)] && pair[1..][1..] == [];
    assert Inbox(pair[1..], bound) == [] && Inbox(pair[1..], bound + 1) == [r];
    assert Inbox(pair, bound) == [r] && Inbox(pair, bound + 1) == [r];
  }

  /** `n` copies of result `r`. */
  function Copies(n: nat, r: Result): seq<Result>
  {
    if n == 0 then [] else [r] + Copies(n - 1, r)
  }

  /** A broadcast gives each channel exactly as many copies of the one result as the
      channel occurs in the queue: a channel queued once receives exactly one result,
      a channel not queued receives nothing. */
  lemma {:induction false} BroadcastDeliversOnce(chans: seq<ChanId>, r: Result, ch: ChanId)
    ensures Inbox(Broadcast(chans, r), ch) == Copies(multiset(chans)[ch], r)
  {
    if chans != [] {
      CountHead(chans, ch);
      InboxHead(chans, r, ch);
      BroadcastDeliversOnce(chans[1..], r, ch);
      var n := multiset(chans[1..])[ch];
      if chans[0] == ch {
        assert Copies(n + 1, r) == [r] + Copies(n, r);
      }
    }
  }

  /** The count of `ch` in a queue splits into its head and its tail. */
  lemma CountHead(chans: seq<ChanId>, ch: ChanId)
    requires chans != []
    ensures multiset(chans)[ch] == multiset(chans[1..])[ch] + (if chans[0] == ch then 1 else 0)
  {
    assert chans == [chans[0]] + chans[1..];
  }

  /** The inbox of a broadcast splits into the send to the head and the broadcast to
      the tail. */
  lemma InboxHead(chans: seq<ChanId>, r: Result, ch: ChanId)
    requires chans != []
    ensures Inbox(Broadcast(chans, r), ch) ==
            (if chans[0] == ch then [r] else []) + Inbox(Broadcast(chans[1..], r), ch)
  {
    var sends := Broadcast(chans, r);
    assert sends[0] == Delivery(chans[0], r) && sends[1..] == Broadcast(chans[1..], r);
  }


  /** Appending a broadcast to queue `chans` of distinct channels adds exactly one
      result to the inbox of every queued channel and nothing to any other inbox. */
  lemma BroadcastInboxes(before: seq<Delivery>, chans: seq<ChanId>, r: Result)
    ensures Distinct(chans) ==> forall ch :: ch in chans ==>
              Inbox(before + Broadcast(chans, r), ch) == Inbox(before, ch) + [r]
    ensures forall ch :: ch !in chans ==>
              Inbox(before + Broadcast(chans, r), ch) == Inbox(before, ch)
  {
    forall ch | true
      ensures Inbox(before + Broadcast(chans, r), ch) ==
              Inbox(before, ch) + Copies(multiset(chans)[ch], r)
    {
      InboxAppend(before, Broadcast(chans, r), ch);
      BroadcastDeliversOnce(chans, r, ch);
    }
    forall ch | ch in chans && Distinct(chans)
      ensures Inbox(before + Broadcast(chans, r), ch) == Inbox(before, ch) + [r]
    {
      DistinctOccursOnce(chans, ch);
      assert Copies(1, r) == [r];
    }
    forall ch | ch !in chans
      ensures Inbox(before + Broadcast(chans, r), ch) == Inbox(before, ch)
    {
      assert multiset(chans)[ch] == 0;
    }
  }

  /** An in-flight or completed call. `val` and `err` are written once, when the function
      returns, and `done` records that the wait on the call has ended; `dups` counts the
      callers that joined after the first, and `chans` the channels waiting for the
      result. `key` records the key the call was registered under, and `released` that
      its completion has unregistered that key and sent on its channels. */
  class Call<K> {
    ghost const key: K
    var val: Value
    var err: Error
    var dups: nat
    var chans: seq<ChanId>
    var done: bool
    ghost var released: bool

    constructor (ghost key: K, chans: seq<ChanId>)
      ensures this.key == key
      ensures val == Nil && err == NoError && dups == 0 && this.chans == chans
      ensures !done && !released
    {
      this.key := key;
      val, err, dups := Nil, NoError, 0;
      this.chans := chans;
      done, released := false, false;
    }

    /** Registered under `k` and not yet released, with distinct channels all below
        `bound`. */
    ghost predicate Registrable(k: K, bound: ChanId)
      reads this
    {
      key == k && !released && Distinct(chans) && forall ch :: ch in chans ==> ch < bound
    }
  }

  /** A namespace of work with duplicate suppression: `m` maps each key to its in-flight
      call, `sent` records every send on a `DoChan` channel, in order, and `nextChan` is
      the next channel `DoChan` creates. */
  class Group<K(==)> {
    var m: map<K, Call<K>>
    var sent: seq<Delivery>
    var nextChan: ChanId

    /** Every registered call is registered under its own key and has not been released
        (it may already be finished: a caller arriving between `Finish` and `Release`
        still joins it). Its channels are distinct and were all created by this group,
        as were the channels of every send so far. */
    ghost predicate Valid()
      reads this, m.Values
    {
      && (forall k :: k in m ==> m[k].Registrable(k, nextChan))
      && SentBelow(sent, nextChan)
    }

    /** The zero `Group`: its map is created lazily in the source, which reads as empty. */
    constructor ()
      ensures Valid() && m == map[] && sent == []
    {
      m, sent, nextChan := map[], [], 0;
    }

    /** The registering half of `Do`: join the call registered for `key`, counting one
        more duplicate, or register a fresh call that this caller will run. */
    method BeginDo(key: K) returns (c: Call<K>, joined: bool)
      requires Valid()
      modifies this, if key in m then {m[key]} else {}
      ensures Valid() && c.key == key && !c.released
      ensures joined == (key in old(m))
      ensures joined ==> c == old(m[key]) && m == old(m)
      ensures joined ==> c.dups == old(c.dups) + 1 && c.chans == old(c.chans)
      ensures joined ==> c.done == old(c.done) && c.val == old(c.val) && c.err == old(c.err)
      ensures !joined ==> fresh(c) && m == old(m)[key := c]
      ensures !joined ==> c.dups == 0 && c.chans == [] && !c.done
      ensures sent == old(sent) && nextChan == old(nextChan)
    {
      if key in m {
        c := m[key];
        c.dups := c.dups + 1;
        joined := true;
      } else {
        c := new Call(key, []);
        m := m[key := c];
        joined := false;
      }
    }

    /** Like `BeginDo`, but creates a channel `ch` for the caller to wait on. `started`
        tells whether the function will run for this caller (a fresh call whose only
        channel is `ch`), or whether `ch` was queued on the call already registered. */
    method DoChan(key: K) returns (ch: ChanId, c: Call<K>, started: bool)
      requires Valid()
      modifies this, if key in m then {m[key]} else {}
      ensures Valid() && c.key == key && !c.released
      ensures ch == old(nextChan) && nextChan == old(nextChan) + 1
      ensures started == (key !in old(m))
      ensures !started ==> c == old(m[key]) && m == old(m)
      ensures !started ==> c.dups == old(c.dups) + 1 && c.chans == old(c.chans) + [ch]
      ensures !started ==> c.done == old(c.done) && c.val == old(c.val) && c.err == old(c.err)
      ensures started ==> fresh(c) && m == old(m)[key := c]
      ensures started ==> c.dups == 0 && c.chans == [ch] && !c.done
      ensures sent == old(sent)
    {
      ch := nextChan;
      nextChan := nextChan + 1;
      if key in m {
        c := m[key];
        assert ch !in c.chans;
        c.dups := c.dups + 1;
        c.chans := c.chans + [ch];
        started := false;
      } else {
        c := new Call(key, [ch]);
        m := m[key := c];
        started := true;
      }
    }

    /** The first half of completing call `c`: the function's result `(v, e)` is recorded
        and the wait on the call ends. The call stays registered. */
    method Finish(c: Call<K>, v: Value, e: Error)
      requires Valid() && !c.done
      modifies c
      ensures Valid()
      ensures c.val == v && c.err == e && c.done
      ensures c.dups == old(c.dups) && c.chans == old(c.chans) && c.released == old(c.released)
    {
      c.val, c.err := v, e;
      c.done := true;
    }

    /** The second half of completing call `c`, begun under `key`: removes `key` from the
        registry (whatever call is registered under it now) and sends one identical
        result on every queued channel, in queue order; `shared` is read now, so it also
        counts callers that joined after `Finish`. The call's channels were created by
        this group (it need not be registered any more, if it was forgotten). */
    method Release(c: Call<K>, key: K)
      requires Valid() && c.key == key && c.done && !c.released
      requires forall ch :: ch in c.chans ==> ch < nextChan
      modifies this, c
      ensures Valid() && c.released
      ensures c.val == old(c.val) && c.err == old(c.err) && c.done
      ensures c.dups == old(c.dups) && c.chans == old(c.chans)
      ensures m == old(m) - {key} && nextChan == old(nextChan)
      ensures sent == old(sent) + Broadcast(c.chans, Result(c.val, c.err, c.dups > 0))
      ensures Distinct(c.chans) ==> forall ch :: ch in c.chans ==>
                Inbox(sent, ch) == Inbox(old(sent), ch) + [Result(c.val, c.err, c.dups > 0)]
      ensures forall ch :: ch !in c.chans ==> Inbox(sent, ch) == Inbox(old(sent), ch)
    {
      c.released := true;
      m := m - {key};
      assert Valid();
      var r := Result(c.val, c.err, c.dups > 0);
      var i := 0;
      while i < |c.chans|
        modifies this`sent
        invariant 0 <= i <= |c.chans|
        invariant sent == old(sent) + Broadcast(c.chans[..i], r)
        invariant SentBelow(sent, nextChan)
      {
        assert c.chans[..i + 1] == c.chans[..i] + [c.chans[i]];
        BroadcastSnoc(c.chans[..i], c.chans[i], r);
        assert c.chans[i] in c.chans;
        sent := sent + [Delivery(c.chans[i], r)];
        i := i + 1;
      }
      assert c.chans[..i] == c.chans;
      BroadcastInboxes(old(sent), c.chans, r);
    }

    /** Completes call `c`, begun under `key`, with the function's result `(v, e)`, both
        halves in a row, as when no caller arrives in between. */
    method DoCall(c: Call<K>, key: K, v: Value, e: Error)
      requires Valid() && c.key == key && !c.done && !c.released
      requires forall ch :: ch in c.chans ==> ch < nextChan
      modifies this, c
      ensures Valid() && c.released
      ensures c.val == v && c.err == e && c.done
      ensures c.dups == old(c.dups) && c.chans == old(c.chans)
      ensures m == old(m) - {key} && nextChan == old(nextChan)
      ensures sent == old(sent) + Broadcast(c.chans, Result(v, e, c.dups > 0))
    {
      Finish(c, v, e);
      Release(c, key);
    }

    /** Forgets `key` unless another caller has joined its call. Answers whether no other
        caller waits: true when the key was unknown or has just been forgotten. */
    method ForgetUnshared(key: K) returns (forgotten: bool)
      requires Valid()
      modifies this
      ensures Valid()
      ensures forgotten == (key !in old(m) || old(m[key].dups) == 0)
      ensures key in old(m) && old(m[key].dups) == 0 ==> m == old(m) - {key}
      ensures !(key in old(m) && old(m[key].dups) == 0) ==> m == old(m)
      ensures sent == old(sent) && nextChan == old(nextChan)
    {
      if key !in m {
        return true;
      }
      if m[key].dups == 0 {
        m := m - {key};
        return true;
      }
      return false;
    }
  }

  /** Broadcasting to one more channel adds one send at the end. */
  lemma BroadcastSnoc(chans: seq<ChanId>, ch: ChanId, r: Result)
    ensures Broadcast(chans + [ch], r) == Broadcast(chans, r) + [Delivery(ch, r)]
  {
  }

  /** Registering a key that was absent and then deleting it restores the registry. */
  lemma RegisterThenDelete<K, C>(m: map<K, C>, key: K, c: C)
    requires key !in m
    ensures m[key := c] - {key} == m
  {
    assert (m[key := c] - {key}).Keys == m.Keys;
  }

  /** What `Do` returns once the wait on call `c` has ended: the call's result, shared
      for a caller that joined, and for the caller that ran the function shared exactly
      when some other caller joined. A joiner's wait ends with `Finish`; the caller that
      ran the function returns only after the whole completion, `Release` included. */
  method Await<K>(c: Call<K>, joined: bool) returns (v: Value, err: Error, shared: bool)
    requires c.done && (joined || c.released)
    ensures v == c.val && err == c.err
    ensures shared == (joined || c.dups > 0)
  {
    if joined {
      return c.val, c.err, true;
    }
    return c.val, c.err, c.dups > 0;
  }

  /** Two callers of `Do` on an idle key: the first runs the function, the second joins;
      both receive the same value and error, and both see it as shared. */
  method JoinersShareResult<K(==)>(g: Group<K>, key: K, v: Value, e: Error)
    returns (first: Result, second: Result)
    requires g.Valid() && key !in g.m
    modifies g
    ensures first == second == Result(v, e, true)
    ensures key !in g.m
  {
    var c1, joined1 := g.BeginDo(key);
    var c2, joined2 := g.BeginDo(key);
    g.DoCall(c1, key, v, e);
    var v1, e1, s1 := Await(c1, joined1);
    var v2, e2, s2 := Await(c2, joined2);
    first, second := Result(v1, e1, s1), Result(v2, e2, s2);
  }

  /** A lone caller of `Do` runs the function and sees an unshared result. */
  method LoneCallerNotShared<K(==)>(g: Group<K>, key: K, v: Value, e: Error) returns (r: Result)
    requires g.Valid() && key !in g.m
    modifies g
    ensures r == Result(v, e, false)
    ensures g.m == old(g.m)
  {
    var c, joined := g.BeginDo(key);
    g.DoCall(c, key, v, e);
    var v1, e1, s1 := Await(c, joined);
    r := Result(v1, e1, s1);
  }

  /** A caller of `Do` that arrives after the function has returned but before its key is
      released joins the finished call: it gets the old result at once, as shared, and
      its joining makes the initiator's result shared as well. */
  method LateJoinerSeesFinishedCall<K(==)>(g: Group<K>, key: K, v: Value, e: Error)
    returns (initiator: Result, late: Result)
    requires g.Valid() && key !in g.m
    modifies g
    ensures initiator == late == Result(v, e, true)
    ensures key !in g.m
  {
    var c, joined := g.BeginDo(key);
    g.Finish(c, v, e);
    var c2, joined2 := g.BeginDo(key);
    var v2, e2, s2 := Await(c2, joined2);
    late := Result(v2, e2, s2);
    g.Release(c, key);
    var v1, e1, s1 := Await(c, joined);
    initiator := Result(v1, e1, s1);
  }

  /** Completion removes by key, not by call: after an unshared call is forgotten and a
      new call is registered under the same key, the old call's completion unregisters
      the new one while it is still running, and a further `Do` starts a third call
      instead of joining the second. */
  method StaleCompletionDropsNewerCall<K(==)>(g: Group<K>, key: K, v: Value, e: Error)
    returns (stale: Call<K>, newer: Call<K>, third: Call<K>, joinedThird: bool)
    requires g.Valid() && key !in g.m
    modifies g
    ensures stale.done && !newer.done && stale != newer
    ensures !joinedThird && third != newer && g.m == old(g.m)[key := third]
  {
    ghost var m0 := g.m;
    var joined, forgotten;
    stale, joined := g.BeginDo(key);
    forgotten := g.ForgetUnshared(key);
    assert g.m == m0[key := stale] - {key};
    assert g.m == m0;
    newer, joined := g.BeginDo(key);
    g.DoCall(stale, key, v, e);
    assert g.m == m0[key := newer] - {key};
    assert g.m == m0;
    third, joinedThird := g.BeginDo(key);
  }

  /** Two `DoChan` callers on an idle key: the first gets channel `a` and registers a
      fresh call, the second gets the next channel `b` and is queued on that call. */
  method QueueTwoWaiters<K(==)>(g: Group<K>, key: K)
    returns (a: ChanId, b: ChanId, c: Call<K>, startedA: bool, startedB: bool)
    requires g.Valid() && key !in g.m
    modifies g
    ensures g.Valid() && fresh(c) && g.m == old(g.m)[key := c]
    ensures startedA && !startedB && a == old(g.nextChan) && b == a + 1
    ensures c.key == key && c.chans == [a, b] && c.dups == 1 && !c.done && !c.released
    ensures g.sent == old(g.sent) && g.nextChan == old(g.nextChan) + 2
  {
    var c2;
    a, c, startedA := g.DoChan(key);
    b, c2, startedB := g.DoChan(key);
  }

  /** Two `DoChan` callers on an idle key: each gets a new channel; the first starts the
      call, the second is queued on it; on completion each channel has received exactly
      one result, the same shared result, in the order the channels were queued. */
  method DoChanWaitersReceiveOnce<K(==)>(g: Group<K>, key: K, v: Value, e: Error)
    returns (a: ChanId, b: ChanId, startedA: bool, startedB: bool)
    requires g.Valid() && key !in g.m
    modifies g
    ensures a != b && startedA && !startedB
    ensures g.sent == old(g.sent) + [Delivery(a, Result(v, e, true)), Delivery(b, Result(v, e, true))]
    ensures Inbox(g.sent, a) == Inbox(old(g.sent), a) + [Result(v, e, true)]
    ensures Inbox(g.sent, b) == Inbox(old(g.sent), b) + [Result(v, e, true)]
    ensures Inbox(g.sent, a) == [Result(v, e, true)] && Inbox(g.sent, b) == [Result(v, e, true)]
    ensures g.m == old(g.m)
  {
    ghost var before, bound, m0 := g.sent, g.nextChan, g.m;
    assert SentBelow(before, bound);
    var c;
    a, b, c, startedA, startedB := QueueTwoWaiters(g, key);
    g.Finish(c, v, e);
    g.Release(c, key);
    RegisterThenDelete(m0, key, c);
    var r := Result(v, e, true);
    assert Broadcast([a, b], r) == [Delivery(a, r), Delivery(b, r)];
    assert g.sent == before + [Delivery(bound, r), Delivery(bound + 1, r)];
    FreshPairInboxes(before, bound, r);
  }


}
