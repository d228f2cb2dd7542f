/**
 * The sharded map as its callers use it (`src/shared/map.rs`), with other tasks running whenever
 * an operation waits for a shard lock.
 */
module SharedMaps {
  import opened Basics
  import opened Shards

  /** The keys of a hash map in the order of an iteration over it. */
  ghost predicate Enumerates<K(!new)>(keys: seq<K>, m: Shard<K>) {
    && (forall k :: k in keys <==> k in m)
    && (forall i, j | 0 <= i < j < |keys| :: keys[i] != keys[j])
    && |keys| == |m|
  }

  /** Some iteration order. */
  method Enumerate<K(==, !new)>(m: Shard<K>) returns (keys: seq<K>)
    ensures Enumerates(keys, m)
  {
    keys := [];
    var left := m.Keys;
    while left != {}
      invariant left <= m.Keys && |keys| + |left| == |m|
      invariant forall k :: k in keys <==> k in m && k !in left
      invariant forall i, j | 0 <= i < j < |keys| :: keys[i] != keys[j]
      decreases |left|
    {
      var k :| k in left;
      keys := keys + [k];
      left := left - {k};
    }
  }

  lemma {:induction false} TraceLast<K>(hash: Hasher<K>, start: seq<Shard<K>>, ops: seq<Op<K>>, op: Op<K>)
    requires |start| == SHARDS_COUNT
    ensures var t := Trace(hash, start, ops);
            Trace(hash, start, ops + [op]) == t + [OnShards(hash, t[|ops|], op).0]
    decreases |ops|
  {
    if ops == [] {
      assert ([] + [op])[1..] == [];
    } else {
      var next := OnShards(hash, start, ops[0]).0;
      assert (ops + [op])[1..] == ops[1..] + [op];
      TraceLast(hash, next, ops[1..], op);
    }
  }

  /** The shards are what the operations so far make of the start, and the orders are theirs. */
  ghost predicate Consistent<K(!new)>(hash: Hasher<K>, start: seq<Shard<K>>, done: seq<Op<K>>, now: seq<Shard<K>>,
                                      orders: seq<seq<K>>) {
    && |start| == |now| == |orders| == SHARDS_COUNT
    && Placed(hash, start)
    && now == Trace(hash, start, done)[|done|]
    && forall i | 0 <= i < SHARDS_COUNT :: Enumerates(orders[i], now[i])
  }

  lemma {:induction false} ConsistentIsPlaced<K(!new)>(hash: Hasher<K>, start: seq<Shard<K>>, done: seq<Op<K>>,
                                                       now: seq<Shard<K>>, orders: seq<seq<K>>)
    requires Consistent(hash, start, done, now, orders)
    ensures |start| == |now| == |orders| == SHARDS_COUNT && Placed(hash, start) && Placed(hash, now)
    ensures now == Trace(hash, start, done)[|done|]
    ensures forall j | 0 <= j <= |done| :: Placed(hash, Trace(hash, start, done)[j])
    ensures forall i | 0 <= i < SHARDS_COUNT :: Enumerates(orders[i], now[i])
  {
    TracePlaced(hash, start, done);
  }

  lemma {:induction false} ConsistentMore<K(!new)>(hash: Hasher<K>, start: seq<Shard<K>>, done: seq<Op<K>>,
                                                   now: seq<Shard<K>>, orders: seq<seq<K>>, op: Op<K>, order: seq<K>)
    requires Consistent(hash, start, done, now, orders)
    requires Enumerates(order, OnMap(now[ShardOf(hash, op.key)], op).0)
    ensures Consistent(hash, start, done + [op], OnShards(hash, now, op).0, orders[ShardOf(hash, op.key) := order])
    ensures Trace(hash, start, done + [op])[|done|] == now
  {
    TraceLast(hash, start, done, op);
  }

  class SharedMap<K(==, !new)> {
    const hash: Hasher<K>
    const shards: array<Shard<K>>   // one hash map per shard, each under its own lock
    const orders: array<seq<K>>     // the iteration order of each, until it is changed
    var nextItem: Handle
    var others: seq<Op<K>>          // what the other tasks will do, in the order of their locks
    ghost var start: seq<Shard<K>>
    ghost var done: seq<Op<K>>      // every operation so far, of this task and of the others

    ghost predicate Valid()
      reads this, shards, orders
    {
      && shards.Length == SHARDS_COUNT && orders.Length == SHARDS_COUNT && shards as object != orders
      && Consistent(hash, start, done, shards[..], orders[..])
    }

    /** The shards at the start and after each operation. */
    ghost function History(): (t: History<K>)
      requires |start| == SHARDS_COUNT
      reads this`start, this`done
      ensures |t| == |done| + 1
    {
      Trace(hash, start, done)
    }

    /** The map as it is now. */
    ghost function Contents(): Shard<K>
      reads shards
    {
      Union(shards[..])
    }

    constructor (hash: Hasher<K>, others: seq<Op<K>>)
      ensures Valid() && Contents() == map[] && done == []
      ensures this.hash == hash && this.others == others && fresh(shards) && fresh(orders)
    {
      this.hash, this.others := hash, others;
      shards := new Shard<K>[SHARDS_COUNT](i => map[]);
      orders := new seq<K>[SHARDS_COUNT](i => []);
      nextItem := 0;
      start, done := seq(SHARDS_COUNT, i => map[]), [];
      new;
      assert shards[..] == start;
      assert Union(start) == map[] by {
        forall k ensures k !in Union(start) { InUnion(start, k); }
      }
    }

    /** One operation under the lock of its shard. */
    method Run(op: Op<K>) returns (r: Option<Handle>)
      requires Valid()
      modifies shards, orders, this`done
      ensures Valid() && done == old(done) + [op]
      ensures (Contents(), r) == OnMap(old(Contents()), op)
      ensures Contents() == Union(History()[|done|]) && old(Contents()) == Union(History()[|done| - 1])
    {
      hide Consistent, Enumerates, Union, Placed, Trace;
      ghost var now, was := shards[..], orders[..];
      ConsistentIsPlaced(hash, start, done, now, was);
      ShardsRefineMap(hash, now, op);
      var i := ShardOf(hash, op.key);
      var (own, found) := OnMap(shards[i], op);
      var order := orders[i];
      if own != shards[i] {
        order := Enumerate(own);
      }
      ConsistentMore(hash, start, done, now, was, op, order);
      shards[i] := own;
      orders[i] := order;
      done := done + [op];
      assert shards[..] == now[i := own] && orders[..] == was[i := order];
      ConsistentIsPlaced(hash, start, done, shards[..], orders[..]);
      return found;
    }

    /** Any number of operations of other tasks, while this task waits for a lock. */
    method Others()
      requires Valid()
      modifies shards, orders, this`done, this`others
      ensures Valid() && old(done) <= done
      ensures done + others == old(done) + old(others)
      ensures done == old(done) ==> shards[..] == old(shards[..]) && orders[..] == old(orders[..])
    {
      hide Consistent, Enumerates, Union, Placed, Trace, OnMap;
      var n: nat :| n <= |others|;
      while n > 0
        invariant Valid() && old(done) <= done && n <= |others|
        invariant done + others == old(done) + old(others)
        invariant done == old(done) ==> shards[..] == old(shards[..]) && orders[..] == old(orders[..])
      {
        var op := others[0];
        var r := Run(op);
        others := others[1..];
        n := n - 1;
      }
    }

    /** One operation of this task, after whatever the others do while it waits. */
    method Perform(op: Op<K>) returns (r: Option<Handle>)
      requires Valid()
      modifies shards, orders, this`done, this`others
      ensures Valid() && old(done) < done
      ensures done[..|done| - 1] + others == old(done) + old(others)
      ensures (Contents(), r) == OnMap(Union(History()[|done| - 1]), op)
    {
      hide Consistent, Union, Trace, OnMap, Placed, Enumerates;
      Others();
      ghost var before := done;
      r := Run(op);
      assert done[..|done| - 1] == before;
    }

    /** The new item is made before the lock of the shard is waited for. */
    method Insert(key: K) returns (overwritten: Option<Handle>)
      requires Valid()
      modifies shards, orders, this`done, this`others, this`nextItem
      ensures Valid() && old(done) < done
      ensures done[..|done| - 1] + others == old(done) + old(others)
      ensures nextItem == old(nextItem) + 1
      ensures (Contents(), overwritten) == OnMap(Union(History()[|done| - 1]), Op.Insert(key, old(nextItem)))
      ensures var before := Union(History()[|done| - 1]);
              Contents() == before[key := old(nextItem)] &&
              overwritten == if key in before then Some(before[key]) else None
    {
      var item := nextItem;
      nextItem := nextItem + 1;
      hide Consistent, Union, Trace;
      overwritten := Perform(Op.Insert(key, item));
    }

    /** Inserts only when the key is absent at the moment the shard is locked. */
    method TryInsert(key: K) returns (existing: Option<Handle>)
      requires Valid()
      modifies shards, orders, this`done, this`others, this`nextItem
      ensures Valid() && old(done) < done
      ensures done[..|done| - 1] + others == old(done) + old(others)
      ensures nextItem == old(nextItem) + 1
      ensures (Contents(), existing) == OnMap(Union(History()[|done| - 1]), Op.TryInsert(key, old(nextItem)))
      ensures var before := Union(History()[|done| - 1]);
              Contents() == (if key in before then before else before[key := old(nextItem)]) &&
              existing == if key in before then Some(before[key]) else None
    {
      var item := nextItem;
      nextItem := nextItem + 1;
      hide Consistent, Union, Trace;
      existing := Perform(Op.TryInsert(key, item));
    }

    /** Removes the key. */
    method Remove(key: K) returns (removed: Option<Handle>)
      requires Valid()
      modifies shards, orders, this`done, this`others
      ensures Valid() && old(done) < done
      ensures done[..|done| - 1] + others == old(done) + old(others)
      ensures (Contents(), removed) == OnMap(Union(History()[|done| - 1]), Op.Remove(key))
      ensures var before := Union(History()[|done| - 1]);
              Contents() == before - {key} && removed == if key in before then Some(before[key]) else None
    {
      hide Consistent, Union, Trace;
      removed := Perform(Op.Remove(key));
    }

    /** Looks the key up. */
    method Get(key: K) returns (item: Option<Handle>)
      requires Valid()
      modifies shards, orders, this`done, this`others
      ensures Valid() && old(done) < done
      ensures done[..|done| - 1] + others == old(done) + old(others)
      ensures (Contents(), item) == OnMap(Union(History()[|done| - 1]), Op.Get(key))
      ensures var before := Union(History()[|done| - 1]);
              Contents() == before && item == if key in before then Some(before[key]) else None
    {
      hide Consistent, Union, Trace;
      item := Perform(Op.Get(key));
    }

    /** A scan gets the lock of its next shard, after whatever the others do while it waits. */
    method NextShard(ghost times: seq<nat>, ghost from: nat) returns (ghost more: seq<nat>)
      requires Valid() && |times| < SHARDS_COUNT && from <= |done| && Scanned(times, from)
      modifies shards, orders, this`done, this`others
      ensures Valid() && old(done) <= done && done + others == old(done) + old(others)
      ensures more == times + [|done|] && Scanned(more, from)
      ensures Sampled(History(), more) == old(Sampled(History(), times)) + [shards[|times|]]
    {
      hide Consistent, Union, Total, Trace, Placed, Enumerates, OnMap;
      ghost var before := done;
      Others();
      ScanStep(times, from, before);
      more := times + [|done|];
      assert shards[..][|times|] == shards[|times|];
    }

    /** Scans shard after shard, each under its own lock, and adds up their sizes. */
    method Count() returns (total: nat, ghost times: seq<nat>)
      requires Valid()
      modifies shards, orders, this`done, this`others
      ensures Valid() && old(done) <= done && done + others == old(done) + old(others)
      ensures ScanOf(hash, History(), times, |old(done)|, |done|) && total == Total(Sampled(History(), times))
      ensures (forall i | 0 <= i < |old(others)| :: !old(others)[i].Remove?) ==>
                |old(Contents())| <= total <= |Contents()|
    {
      hide Consistent, Union, Total, Trace, OnlyGrows, Placed, Enumerates, OnMap;
      ghost var before := done;
      ghost var was := shards[..];
      ConsistentIsPlaced(hash, start, before, was, orders[..]);
      total, times := 0, [];
      NoShards(Sampled(History(), times));
      for i := 0 to SHARDS_COUNT
        invariant Valid() && old(done) <= done && |times| == i
        invariant done + others == old(done) + old(others)
        invariant Scanned(times, |old(done)|)
        invariant total == Total(Sampled(History(), times))
      {
        ghost var sampled := Sampled(History(), times);
        times := NextShard(times, |old(done)|);
        OneShardMore(sampled, shards[i]);
        total := total + |shards[i]|;
      }
      ConsistentIsPlaced(hash, start, done, shards[..], orders[..]);
      if forall i | 0 <= i < |old(others)| :: !old(others)[i].Remove? {
        CountGrows(times, before, old(others), was);
      }
    }

    /** Collects the entries of all shards. */
    method ToHash() returns (items: Shard<K>, ghost times: seq<nat>)
      requires Valid()
      modifies shards, orders, this`done, this`others
      ensures Valid() && old(done) <= done && done + others == old(done) + old(others)
      ensures ScanOf(hash, History(), times, |old(done)|, |done|) && items == Union(Sampled(History(), times))
    {
      hide Consistent, Union, Total, Trace, Placed, Enumerates, OnMap;
      items, times := map[], [];
      ConsistentIsPlaced(hash, start, done, shards[..], orders[..]);
      NoShards(Sampled(History(), times));
      for i := 0 to SHARDS_COUNT
        invariant Valid() && old(done) <= done && |times| == i
        invariant done + others == old(done) + old(others)
        invariant Scanned(times, |old(done)|)
        invariant items == Union(Sampled(History(), times))
      {
        ghost var sampled := Sampled(History(), times);
        times := NextShard(times, |old(done)|);
        OneShardMore(sampled, shards[i]);
        items := items + shards[i];
      }
      ConsistentIsPlaced(hash, start, done, shards[..], orders[..]);
    }

    /** Collects the items of all shards, in the iteration order of each. */
    method GetAll() returns (items: seq<Handle>, ghost keys: seq<K>, ghost times: seq<nat>)
      requires Valid()
      modifies shards, orders, this`done, this`others
      ensures Valid() && old(done) <= done && done + others == old(done) + old(others)
      ensures ScanOf(hash, History(), times, |old(done)|, |done|)
      ensures ItemsOf(items, keys, Union(Sampled(History(), times)))
    {
      hide Consistent, Union, Trace, Placed, ItemsOf, PlacedTo, Enumerates;
      items, keys, times := [], [], [];
      ItemsOfNothing<K>();
      for i := 0 to SHARDS_COUNT
        invariant Valid() && old(done) <= done && |times| == i
        invariant done + others == old(done) + old(others)
        invariant Scanned(times, |old(done)|)
        invariant ItemsOf(items, keys, Union(Sampled(History(), times)))
      {
        ghost var sampled := Sampled(History(), times);
        times := NextShard(times, |old(done)|);
        ConsistentIsPlaced(hash, start, done, shards[..], orders[..]);
        SampledIsPlaced(hash, History(), times);
        SampledFront(sampled, shards[i], hash);
        OwnIsPlaced(hash, shards[..], i);
        ItemsOfMore(hash, items, keys, sampled, shards[i], orders[i]);
        items := items + ItemsIn(shards[i], orders[i]);
        keys := keys + orders[i];
      }
      ConsistentIsPlaced(hash, start, done, shards[..], orders[..]);
    }

    /**
     * Looks for an entry that satisfies the predicate: shard after shard, entry after entry by its
     * place in the iteration order, the lock being released between any two of them.
     */
    method Find(f: (K, Handle) -> bool) returns (r: Option<(K, Handle)>, ghost at: nat)
      requires Valid()
      modifies shards, orders, this`done, this`others
      ensures Valid() && old(done) <= done && done + others == old(done) + old(others)
      ensures r.Some? ==> |old(done)| <= at <= |done| && f(r.value.0, r.value.1)
      ensures r.Some? ==> var m := Union(History()[at]); r.value.0 in m && m[r.value.0] == r.value.1
      ensures r.None? && done == old(done) ==> NoneSatisfies(f, Contents())
    {
      hide Consistent, Union, Trace, Placed, Enumerates, NoneSatisfies;
      for i := 0 to SHARDS_COUNT
        invariant Valid() && old(done) <= done && done + others == old(done) + old(others)
        invariant done == old(done) ==> shards[..] == old(shards[..]) && orders[..] == old(orders[..])
        invariant done == old(done) ==> forall s | 0 <= s < i :: NoneSatisfies(f, shards[s])
      {
        Others();
        var len := |shards[i]|;
        r := FindIn(f, i, len);
        at := |done|;
        if r.Some? { return; }
      }
      ConsistentIsPlaced(hash, start, done, shards[..], orders[..]);
      if done == old(done) { NoneInUnion(hash, f, shards[..]); }
      return None, 0;
    }

    /** The entries of one shard, as many as it had when its length was read. */
    method FindIn(f: (K, Handle) -> bool, i: nat, len: nat) returns (r: Option<(K, Handle)>)
      requires Valid() && i < SHARDS_COUNT && len == |shards[i]|
      modifies shards, orders, this`done, this`others
      ensures Valid() && old(done) <= done && done + others == old(done) + old(others)
      ensures done == old(done) ==> shards[..] == old(shards[..]) && orders[..] == old(orders[..])
      ensures r.Some? ==> f(r.value.0, r.value.1)
      ensures r.Some? ==> var m := Union(History()[|done|]); r.value.0 in m && m[r.value.0] == r.value.1
      ensures r.None? && done == old(done) ==> NoneSatisfies(f, shards[i])
    {
      hide Consistent, Union, Trace, Placed, NoneSatisfies;
      var j := 0;
      while j < len
        invariant j <= len && Valid() && old(done) <= done && done + others == old(done) + old(others)
        invariant done == old(done) ==> shards[..] == old(shards[..]) && orders[..] == old(orders[..])
        invariant done == old(done) ==> NoneUpTo(f, shards[i], orders[i], j)
      {
        Others();
        ConsistentIsPlaced(hash, start, done, shards[..], orders[..]);
        if j < |orders[i]| {
          var key := orders[i][j];
          assert key in orders[i];
          var item := shards[i][key];
          if f(key, item) {
            OwnLookup(hash, shards[..], i, key);
            return Some((key, item));
          }
        }
        j := j + 1;
      }
      ConsistentIsPlaced(hash, start, done, shards[..], orders[..]);
      if done == old(done) { NoneFound(f, shards[i], orders[i]); }
      return None;
    }

    /** A count beside tasks that only insert, whatever was removed before. */
    lemma {:induction false} CountGrows(times: seq<nat>, before: seq<Op<K>>, coming: seq<Op<K>>, was: seq<Shard<K>>)
      requires Valid() && ScanOf(hash, History(), times, |before|, |done|)
      requires before <= done && done + others == before + coming
      requires was == Trace(hash, start, before)[|before|]
      requires forall i | 0 <= i < |coming| :: !coming[i].Remove?
      ensures |Union(was)| <= Total(Sampled(History(), times)) <= |Contents()|
    {
      hide Union, Total, OnMap;
      forall i | |before| <= i < |done| ensures !done[i].Remove? {
        assert done[i] == (before + coming)[i] == coming[i - |before|];
      }
      TracePrefix(hash, start, before, done);
      InsertsGrowFrom(hash, start, done, |before|);
      CountBetween(hash, History(), times, |before|, |done|);
    }

    /** The shards scanned so far were seen at these moments, one after the other. */
    ghost predicate Scanned(times: seq<nat>, from: nat)
      reads this
    {
      && |start| == SHARDS_COUNT && |times| <= SHARDS_COUNT
      && (forall i | 0 <= i < |times| :: from <= times[i] <= |done|)
      && (forall i, j | 0 <= i < j < |times| :: times[i] <= times[j])
    }

    /** What was seen before stays seen, and the next shard is seen as it is now. */
    lemma {:induction false} ScanStep(times: seq<nat>, from: nat, before: seq<Op<K>>)
      requires Valid() && |times| < SHARDS_COUNT && from <= |before| && before <= done
      requires (forall i | 0 <= i < |times| :: from <= times[i] <= |before|)
      ensures Sampled(History(), times) == Sampled(Trace(hash, start, before), times)
      ensures Sampled(History(), times + [|done|]) == Sampled(History(), times) + [shards[..][|times|]]
    {
      hide Consistent, Placed, Enumerates, Trace;
      ConsistentIsPlaced(hash, start, done, shards[..], orders[..]);
      TracePrefix(hash, start, before, done);
      var was, now := Trace(hash, start, before), History();
      assert forall i | 0 <= i < |times| :: now[times[i]] == was[times[i]];
      assert now[|done|] == shards[..];
    }
  }

  lemma {:induction false} TracePrefix<K>(hash: Hasher<K>, start: seq<Shard<K>>, a: seq<Op<K>>, b: seq<Op<K>>)
    requires |start| == SHARDS_COUNT && a <= b
    ensures forall j | 0 <= j <= |a| :: Trace(hash, start, a)[j] == Trace(hash, start, b)[j]
    decreases |a|
  {
    if a != [] {
      TracePrefix(hash, OnShards(hash, start, a[0]).0, a[1..], b[1..]);
    }
  }

  /** The items under these keys, each key of the map once. */
  ghost predicate ItemsOf<K(!new)>(items: seq<Handle>, keys: seq<K>, m: Shard<K>) {
    Enumerates(keys, m) && Beside(items, keys, m)
  }

  lemma {:induction false} ItemsOfNothing<K(!new)>()
    ensures var none: seq<Shard<K>> := []; ItemsOf([], [], Union(none))
  {
  }

  ghost predicate PlacedTo<K(!new)>(hash: Hasher<K>, scanned: seq<Shard<K>>) {
    forall i: nat, k | i < |scanned| && k in scanned[i] :: ShardOf(hash, k) == i
  }

  lemma {:induction false} OwnIsPlaced<K(!new)>(hash: Hasher<K>, shards: seq<Shard<K>>, i: nat)
    requires Placed(hash, shards) && i < SHARDS_COUNT
    ensures forall k | k in shards[i] :: ShardOf(hash, k) == i
  {
  }

  lemma {:induction false} SampledIsPlaced<K(!new)>(hash: Hasher<K>, trace: History<K>, times: seq<nat>)
    requires |times| <= SHARDS_COUNT && forall j | 0 <= j < |trace| :: Placed(hash, trace[j])
    requires forall i | 0 <= i < |times| :: times[i] < |trace|
    ensures forall j | 0 <= j < |trace| :: |trace[j]| == SHARDS_COUNT
    ensures PlacedTo(hash, Sampled(trace, times))
  {
  }

  lemma {:induction false} SampledFront<K(!new)>(scanned: seq<Shard<K>>, own: Shard<K>, hash: Hasher<K>)
    requires PlacedTo(hash, scanned + [own])
    ensures PlacedTo(hash, scanned)
  {
    forall i: nat, k | i < |scanned| && k in scanned[i] ensures ShardOf(hash, k) == i {
      assert (scanned + [own])[i] == scanned[i];
    }
  }

  lemma {:induction false} EnumeratesMore<K(!new)>(keys: seq<K>, m: Shard<K>, order: seq<K>, own: Shard<K>)
    requires Enumerates(keys, m) && Enumerates(order, own) && m.Keys !! own.Keys
    ensures Enumerates(keys + order, m + own)
    ensures forall j | 0 <= j < |order| :: order[j] in own
    ensures forall j | 0 <= j < |keys| :: keys[j] in m && keys[j] !in own
  {
    DisjointSize(m, own);
    forall j | 0 <= j < |order| ensures order[j] in own { assert order[j] in order; }
    forall j | 0 <= j < |keys| ensures keys[j] in m { assert keys[j] in keys; }
    var all := keys + order;
    forall i, j | 0 <= i < j < |all| ensures all[i] != all[j] {
      if i < |keys| <= j { assert all[i] in m && all[j] in own; }
    }
  }

  /** The items of a shard in the order of its iteration. */
  function ItemsIn<K(==)>(own: Shard<K>, order: seq<K>): (r: seq<Handle>)
    requires forall j | 0 <= j < |order| :: order[j] in own
    ensures |r| == |order| && forall j | 0 <= j < |r| :: r[j] == own[order[j]]
  {
    seq(|order|, j requires 0 <= j < |order| => own[order[j]])
  }

  /** Every key has its item of the map beside it. */
  ghost predicate Beside<K>(items: seq<Handle>, keys: seq<K>, m: Shard<K>) {
    |items| == |keys| && forall j | 0 <= j < |keys| :: keys[j] in m && items[j] == m[keys[j]]
  }

  lemma {:induction false} BesideMore<K>(items: seq<Handle>, keys: seq<K>, m: Shard<K>, more: seq<Handle>,
                                         order: seq<K>, own: Shard<K>)
    requires Beside(items, keys, m) && Beside(more, order, own) && m.Keys !! own.Keys
    ensures Beside(items + more, keys + order, m + own)
  {
  }

  lemma {:induction false} ItemsInBeside<K>(own: Shard<K>, order: seq<K>)
    requires forall j | 0 <= j < |order| :: order[j] in own
    ensures Beside(ItemsIn(own, order), order, own)
  {
  }

  /** The next shard's items continue those of the shards before it, whose keys are others. */
  lemma {:induction false} ItemsOfMore<K(!new)>(hash: Hasher<K>, items: seq<Handle>, keys: seq<K>,
                                                scanned: seq<Shard<K>>, own: Shard<K>, order: seq<K>)
    requires ItemsOf(items, keys, Union(scanned)) && Enumerates(order, own)
    requires PlacedTo(hash, scanned) && forall k | k in own :: ShardOf(hash, k) == |scanned|
    ensures forall j | 0 <= j < |order| :: order[j] in own
    ensures ItemsOf(items + ItemsIn(own, order), keys + order, Union(scanned + [own]))
  {
    hide Enumerates, Beside;
    EarlierKeys(hash, scanned, own);
    EnumeratesMore(keys, Union(scanned), order, own);
    ItemsInBeside(own, order);
    BesideMore(items, keys, Union(scanned), ItemsIn(own, order), order, own);
    assert (scanned + [own])[..|scanned|] == scanned;
  }

  lemma {:induction false} EarlierKeys<K(!new)>(hash: Hasher<K>, scanned: seq<Shard<K>>, own: Shard<K>)
    requires PlacedTo(hash, scanned) && forall k | k in own :: ShardOf(hash, k) == |scanned|
    ensures Union(scanned).Keys !! own.Keys
  {
    forall k | k in own ensures k !in Union(scanned) {
      InUnion(scanned, k);
    }
  }

  // ---------- find ----------

  ghost predicate NoneSatisfies<K(!new)>(f: (K, Handle) -> bool, m: Shard<K>) {
    forall k | k in m :: !f(k, m[k])
  }

  ghost predicate NoneUpTo<K>(f: (K, Handle) -> bool, own: Shard<K>, order: seq<K>, j: nat) {
    forall l | 0 <= l < j && l < |order| :: order[l] in own && !f(order[l], own[order[l]])
  }

  lemma {:induction false} NoneFound<K(!new)>(f: (K, Handle) -> bool, own: Shard<K>, order: seq<K>)
    requires Enumerates(order, own) && NoneUpTo(f, own, order, |own|)
    ensures NoneSatisfies(f, own)
  {
  }

  lemma {:induction false} NoneInUnion<K(!new)>(hash: Hasher<K>, f: (K, Handle) -> bool, shards: seq<Shard<K>>)
    requires Placed(hash, shards) && forall s | 0 <= s < SHARDS_COUNT :: NoneSatisfies(f, shards[s])
    ensures NoneSatisfies(f, Union(shards))
  {
    forall k | k in Union(shards) ensures !f(k, Union(shards)[k]) {
      LookupIsUnion(hash, shards, k);
    }
  }

  lemma {:induction false} OwnLookup<K(!new)>(hash: Hasher<K>, shards: seq<Shard<K>>, i: nat, k: K)
    requires Placed(hash, shards) && i < SHARDS_COUNT && k in shards[i]
    ensures k in Union(shards) && Union(shards)[k] == shards[i][k]
  {
    LookupIsUnion(hash, shards, k);
  }
}
