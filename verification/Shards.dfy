/**
 * Sixty-four shards as one map: the pure part of `src/shared/map.rs` and `src/shared/set.rs`.
 */
module Shards {
  import opened Basics

  const SHARDS_COUNT: nat := 64

  /** A `SharedItem` is a handle: two handles are the same item exactly when they are equal. */
  type Handle = nat

  type Shard<!K> = map<K, Handle>

  type Hasher<!K> = K -> nat

  /** The shards from moment to moment. */
  type History<!K> = seq<seq<Shard<K>>>

  /** `get_shard`: the index of the shard that a key's hash selects. */
  function ShardOf<K>(hash: Hasher<K>, key: K): (i: nat)
    ensures i < SHARDS_COUNT
  {
    hash(key) % SHARDS_COUNT
  }

  /** The index is what is left of the hash after whole rounds of the 64 shards. */
  lemma {:induction false} ShardIsRemainder<K>(hash: Hasher<K>, key: K)
    ensures exists rounds: nat :: hash(key) == 64 * rounds + ShardOf(hash, key)
    ensures ShardOf(hash, key) < 64
  {
    assert hash(key) == 64 * (hash(key) / 64) + ShardOf(hash, key);
  }

  /** Every key lives only in the shard its hash selects. */
  ghost predicate Placed<K(!new)>(hash: Hasher<K>, shards: seq<Shard<K>>) {
    |shards| == SHARDS_COUNT
    && forall i: nat, k | i < SHARDS_COUNT && k in shards[i] :: ShardOf(hash, k) == i
  }

  /** The one map that the shards stand for. */
  function Union<K>(shards: seq<Shard<K>>): Shard<K> {
    if shards == [] then map[] else Union(shards[..|shards| - 1]) + shards[|shards| - 1]
  }

  function Total<K>(shards: seq<Shard<K>>): nat {
    if shards == [] then 0 else Total(shards[..|shards| - 1]) + |shards[|shards| - 1]|
  }

  lemma {:induction false} NoShards<K>(shards: seq<Shard<K>>)
    requires shards == []
    ensures Union(shards) == map[] && Total(shards) == 0
  {
  }

  lemma {:induction false} OneShardMore<K>(shards: seq<Shard<K>>, own: Shard<K>)
    ensures Union(shards + [own]) == Union(shards) + own && Total(shards + [own]) == Total(shards) + |own|
  {
    assert (shards + [own])[..|shards|] == shards;
  }

  // ---------- lookups ----------

  lemma {:induction false} InUnion<K>(shards: seq<Shard<K>>, k: K)
    ensures k in Union(shards) <==> exists i :: 0 <= i < |shards| && k in shards[i]
    decreases |shards|
  {
    if shards != [] {
      var n := |shards| - 1;
      InUnion(shards[..n], k);
    }
  }

  lemma {:induction false} UnionAt<K>(shards: seq<Shard<K>>, i: nat, k: K)
    requires i < |shards| && k in shards[i]
    requires forall j | i < j < |shards| :: k !in shards[j]
    ensures k in Union(shards) && Union(shards)[k] == shards[i][k]
    decreases |shards|
  {
    var n := |shards| - 1;
    if i < n {
      UnionAt(shards[..n], i, k);
    }
  }

  /** Looking a key up in its own shard is looking it up in the one map. */
  lemma {:induction false} LookupIsUnion<K(!new)>(hash: Hasher<K>, shards: seq<Shard<K>>, k: K)
    requires Placed(hash, shards)
    ensures var own := shards[ShardOf(hash, k)];
            && (k in Union(shards) <==> k in own)
            && (k in own ==> Union(shards)[k] == own[k])
  {
    var i := ShardOf(hash, k);
    InUnion(shards, k);
    if k in shards[i] {
      UnionAt(shards, i, k);
    }
  }

  /** Changing one key in its own shard changes that key in the one map and nothing else. */
  lemma {:induction false} UpdateIsUnion<K(!new)>(hash: Hasher<K>, shards: seq<Shard<K>>, k: K, own: Shard<K>)
    requires Placed(hash, shards)
    requires own - {k} == shards[ShardOf(hash, k)] - {k}
    ensures var shards' := shards[ShardOf(hash, k) := own];
            && Placed(hash, shards')
            && Union(shards') == (if k in own then Union(shards)[k := own[k]] else Union(shards) - {k})
  {
    var i := ShardOf(hash, k);
    var shards' := shards[i := own];
    forall j: nat, x | j < SHARDS_COUNT && x in shards'[j] ensures ShardOf(hash, x) == j {
      if j == i && x != k { assert x in own - {k}; }
    }
    var goal := if k in own then Union(shards)[k := own[k]] else Union(shards) - {k};
    forall x ensures (x in Union(shards') <==> x in goal) && (x in goal ==> Union(shards')[x] == goal[x]) {
      LookupIsUnion(hash, shards, x);
      LookupIsUnion(hash, shards', x);
      if x != k && ShardOf(hash, x) == i {
        assert x in own <==> x in own - {k};
        assert x in shards[i] <==> x in shards[i] - {k};
        assert x in own ==> own[x] == (own - {k})[x];
      }
    }
  }

  // ---------- counting ----------

  lemma {:induction false} DisjointSize<K>(a: Shard<K>, b: Shard<K>)
    requires a.Keys !! b.Keys
    ensures |a + b| == |a| + |b|
  {
  }

  lemma {:induction false} TotalIsSize<K>(shards: seq<Shard<K>>)
    requires forall i, j | 0 <= i < j < |shards| :: shards[i].Keys !! shards[j].Keys
    ensures Total(shards) == |Union(shards)|
    decreases |shards|
  {
    if shards != [] {
      var n := |shards| - 1;
      TotalIsSize(shards[..n]);
      forall k | k in Union(shards[..n]) ensures k !in shards[n] {
        InUnion(shards[..n], k);
      }
      DisjointSize(Union(shards[..n]), shards[n]);
    }
  }

  /** The shard sizes add up to the size of the one map. */
  lemma {:induction false} CountIsSize<K(!new)>(hash: Hasher<K>, shards: seq<Shard<K>>)
    requires Placed(hash, shards)
    ensures Total(shards) == |Union(shards)|
  {
    forall i, j | 0 <= i < j < |shards| ensures shards[i].Keys !! shards[j].Keys {
      forall k | k in shards[i] ensures k !in shards[j] {
        assert ShardOf(hash, k) == i;
      }
    }
    TotalIsSize(shards);
  }

  // ---------- operations ----------

  /** One operation of a task, as it happens under the lock of its shard. */
  datatype Op<K> =
    | Insert(key: K, item: Handle)
    | TryInsert(key: K, item: Handle)
    | Remove(key: K)
    | Get(key: K)

  /** The operations on the one map. */
  function OnMap<K>(m: Shard<K>, op: Op<K>): (Shard<K>, Option<Handle>) {
    var found := if op.key in m then Some(m[op.key]) else None;
    match op
    case Insert(k, item) => (m[k := item], found)
    case TryInsert(k, item) => (if k in m then m else m[k := item], found)
    case Remove(k) => (m - {k}, found)
    case Get(k) => (m, found)
  }

  /** What each operation does to the key and to the others, and what it answers. */
  lemma {:induction false} OpMeans<K>(m: Shard<K>, op: Op<K>)
    ensures var after := OnMap(m, op).0;
            && OnMap(m, op).1 == (if op.key in m then Some(m[op.key]) else None)
            && (op.Insert? ==> op.key in after && after[op.key] == op.item)
            && (op.TryInsert? ==> op.key in after && after[op.key] == if op.key in m then m[op.key] else op.item)
            && (op.Remove? ==> op.key !in after)
            && (op.Get? ==> (op.key in after <==> op.key in m) && (op.key in m ==> after[op.key] == m[op.key]))
            && after - {op.key} == m - {op.key}
  {
  }

  /** The same operations on the shard of their key. */
  function OnShards<K>(hash: Hasher<K>, shards: seq<Shard<K>>, op: Op<K>): (seq<Shard<K>>, Option<Handle>)
    requires |shards| == SHARDS_COUNT
  {
    var i := ShardOf(hash, op.key);
    var (own, r) := OnMap(shards[i], op);
    (shards[i := own], r)
  }

  /** Sharding refines one map: every operation acts and answers as on the union. */
  lemma {:induction false} ShardsRefineMap<K(!new)>(hash: Hasher<K>, shards: seq<Shard<K>>, op: Op<K>)
    requires Placed(hash, shards)
    ensures var (shards', r) := OnShards(hash, shards, op);
            Placed(hash, shards') && (Union(shards'), r) == OnMap(Union(shards), op)
  {
    var i := ShardOf(hash, op.key);
    var (own, r) := OnMap(shards[i], op);
    LookupIsUnion(hash, shards, op.key);
    assert own - {op.key} == shards[i] - {op.key};
    UpdateIsUnion(hash, shards, op.key, own);
    if op.key !in own {
      assert op.Remove? || op.Get?;
      assert op.Get? ==> Union(shards) - {op.key} == Union(shards);
    } else {
      assert Union(shards)[op.key := own[op.key]] == OnMap(Union(shards), op).0;
    }
  }

  // ---------- interleaved operations ----------

  /** The shards before the first operation and after each one. */
  function Trace<K>(hash: Hasher<K>, shards: seq<Shard<K>>, ops: seq<Op<K>>): (t: History<K>)
    requires |shards| == SHARDS_COUNT
    ensures |t| == |ops| + 1 && t[0] == shards
    ensures forall j | 0 <= j < |t| :: |t[j]| == SHARDS_COUNT
    decreases |ops|
  {
    if ops == [] then [shards] else [shards] + Trace(hash, OnShards(hash, shards, ops[0]).0, ops[1..])
  }

  function Results<K>(hash: Hasher<K>, shards: seq<Shard<K>>, ops: seq<Op<K>>): (r: seq<Option<Handle>>)
    requires |shards| == SHARDS_COUNT
    ensures |r| == |ops|
    decreases |ops|
  {
    if ops == [] then []
    else var (shards', r) := OnShards(hash, shards, ops[0]); [r] + Results(hash, shards', ops[1..])
  }

  lemma {:induction false} TracePlaced<K(!new)>(hash: Hasher<K>, shards: seq<Shard<K>>, ops: seq<Op<K>>)
    requires Placed(hash, shards)
    ensures forall j | 0 <= j <= |ops| :: Placed(hash, Trace(hash, shards, ops)[j])
    decreases |ops|
  {
    if ops != [] {
      ShardsRefineMap(hash, shards, ops[0]);
      var next := OnShards(hash, shards, ops[0]).0;
      TracePlaced(hash, next, ops[1..]);
      assert forall j | 1 <= j <= |ops| :: Trace(hash, shards, ops)[j] == Trace(hash, next, ops[1..])[j - 1];
    }
  }

  /** Only `try_insert` and `get` touch the key. */
  ghost predicate NoOverwrite<K>(ops: seq<Op<K>>, k: K) {
    forall i | 0 <= i < |ops| && ops[i].key == k :: ops[i].TryInsert? || ops[i].Get?
  }

  /** An operation that does not overwrite leaves a present key its item, and answers with it. */
  lemma {:induction false} KeyStep<K(!new)>(hash: Hasher<K>, shards: seq<Shard<K>>, op: Op<K>, k: K)
    requires Placed(hash, shards) && k in Union(shards) && (op.key == k ==> op.TryInsert? || op.Get?)
    ensures var (next, r) := OnShards(hash, shards, op);
            && Placed(hash, next) && k in Union(next) && Union(next)[k] == Union(shards)[k]
            && (op.key == k ==> r == Some(Union(shards)[k]))
  {
    assert |shards| == SHARDS_COUNT;
    hide Union, Placed;
    ShardsRefineMap(hash, shards, op);
  }

  lemma {:induction false} KeyStays<K(!new)>(hash: Hasher<K>, shards: seq<Shard<K>>, ops: seq<Op<K>>, k: K)
    requires Placed(hash, shards) && NoOverwrite(ops, k) && k in Union(shards)
    ensures forall i | 0 <= i < |ops| && ops[i].key == k :: Results(hash, shards, ops)[i] == Some(Union(shards)[k])
    decreases |ops|
  {
    assert |shards| == SHARDS_COUNT;
    hide Union, Placed, ShardOf;
    if ops != [] {
      KeyStep(hash, shards, ops[0], k);
      var next := OnShards(hash, shards, ops[0]).0;
      assert |next| == SHARDS_COUNT;
      KeyStays(hash, next, ops[1..], k);
      assert forall i | 1 <= i < |ops| :: ops[i] == ops[1..][i - 1]
                     && Results(hash, shards, ops)[i] == Results(hash, next, ops[1..])[i - 1];
    }
  }

  /**
   * One winner: among any interleaved operations that neither insert over nor remove an absent
   * key, the first `try_insert` of that key returns None, and everything after it returns the
   * winner's item.
   */
  lemma {:induction false} OneWinner<K(!new)>(hash: Hasher<K>, shards: seq<Shard<K>>, ops: seq<Op<K>>, k: K, w: nat)
    requires Placed(hash, shards) && NoOverwrite(ops, k) && k !in Union(shards)
    requires w < |ops| && ops[w].TryInsert? && ops[w].key == k
    requires forall i | 0 <= i < w && ops[i].key == k :: ops[i].Get?
    ensures Results(hash, shards, ops)[w] == None
    ensures forall i | w < i < |ops| && ops[i].key == k :: Results(hash, shards, ops)[i] == Some(ops[w].item)
    decreases |ops|
  {
    ShardsRefineMap(hash, shards, ops[0]);
    var (next, r) := OnShards(hash, shards, ops[0]);
    var rest := ops[1..];
    assert forall i | 1 <= i < |ops| :: ops[i] == rest[i - 1]
                   && Results(hash, shards, ops)[i] == Results(hash, next, rest)[i - 1];
    if w == 0 {
      KeyStays(hash, next, rest, k);
    } else {
      OneWinner(hash, next, rest, k, w - 1);
    }
  }

  // ---------- scans that lock one shard at a time ----------

  /** What a scan sees: shard `i` as it is in state `times[i]` of the trace. */
  function Sampled<K>(trace: History<K>, times: seq<nat>): (s: seq<Shard<K>>)
    requires |times| <= SHARDS_COUNT
    requires forall j | 0 <= j < |trace| :: |trace[j]| == SHARDS_COUNT
    requires forall i | 0 <= i < |times| :: times[i] < |trace|
    ensures |s| == |times| && forall i | 0 <= i < |s| :: s[i] == trace[times[i]][i]
  {
    seq(|times|, i requires 0 <= i < |times| => trace[times[i]][i])
  }

  ghost predicate ScanOf<K(!new)>(hash: Hasher<K>, trace: History<K>, times: seq<nat>, from: nat, to: nat) {
    && |times| == SHARDS_COUNT && from <= to < |trace|
    && (forall j | 0 <= j < |trace| :: Placed(hash, trace[j]))
    && (forall i | 0 <= i < |times| :: from <= times[i] <= to)
    && (forall i, j | 0 <= i < j < |times| :: times[i] <= times[j])
  }

  /**
   * For every key there is a moment of the scan at which the collected map agrees with the one
   * map on that key. So a key that is not touched is there, with its item, and nothing else is.
   */
  lemma {:induction false} ScanPerKey<K(!new)>(hash: Hasher<K>, trace: History<K>, times: seq<nat>, from: nat,
                                               to: nat, k: K)
    requires ScanOf(hash, trace, times, from, to)
    ensures Placed(hash, Sampled(trace, times))
    ensures exists j :: from <= j <= to && AgreeOn(Union(Sampled(trace, times)), Union(trace[j]), k)
  {
    var s := Sampled(trace, times);
    assert Placed(hash, s);
    var j := times[ShardOf(hash, k)];
    LookupIsUnion(hash, s, k);
    LookupIsUnion(hash, trace[j], k);
    assert AgreeOn(Union(s), Union(trace[j]), k);
  }

  predicate AgreeOn<K>(a: Shard<K>, b: Shard<K>, k: K) {
    (k in a <==> k in b) && (k in a ==> a[k] == b[k])
  }

  /** A key that keeps its item during the scan is collected with it. */
  lemma {:induction false} UntouchedIsCollected<K(!new)>(hash: Hasher<K>, trace: History<K>, times: seq<nat>,
                                                         from: nat, to: nat, k: K, item: Handle)
    requires ScanOf(hash, trace, times, from, to)
    requires forall j | from <= j <= to :: k in Union(trace[j]) && Union(trace[j])[k] == item
    ensures k in Union(Sampled(trace, times)) && Union(Sampled(trace, times))[k] == item
  {
    ScanPerKey(hash, trace, times, from, to, k);
  }

  /** With nothing changing, a scan collects the one map. */
  lemma {:induction false} QuietScan<K(!new)>(hash: Hasher<K>, trace: History<K>, times: seq<nat>, from: nat, to: nat)
    requires ScanOf(hash, trace, times, from, to)
    requires forall j | from <= j <= to :: trace[j] == trace[from]
    ensures Sampled(trace, times) == trace[from] && Total(Sampled(trace, times)) == |Union(trace[from])|
  {
    assert Sampled(trace, times) == trace[from];
    CountIsSize(hash, trace[from]);
  }

  lemma {:induction false} TotalMonotone<K>(a: seq<Shard<K>>, b: seq<Shard<K>>)
    requires |a| == |b| && forall i | 0 <= i < |a| :: a[i].Keys <= b[i].Keys
    ensures Total(a) <= Total(b)
    decreases |a|
  {
    if a != [] {
      var n := |a| - 1;
      TotalMonotone(a[..n], b[..n]);
      SubsetSize(a[n].Keys, b[n].Keys);
    }
  }

  lemma {:induction false} SubsetSize<K>(a: set<K>, b: set<K>)
    requires a <= b
    ensures |a| <= |b|
  {
    assert b == a + (b - a);
  }

  /** From state `from` to state `to` of the trace no key leaves its shard. */
  ghost predicate OnlyGrows<K>(trace: History<K>, from: nat, to: nat) {
    forall j, k, i | from <= j <= k <= to && k < |trace| && 0 <= i < SHARDS_COUNT
                     && |trace[j]| == |trace[k]| == SHARDS_COUNT ::
      trace[j][i].Keys <= trace[k][i].Keys
  }

  /** While other tasks only insert, a count lies between the sizes at its start and at its end. */
  lemma {:induction false} CountBetween<K(!new)>(hash: Hasher<K>, trace: History<K>, times: seq<nat>, from: nat,
                                                 to: nat)
    requires ScanOf(hash, trace, times, from, to) && OnlyGrows(trace, from, to)
    ensures |Union(trace[from])| <= Total(Sampled(trace, times)) <= |Union(trace[to])|
  {
    var s := Sampled(trace, times);
    TotalMonotone(trace[from], s);
    TotalMonotone(s, trace[to]);
    CountIsSize(hash, trace[from]);
    CountIsSize(hash, trace[to]);
  }

  /** Operations without `remove` only grow the shards. */
  lemma {:induction false} InsertsGrow<K(!new)>(hash: Hasher<K>, shards: seq<Shard<K>>, ops: seq<Op<K>>)
    requires |shards| == SHARDS_COUNT && forall i | 0 <= i < |ops| :: !ops[i].Remove?
    ensures OnlyGrows(Trace(hash, shards, ops), 0, |ops|)
    decreases |ops|
  {
    var t := Trace(hash, shards, ops);
    if ops != [] {
      var next := OnShards(hash, shards, ops[0]).0;
      var rest := Trace(hash, next, ops[1..]);
      InsertsGrow(hash, next, ops[1..]);
      assert forall j | 1 <= j < |t| :: t[j] == rest[j - 1];
      assert forall i | 0 <= i < SHARDS_COUNT :: shards[i].Keys <= next[i].Keys;
      forall j, k, i | 0 <= j <= k < |t| && 0 <= i < SHARDS_COUNT && |t[j]| == |t[k]| == SHARDS_COUNT
        ensures t[j][i].Keys <= t[k][i].Keys
      {
        if j == 0 && k > 0 { assert rest[0][i].Keys <= rest[k - 1][i].Keys; }
      }
    }
  }

  /** The end of a trace is the trace of the last operations. */
  lemma {:induction false} TraceFrom<K>(hash: Hasher<K>, shards: seq<Shard<K>>, ops: seq<Op<K>>, from: nat)
    requires |shards| == SHARDS_COUNT && from <= |ops|
    ensures Trace(hash, shards, ops)[from..] == Trace(hash, Trace(hash, shards, ops)[from], ops[from..])
    decreases |ops|
  {
    if from == 0 {
      assert ops[0..] == ops;
    } else {
      var next := OnShards(hash, shards, ops[0]).0;
      TraceFrom(hash, next, ops[1..], from - 1);
      assert ops[1..][from - 1..] == ops[from..];
      assert Trace(hash, shards, ops)[from..] == Trace(hash, next, ops[1..])[from - 1..];
    }
  }

  /** The same of a part of a history, whatever was removed before it. */
  lemma {:induction false} InsertsGrowFrom<K(!new)>(hash: Hasher<K>, shards: seq<Shard<K>>, ops: seq<Op<K>>, from: nat)
    requires |shards| == SHARDS_COUNT && from <= |ops|
    requires forall i | from <= i < |ops| :: !ops[i].Remove?
    ensures OnlyGrows(Trace(hash, shards, ops), from, |ops|)
  {
    var t := Trace(hash, shards, ops);
    TraceFrom(hash, shards, ops, from);
    InsertsGrow(hash, t[from], ops[from..]);
    assert forall j | from <= j < |t| :: t[j] == t[from..][j - from];
  }
}
