/**
 * The sharded set (`src/shared/set.rs`): 64 shards of elements that hash and compare by a key of
 * their own, while tasks operate on the set and change contents through write guards.
 */
module SharedSets {
  import opened Basics
  import opened Shards

  /** An element: the key for hashing and equality, the item, and what write guards made of it. */
  datatype SetItem<T> = SetItem(key: T, item: Handle, content: T)

  /** `PartialEq for SharedSetItem` */
  predicate SameElement<T(==)>(x: SetItem<T>, y: SetItem<T>) {
    x.key == y.key
  }

  /** A hash set holds no two equal elements. */
  ghost predicate IsHashSet<T(!new)>(s: set<SetItem<T>>) {
    forall x, y | x in s && y in s && SameElement(x, y) :: x == y
  }

  /** The map from keys to items that the elements stand for. */
  ghost function AsMap<T(!new)>(s: set<SetItem<T>>): (m: Shard<T>)
    requires IsHashSet(s)
    ensures forall x | x in s :: x.key in m && m[x.key] == x.item
    ensures forall k | k in m :: exists x :: x in s && x.key == k
  {
    map x | x in s :: x.key := x.item
  }

  lemma {:induction false} MapIs<T(!new)>(s: set<SetItem<T>>, m: Shard<T>)
    requires IsHashSet(s)
    requires forall x | x in s :: x.key in m && m[x.key] == x.item
    requires forall k | k in m :: exists x :: x in s && x.key == k
    ensures AsMap(s) == m
  {
    forall k ensures (k in m <==> k in AsMap(s)) && (k in m ==> m[k] == AsMap(s)[k]) {
      if x :| x in s && x.key == k { assert AsMap(s)[k] == x.item; }
    }
  }

  /** An element as it is inserted: the content starts as a clone of the key. */
  function NewItem<T>(key: T, item: Handle): SetItem<T> {
    SetItem(key, item, key)
  }

  /** `HashSet::get` by key, as `Borrow` allows. */
  ghost function Lookup<T(!new)>(s: set<SetItem<T>>, k: T): (r: Option<Handle>)
    requires IsHashSet(s)
    ensures r == if k in AsMap(s) then Some(AsMap(s)[k]) else None
  {
    if x :| x in s && x.key == k then Some(x.item) else None
  }

  /** `HashSet::replace` */
  function Replace<T(==)>(s: set<SetItem<T>>, x: SetItem<T>): set<SetItem<T>> {
    (set y | y in s && !SameElement(y, x)) + {x}
  }

  /** `HashSet::take` */
  function Take<T(==)>(s: set<SetItem<T>>, k: T): set<SetItem<T>> {
    set y | y in s && y.key != k
  }

  /** The elements of a shard after an operation whose lookup gave `found`. */
  function Changed<T(==)>(s: set<SetItem<T>>, op: Op<T>, found: Option<Handle>): set<SetItem<T>> {
    match op
    case Insert(k, item) => Replace(s, NewItem(k, item))
    case TryInsert(k, item) => if found.Some? then s else s + {NewItem(k, item)}
    case Remove(k) => Take(s, k)
    case Get(_) => s
  }

  ghost function OnSet<T(!new)>(s: set<SetItem<T>>, op: Op<T>): (set<SetItem<T>>, Option<Handle>)
    requires IsHashSet(s)
  {
    (Changed(s, op, Lookup(s, op.key)), Lookup(s, op.key))
  }

  /** Equality by key makes the elements of a shard a map from keys to items. */
  lemma {:induction false} SetRefinesMap<T(!new)>(s: set<SetItem<T>>, op: Op<T>)
    requires IsHashSet(s)
    ensures IsHashSet(OnSet(s, op).0)
    ensures (AsMap(OnSet(s, op).0), OnSet(s, op).1) == OnMap(AsMap(s), op)
    ensures forall x | x in OnSet(s, op).0 :: x in s || x.key == op.key
  {
    var s' := OnSet(s, op).0;
    var m, goal := AsMap(s), OnMap(AsMap(s), op).0;
    var added := op.Insert? || (op.TryInsert? && op.key !in m);
    assert added ==> NewItem(op.key, op.item) in s';
    forall k | k in goal ensures exists x :: x in s' && x.key == k {
      if k in m && !(added && k == op.key) {
        var x :| x in s && x.key == k;
        assert x in s';
      }
    }
    MapIs(s', goal);
  }

  /** A write guard changes the content of an item, wherever an element holds it. */
  function Rewritten<T(==)>(s: set<SetItem<T>>, item: Handle, value: T): set<SetItem<T>> {
    set x | x in s :: WithContent(x, item, value)
  }

  function WithContent<T>(x: SetItem<T>, item: Handle, value: T): (y: SetItem<T>)
    ensures y.key == x.key && y.item == x.item
  {
    if x.item == item then x.(content := value) else x
  }

  lemma {:induction false} RewrittenFrom<T(!new)>(s: set<SetItem<T>>, item: Handle, value: T)
    ensures forall y | y in Rewritten(s, item, value) :: exists x :: x in s && y == WithContent(x, item, value)
    ensures forall x | x in s :: WithContent(x, item, value) in Rewritten(s, item, value)
  {
    hide WithContent;
  }

  /** The elements are as many, with the keys and the items they had. */
  lemma {:induction false} RewrittenIs<T(!new)>(s: set<SetItem<T>>, item: Handle, value: T)
    requires IsHashSet(s)
    ensures IsHashSet(Rewritten(s, item, value)) && AsMap(Rewritten(s, item, value)) == AsMap(s)
    ensures forall y | y in Rewritten(s, item, value) :: exists x :: x in s && x.key == y.key
  {
    hide WithContent, Rewritten;
    var s' := Rewritten(s, item, value);
    RewrittenFrom(s, item, value);
    forall y | y in s' ensures y.key in AsMap(s) && AsMap(s)[y.key] == y.item {
      var x :| x in s && y == WithContent(x, item, value);
    }
    forall k | k in AsMap(s) ensures exists y :: y in s' && y.key == k {
      var x :| x in s && x.key == k;
      assert WithContent(x, item, value) in s';
    }
    MapIs(s', AsMap(s));
  }

  /** What a write does: the item's content is the value written, and every other element stays. */
  lemma {:induction false} WriteChanges<T(!new)>(s: set<SetItem<T>>, item: Handle, value: T)
    ensures forall x | x in s && x.item == item :: SetItem(x.key, item, value) in Rewritten(s, item, value)
    ensures forall y: SetItem<T> | y.item != item :: y in s <==> y in Rewritten(s, item, value)
    ensures forall y | y in Rewritten(s, item, value) && y.item == item :: y.content == value
  {
    RewrittenFrom(s, item, value);
    forall y: SetItem<T> | y.item != item ensures y in s <==> y in Rewritten(s, item, value) {
      if y in s { assert WithContent(y, item, value) == y; }
    }
  }

  /** A new element holds its key, its item and a clone of the key, and elements of other keys stay. */
  lemma {:induction false} InsertChanges<T(!new)>(s: set<SetItem<T>>, op: Op<T>)
    requires IsHashSet(s)
    ensures op.Insert? || (op.TryInsert? && op.key !in AsMap(s)) ==>
              SetItem(op.key, op.item, op.key) in OnSet(s, op).0
    ensures op.Remove? ==> forall y | y in OnSet(s, op).0 :: y.key != op.key
    ensures op.Get? || (op.TryInsert? && op.key in AsMap(s)) ==> OnSet(s, op).0 == s
    ensures forall y: SetItem<T> | y.key != op.key :: y in s <==> y in OnSet(s, op).0
  {
  }

  // ---------- the 64 shards ----------

  type Sets<T(==)> = seq<set<SetItem<T>>>

  /** Every element is in the shard that the hash of its key selects. */
  ghost predicate PlacedSets<T(!new)>(hash: Hasher<T>, sets: Sets<T>) {
    && |sets| == SHARDS_COUNT
    && (forall i | 0 <= i < |sets| :: IsHashSet(sets[i]))
    && (forall i: nat, x | i < |sets| && x in sets[i] :: ShardOf(hash, x.key) == i)
  }

  ghost function AsMaps<T(!new)>(sets: Sets<T>): (maps: seq<Shard<T>>)
    requires forall i | 0 <= i < |sets| :: IsHashSet(sets[i])
    ensures |maps| == |sets| && forall i | 0 <= i < |sets| :: maps[i] == AsMap(sets[i])
  {
    seq(|sets|, i requires 0 <= i < |sets| => AsMap(sets[i]))
  }

  /** The one map that the set stands for. */
  ghost function OneMap<T(!new)>(hash: Hasher<T>, sets: Sets<T>): Shard<T>
    requires PlacedSets(hash, sets)
  {
    Union(AsMaps(sets))
  }

  lemma {:induction false} MapsArePlaced<T(!new)>(hash: Hasher<T>, sets: Sets<T>)
    requires PlacedSets(hash, sets)
    ensures Placed(hash, AsMaps(sets))
  {
    forall i: nat, k | i < SHARDS_COUNT && k in AsMaps(sets)[i] ensures ShardOf(hash, k) == i {
      var x :| x in sets[i] && x.key == k;
    }
  }

  /** An operation on the shard that the hash of the queried value selects. */
  ghost function OnSets<T(!new)>(hash: Hasher<T>, sets: Sets<T>, op: Op<T>): (Sets<T>, Option<Handle>)
    requires PlacedSets(hash, sets)
  {
    var i := ShardOf(hash, op.key);
    (sets[i := OnSet(sets[i], op).0], OnSet(sets[i], op).1)
  }

  /** Every operation acts and answers as on the one map, and elements stay in their shards. */
  lemma {:induction false} SetsRefineMap<T(!new)>(hash: Hasher<T>, sets: Sets<T>, op: Op<T>)
    requires PlacedSets(hash, sets)
    ensures PlacedSets(hash, OnSets(hash, sets, op).0)
    ensures (OneMap(hash, OnSets(hash, sets, op).0), OnSets(hash, sets, op).1) == OnMap(OneMap(hash, sets), op)
  {
    var i := ShardOf(hash, op.key);
    var sets' := OnSets(hash, sets, op).0;
    SetRefinesMap(sets[i], op);
    assert PlacedSets(hash, sets') by {
      forall j | 0 <= j < |sets'| ensures IsHashSet(sets'[j]) { assert j != i ==> sets'[j] == sets[j]; }
      forall j: nat, x: SetItem<T> | j < |sets'| && x in sets'[j] ensures ShardOf(hash, x.key) == j {
        assert x in sets[j] || (j == i && x.key == op.key);
      }
    }
    MapsArePlaced(hash, sets);
    assert AsMaps(sets') == OnShards(hash, AsMaps(sets), op).0;
    ShardsRefineMap(hash, AsMaps(sets), op);
  }

  function WrittenTo<T(==)>(sets: Sets<T>, item: Handle, value: T): (r: Sets<T>)
    ensures |r| == |sets| && forall i | 0 <= i < |sets| :: r[i] == Rewritten(sets[i], item, value)
  {
    seq(|sets|, i requires 0 <= i < |sets| => Rewritten(sets[i], item, value))
  }

  /** A write keeps every element in its shard and the one map as it is. */
  lemma {:induction false} WriteKeepsMap<T(!new)>(hash: Hasher<T>, sets: Sets<T>, item: Handle, value: T)
    requires PlacedSets(hash, sets)
    ensures PlacedSets(hash, WrittenTo(sets, item, value))
    ensures OneMap(hash, WrittenTo(sets, item, value)) == OneMap(hash, sets)
  {
    var sets' := WrittenTo(sets, item, value);
    hide IsHashSet, Rewritten, Union;
    forall i | 0 <= i < |sets|
      ensures IsHashSet(sets'[i]) && AsMap(sets'[i]) == AsMap(sets[i])
      ensures forall y: SetItem<T> | y in sets'[i] :: exists x :: x in sets[i] && x.key == y.key
    {
      RewrittenIs(sets[i], item, value);
    }
    forall i: nat, y: SetItem<T> | i < |sets'| && y in sets'[i] ensures ShardOf(hash, y.key) == i {
      var x: SetItem<T> :| x in sets[i] && x.key == y.key;
    }
    assert AsMaps(sets') == AsMaps(sets);
  }

  // ---------- interleaved operations and writes ----------

  /** What tasks do: operations on the set, and changes of an item's content under its write lock. */
  datatype Step<T> = Do(op: Op<T>) | Write(item: Handle, value: T)

  ghost function AfterStep<T(!new)>(hash: Hasher<T>, sets: Sets<T>, step: Step<T>): Sets<T>
    requires PlacedSets(hash, sets)
  {
    match step
    case Do(op) => OnSets(hash, sets, op).0
    case Write(item, value) => WrittenTo(sets, item, value)
  }

  /** The one map after some steps on an empty set, writes left out. */
  function MapAfter<T>(steps: seq<Step<T>>): Shard<T> {
    if steps == [] then map[]
    else
      var before := MapAfter(steps[..|steps| - 1]);
      match steps[|steps| - 1]
      case Do(op) => OnMap(before, op).0
      case Write(_, _) => before
  }

  lemma {:induction false} MapMore<T>(steps: seq<Step<T>>, step: Step<T>)
    ensures MapAfter(steps + [step]) == match step
                                        case Do(op) => OnMap(MapAfter(steps), op).0
                                        case Write(_, _) => MapAfter(steps)
  {
    assert (steps + [step])[..|steps|] == steps;
  }

  /**
   * The last word on a value: after an insert, a try_insert or a remove of it, and then no other of
   * these, it has the item inserted, some item, or none, whatever else was done and written.
   */
  lemma {:induction false} LastWord<T>(steps: seq<Step<T>>, i: nat, k: T)
    requires i < |steps| && steps[i].Do? && steps[i].op.key == k && !steps[i].op.Get?
    requires forall j | i < j < |steps| && steps[j].Do? && steps[j].op.key == k :: steps[j].op.Get?
    ensures steps[i].op.Remove? ==> k !in MapAfter(steps)
    ensures steps[i].op.Insert? ==> k in MapAfter(steps) && MapAfter(steps)[k] == steps[i].op.item
    ensures steps[i].op.TryInsert? ==> k in MapAfter(steps)
    decreases |steps|
  {
    var n := |steps| - 1;
    if i < n {
      LastWord(steps[..n], i, k);
    }
  }

  /** The sets are what the steps so far make of 64 empty ones, one lock at a time. */
  ghost predicate Made<T(!new)>(hash: Hasher<T>, steps: seq<Step<T>>, sets: Sets<T>)
    decreases |steps|
  {
    if steps == [] then sets == seq(SHARDS_COUNT, i => {})
    else
      var n := |steps| - 1;
      exists before ::
        Made(hash, steps[..n], before) && PlacedSets(hash, before) && sets == AfterStep(hash, before, steps[n])
  }

  /**
   * Placement and lookup survive mutation: after any interleaving of operations and of writes into
   * items, every element is in the shard of its key, and the shards stand for the one map that the
   * operations alone make.
   */
  lemma {:induction false} WritesAreInvisible<T(!new)>(hash: Hasher<T>, steps: seq<Step<T>>, sets: Sets<T>)
    requires Made(hash, steps, sets)
    ensures PlacedSets(hash, sets) && OneMap(hash, sets) == MapAfter(steps)
    decreases |steps|
  {
    if steps == [] {
      assert OneMap(hash, sets) == map[] by {
        forall k ensures k !in Union(AsMaps(sets)) { InUnion(AsMaps(sets), k); }
      }
    } else {
      var n := |steps| - 1;
      var before :|
        Made(hash, steps[..n], before) && PlacedSets(hash, before) && sets == AfterStep(hash, before, steps[n]);
      WritesAreInvisible(hash, steps[..n], before);
      match steps[n]
      case Do(op) => SetsRefineMap(hash, before, op);
      case Write(item, value) => WriteKeepsMap(hash, before, item, value);
    }
  }

  lemma {:induction false} MadeMore<T(!new)>(hash: Hasher<T>, steps: seq<Step<T>>, sets: Sets<T>, step: Step<T>)
    requires Made(hash, steps, sets)
    ensures PlacedSets(hash, sets) && Made(hash, steps + [step], AfterStep(hash, sets, step))
    ensures MapAfter(steps + [step]) == if step.Do? then OnMap(MapAfter(steps), step.op).0 else MapAfter(steps)
    ensures step.Do? ==> OnSets(hash, sets, step.op).1 == OnMap(MapAfter(steps), step.op).1
  {
    hide OnSets, WrittenTo, PlacedSets, OneMap, OnMap;
    WritesAreInvisible(hash, steps, sets);
    var more := steps + [step];
    assert more[..|more| - 1] == steps && more[|more| - 1] == step;
    if step.Do? { SetsRefineMap(hash, sets, step.op); }
  }

  class SharedSet<T(==, !new)> {
    const hash: Hasher<T>
    const shards: array<set<SetItem<T>>>
    var nextItem: Handle
    var others: seq<Step<T>>         // what the other tasks will do, in the order of their locks
    ghost var done: seq<Step<T>>     // every step so far, of this task and of the others

    ghost predicate Valid()
      reads this, shards
    {
      shards.Length == SHARDS_COUNT && Made(hash, done, shards[..])
    }

    /** The map from values to items that the elements in the shards stand for. */
    ghost function Contents(): (m: Shard<T>)
      requires Valid()
      reads this, shards
      ensures m == MapAfter(done)
    {
      WritesAreInvisible(hash, done, shards[..]);
      OneMap(hash, shards[..])
    }

    constructor (hash: Hasher<T>, others: seq<Step<T>>)
      ensures Valid() && done == [] && this.hash == hash && this.others == others && fresh(shards)
    {
      this.hash, this.others, nextItem, done := hash, others, 0, [];
      shards := new set<SetItem<T>>[SHARDS_COUNT](i => {});
      new;
      assert shards[..] == seq(SHARDS_COUNT, i => {});
    }

    /** One operation under the lock of its shard: it answers as the one map does. */
    method Run(op: Op<T>) returns (r: Option<Handle>)
      requires Valid()
      modifies shards, this`done
      ensures Valid() && done == old(done) + [Do(op)]
      ensures r == OnMap(MapAfter(old(done)), op).1
    {
      hide Made, MapAfter;
      ghost var sets := shards[..];
      MadeMore(hash, done, sets, Do(op));
      var i := ShardOf(hash, op.key);
      var own := shards[i];
      assert own == sets[i];
      var same := set x | x in own && x.key == op.key;
      r := None;
      if same != {} {
        var x :| x in same;
        r := Some(x.item);
      }
      if op.key in AsMap(own) {
        ghost var x: SetItem<T> :| x in own && x.key == op.key;
        assert x in same;
      }
      assert r == Lookup(own, op.key);
      shards[i] := Changed(own, op, r);
      done := done + [Do(op)];
      assert shards[..] == OnSets(hash, sets, op).0;
    }

    /** The content of an item is changed through a write guard. */
    method Write(item: Handle, value: T)
      requires Valid()
      modifies shards, this`done
      ensures Valid() && done == old(done) + [Step.Write(item, value)]
    {
      hide Made, MapAfter;
      ghost var sets := shards[..];
      MadeMore(hash, done, sets, Step.Write(item, value));
      forall i | 0 <= i < shards.Length {
        shards[i] := Rewritten(shards[i], item, value);
      }
      done := done + [Step.Write(item, value)];
      assert shards[..] == WrittenTo(sets, item, value);
    }

    /** Any number of steps of other tasks, while this task waits for a lock. */
    method Others()
      requires Valid()
      modifies shards, this`done, this`others
      ensures Valid() && old(done) <= done && done + others == old(done) + old(others)
    {
      hide Made, MapAfter;
      var n: nat :| n <= |others|;
      while n > 0
        invariant Valid() && old(done) <= done && n <= |others|
        invariant done + others == old(done) + old(others)
      {
        match others[0] {
          case Do(op) => var r := Run(op);
          case Write(item, value) => Write(item, value);
        }
        others := others[1..];
        n := n - 1;
      }
    }

    /** One operation of this task, after whatever the others do while it waits. */
    method Perform(op: Op<T>) returns (r: Option<Handle>, ghost before: seq<Step<T>>)
      requires Valid()
      modifies shards, this`done, this`others
      ensures Valid() && old(done) <= before && before + others == old(done) + old(others)
      ensures done == before + [Do(op)] && (Contents(), r) == OnMap(MapAfter(before), op)
    {
      hide Made, MapAfter;
      Others();
      before := done;
      r := Run(op);
      MapMore(before, Do(op));
    }

    method Insert(value: T) returns (overwritten: Option<Handle>, ghost before: seq<Step<T>>)
      requires Valid()
      modifies shards, this`done, this`others, this`nextItem
      ensures Valid() && old(done) <= before && before + others == old(done) + old(others)
      ensures done == before + [Do(Op.Insert(value, old(nextItem)))] && nextItem == old(nextItem) + 1
      ensures Contents() == MapAfter(before)[value := old(nextItem)]
      ensures overwritten == if value in MapAfter(before) then Some(MapAfter(before)[value]) else None
    {
      hide Made, MapAfter;
      nextItem := nextItem + 1;
      overwritten, before := Perform(Op.Insert(value, nextItem - 1));
    }

    method TryInsert(value: T) returns (existing: Option<Handle>, ghost before: seq<Step<T>>)
      requires Valid()
      modifies shards, this`done, this`others, this`nextItem
      ensures Valid() && old(done) <= before && before + others == old(done) + old(others)
      ensures done == before + [Do(Op.TryInsert(value, old(nextItem)))] && nextItem == old(nextItem) + 1
      ensures Contents() ==
              if value in MapAfter(before) then MapAfter(before) else MapAfter(before)[value := old(nextItem)]
      ensures existing == if value in MapAfter(before) then Some(MapAfter(before)[value]) else None
    {
      hide Made, MapAfter;
      nextItem := nextItem + 1;
      existing, before := Perform(Op.TryInsert(value, nextItem - 1));
    }

    method Remove(value: T) returns (removed: Option<Handle>, ghost before: seq<Step<T>>)
      requires Valid()
      modifies shards, this`done, this`others
      ensures Valid() && old(done) <= before && before + others == old(done) + old(others)
      ensures done == before + [Do(Op.Remove(value))]
      ensures Contents() == MapAfter(before) - {value}
      ensures removed == if value in MapAfter(before) then Some(MapAfter(before)[value]) else None
    {
      hide Made, MapAfter;
      removed, before := Perform(Op.Remove(value));
    }

    method Get(value: T) returns (item: Option<Handle>, ghost before: seq<Step<T>>)
      requires Valid()
      modifies shards, this`done, this`others
      ensures Valid() && old(done) <= before && before + others == old(done) + old(others)
      ensures done == before + [Do(Op.Get(value))]
      ensures Contents() == MapAfter(before)
      ensures item == if value in MapAfter(before) then Some(MapAfter(before)[value]) else None
    {
      hide Made, MapAfter;
      item, before := Perform(Op.Get(value));
    }
  }
}
