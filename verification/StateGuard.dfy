/** The atomic state and its copy-on-write guard: `src/state/guard.rs` and `src/state/mod.rs`. */
module StateGuards {
  import opened Basics

  /** A reference-counted value; two of them are the same pointer exactly when their ids agree. */
  datatype Arc<T> = Arc(id: nat, value: T)

  /** The atomically swapped pointer, and the next unused pointer id. */
  datatype Cell<T> = Cell(swap: Arc<T>, next: nat)

  /** The fields of a guard, without the mutex it keeps locked. */
  datatype Guard<T> = Guard(current: Arc<T>, mutated: Option<T>, counter: nat)

  /** What the holder of a guard can do with it. */
  datatype Op<!T> = Mutate(f: T -> T) | Sync | SyncN(n: nat) | Cancel

  function NewCell<T>(v: T): Cell<T> {
    Cell(Arc(0, v), 1)
  }

  /** `swap.store(Arc::new(v))` */
  function Store<T>(c: Cell<T>, v: T): Cell<T> {
    Cell(Arc(c.next, v), c.next + 1)
  }

  /** A guard as `lock` makes it. */
  function Begin<T>(c: Cell<T>): Guard<T> {
    Guard(c.swap, None, 0)
  }

  /** `Deref` */
  function View<T>(g: Guard<T>): T {
    if g.mutated.Some? then g.mutated.value else g.current.value
  }

  function ApplySync<T>(c: Cell<T>, g: Guard<T>): (Cell<T>, Guard<T>) {
    if g.mutated.Some? then
      var c' := Store(c, g.mutated.value);
      (c', g.(current := c'.swap))
    else (c, g)
  }

  predicate SyncNow<T>(g: Guard<T>, n: nat) {
    g.mutated.Some? && (n == 0 || g.counter % n == 0)
  }

  function Apply<T>(op: Op<T>, c: Cell<T>, g: Guard<T>): (Cell<T>, Guard<T>) {
    match op
    case Mutate(f) => (c, g.(mutated := Some(f(View(g)))))
    case Sync => ApplySync(c, g)
    case SyncN(n) =>
      var (c', g') := if SyncNow(g, n) then ApplySync(c, g) else (c, g);
      (c', g'.(counter := g'.counter + 1))
    case Cancel => (c, g.(mutated := None))
  }

  // ---------- the classes, operation by operation ----------

  class SharedState<T> {
    var cell: Cell<T>
    var locked: bool

    constructor (v: T)
      ensures cell == NewCell(v) && !locked
    {
      cell, locked := NewCell(v), false;
    }

    /** `lock`, from the moment the mutex is free. */
    method Lock() returns (g: StateGuard<T>)
      requires !locked
      modifies this`locked
      ensures fresh(g) && g.state == this && locked && g.Fields() == Begin(cell)
    {
      Acquire();
      g := Load();
    }

    /** `lock_owned`, when the mutex is free. */
    method Acquire()
      requires !locked
      modifies this`locked
      ensures locked
    {
      locked := true;
    }

    /** The pointer is loaded by a task that has the mutex. */
    method Load() returns (g: StateGuard<T>)
      requires locked
      ensures fresh(g) && g.state == this && g.Fields() == Begin(cell)
    {
      g := new StateGuard(this);
    }

    /** The mutex guard is dropped. */
    method Unlock()
      requires locked
      modifies this`locked
      ensures !locked
    {
      locked := false;
    }

    /** `set` and `blocking_set`: the lock is released before the store, so it need not be free here. */
    method Set(v: T)
      modifies this`cell
      ensures cell == Store(old(cell), v)
    {
      cell := Store(cell, v);
    }

    /** `get` and `get_locked`, which never waits for the lock either. */
    method Get() returns (a: Arc<T>)
      ensures a == cell.swap
    {
      a := cell.swap;
    }
  }

  class StateGuard<T> {
    const state: SharedState<T>
    var currentArc: Arc<T>
    var mutatedData: Option<T>
    var counter: nat

    function Fields(): Guard<T>
      reads this
    {
      Guard(currentArc, mutatedData, counter)
    }

    constructor (state: SharedState<T>)
      ensures this.state == state && Fields() == Begin(state.cell)
    {
      this.state, currentArc, mutatedData, counter := state, state.cell.swap, None, 0;
    }

    /** `Deref` */
    method Read() returns (v: T)
      ensures v == View(Fields())
    {
      if mutatedData.Some? { v := mutatedData.value; } else { v := currentArc.value; }
    }

    /** `DerefMut`, and the change made through the reference it returns. */
    method Change(f: T -> T)
      modifies this`mutatedData
      ensures (state.cell, Fields()) == Apply(Mutate(f), old(state.cell), old(Fields()))
    {
      if mutatedData.None? {
        mutatedData := Some(currentArc.value);
      }
      mutatedData := Some(f(mutatedData.value));
    }

    method Cancel()
      modifies this`mutatedData
      ensures (state.cell, Fields()) == Apply(Op<T>.Cancel, old(state.cell), old(Fields()))
    {
      mutatedData := None;
    }

    method Sync()
      modifies this`currentArc, state`cell
      ensures (state.cell, Fields()) == Apply(Op<T>.Sync, old(state.cell), old(Fields()))
    {
      if mutatedData.Some? {
        var newArc := Arc(state.cell.next, mutatedData.value);
        state.cell := Cell(newArc, state.cell.next + 1);
        currentArc := newArc;
      }
    }

    method SyncN(n: nat)
      modifies this`currentArc, this`counter, state`cell
      ensures (state.cell, Fields()) == Apply(Op<T>.SyncN(n), old(state.cell), old(Fields()))
    {
      if mutatedData.Some? && (n == 0 || counter % n == 0) {
        Sync();
      }
      counter := counter + 1;
    }

    /** One operation of the holder. */
    method Perform(op: Op<T>)
      modifies this, state`cell
      ensures (state.cell, Fields()) == Apply(op, old(state.cell), old(Fields()))
    {
      match op
      case Mutate(f) => Change(f);
      case Sync => Sync();
      case SyncN(n) => SyncN(n);
      case Cancel => Cancel();
    }

    /** `Drop`, and then the release of the mutex. */
    method Drop()
      requires state.locked
      modifies this`currentArc, state`cell, state`locked
      ensures (state.cell, Fields()) == Apply(Op<T>.Sync, old(state.cell), old(Fields()))
      ensures !state.locked
    {
      Sync();
      state.Unlock();
    }
  }

  // ---------- one guard on its own ----------

  function ApplyAll<T>(ops: seq<Op<T>>, c: Cell<T>, g: Guard<T>): (Cell<T>, Guard<T>) {
    if ops == [] then (c, g)
    else var (c', g') := Apply(ops[0], c, g); ApplyAll(ops[1..], c', g')
  }

  lemma {:induction false} ApplyAllAppend<T>(a: seq<Op<T>>, b: seq<Op<T>>, c: Cell<T>, g: Guard<T>)
    ensures ApplyAll(a + b, c, g) == ApplyAll(b, ApplyAll(a, c, g).0, ApplyAll(a, c, g).1)
    decreases |a|
  {
    if a == [] {
      assert a + b == b;
    } else {
      assert (a + b)[1..] == a[1..] + b;
      var (c', g') := Apply(a[0], c, g);
      ApplyAllAppend(a[1..], b, c', g');
    }
  }

  /** While only this guard stores, its pointer is the published one. */
  lemma {:induction false} PointerAgrees<T>(ops: seq<Op<T>>, c: Cell<T>, g: Guard<T>)
    requires g.current == c.swap
    ensures ApplyAll(ops, c, g).1.current == ApplyAll(ops, c, g).0.swap
    decreases |ops|
  {
    if ops != [] {
      var (c', g') := Apply(ops[0], c, g);
      PointerAgrees(ops[1..], c', g');
    }
  }

  /** Is a call that publishes when the guard is modified and its counter is `k`. */
  predicate Publishing<T>(op: Op<T>, k: nat) {
    op.Sync? || (op.SyncN? && (op.n == 0 || k % op.n == 0))
  }

  /**
   * What a guard last published, computed without pointers: the value it was created with, or the
   * working value at the last publishing call.
   */
  function LastPublished<T>(ops: seq<Op<T>>, published: T, working: Option<T>, k: nat): T
    decreases |ops|
  {
    if ops == [] then published
    else
      var op := ops[0];
      var published' := if working.Some? && Publishing(op, k) then working.value else published;
      var working' := match op
                      case Mutate(f) => Some(f(if working.Some? then working.value else published))
                      case Cancel => None
                      case _ => working;
      LastPublished(ops[1..], published', working', if op.SyncN? then k + 1 else k)
  }

  lemma {:induction false} CurrentIsPublished<T>(ops: seq<Op<T>>, c: Cell<T>, g: Guard<T>)
    ensures ApplyAll(ops, c, g).1.current.value == LastPublished(ops, g.current.value, g.mutated, g.counter)
    decreases |ops|
  {
    if ops != [] {
      var (c', g') := Apply(ops[0], c, g);
      CurrentIsPublished(ops[1..], c', g');
    }
  }

  /**
   * Rollback: whatever a guard did before, `cancel` takes it back to the value it last published,
   * or was created with, and dropping it then publishes nothing.
   */
  lemma {:induction false} CancelRollsBack<T>(ops: seq<Op<T>>, c: Cell<T>)
    ensures var (c', g') := ApplyAll(ops + [Cancel], c, Begin(c));
            && View(g') == LastPublished(ops, c.swap.value, None, 0) == c'.swap.value
            && Apply(Sync, c', g') == (c', g')
  {
    var g := Begin(c);
    ApplyAllAppend(ops, [Cancel], c, g);
    PointerAgrees(ops, c, g);
    CurrentIsPublished(ops, c, g);
    var (c1, g1) := ApplyAll(ops, c, g);
    assert [Op<T>.Cancel][1..] == [];
    assert ApplyAll([Op<T>.Cancel], c1, g1) == Apply(Op<T>.Cancel, c1, g1);
  }

  /** The changes among the operations, one after the other. */
  function Changes<T>(ops: seq<Op<T>>, v: T): T
    decreases |ops|
  {
    if ops == [] then v else Changes(ops[1..], if ops[0].Mutate? then ops[0].f(v) else v)
  }

  predicate NoCancel<T>(ops: seq<Op<T>>) {
    forall i | 0 <= i < |ops| :: !ops[i].Cancel?
  }

  lemma {:induction false} ViewIsChanges<T>(ops: seq<Op<T>>, c: Cell<T>, g: Guard<T>)
    requires NoCancel(ops)
    ensures View(ApplyAll(ops, c, g).1) == Changes(ops, View(g))
    decreases |ops|
  {
    if ops != [] {
      var (c', g') := Apply(ops[0], c, g);
      ViewIsChanges(ops[1..], c', g');
    }
  }

  /**
   * What the holder of a guard reads: its own changes since the guard was created or last
   * cancelled, on top of the value that was loaded or last published before that.
   */
  lemma {:induction false} ReadsOwnChanges<T>(before: seq<Op<T>>, after: seq<Op<T>>, c: Cell<T>)
    requires before == [] || before[|before| - 1].Cancel?
    requires NoCancel(after)
    ensures View(ApplyAll(before + after, c, Begin(c)).1)
            == Changes(after, LastPublished(before, c.swap.value, None, 0))
  {
    ApplyAllAppend(before, after, c, Begin(c));
    if before != [] {
      var n := |before| - 1;
      assert before == before[..n] + [Cancel];
      CancelRollsBack(before[..n], c);
      CurrentIsPublished(before, c, Begin(c));
      ApplyAllAppend(before[..n], [Cancel], c, Begin(c));
      assert [Op<T>.Cancel][1..] == [];
    }
    ViewIsChanges(after, ApplyAll(before, c, Begin(c)).0, ApplyAll(before, c, Begin(c)).1);
  }

  // ---------- the schedule of sync_n ----------

  /** The operations between a first change and the end: changes, and calls of `sync_n(n)`. */
  predicate Paced<T>(ops: seq<Op<T>>, n: nat) {
    forall i | 0 <= i < |ops| :: ops[i].Mutate? || (ops[i].SyncN? && ops[i].n == n)
  }

  function Calls<T>(ops: seq<Op<T>>): (k: nat)
    ensures k <= |ops|
  {
    if ops == [] then 0 else (if ops[0].SyncN? then 1 else 0) + Calls(ops[1..])
  }

  function CeilDiv(a: nat, n: nat): nat
    requires n > 0
  {
    (a + n - 1) / n
  }

  /** The counter counts every call of `sync_n`, publishing or not, on a changed guard or not. */
  lemma {:induction false} CountsCalls<T>(ops: seq<Op<T>>, c: Cell<T>, g: Guard<T>)
    ensures ApplyAll(ops, c, g).1.counter == g.counter + Calls(ops)
    decreases |ops|
  {
    if ops != [] {
      var (c', g') := Apply(ops[0], c, g);
      CountsCalls(ops[1..], c', g');
    }
  }

  /** How many of `k` calls publish, the counter being `counter` before the first. */
  function Scheduled(counter: nat, k: nat, n: nat): int {
    if n == 0 then k else CeilDiv(counter + k, n) - CeilDiv(counter, n)
  }

  lemma {:induction false} CeilStep(a: nat, n: nat)
    requires n > 0
    ensures CeilDiv(a + 1, n) == CeilDiv(a, n) + (if a % n == 0 then 1 else 0)
  {
    var q, r := a / n, a % n;
    assert a == n * q + r;
    assert n * (q + 1) == n * q + n;
    if r == 0 {
      DivIs(a + n - 1, n, q, n - 1);
      DivIs(a + n, n, q + 1, 0);
    } else {
      DivIs(a + n - 1, n, q + 1, r - 1);
      DivIs(a + n, n, q + 1, r);
    }
  }

  lemma {:induction false} DivIs(a: nat, n: nat, q: nat, r: nat)
    requires n > 0 && r < n && a == n * q + r
    ensures a / n == q
  {
    var d := q - a / n;
    MultipleOf(n, d);
    assert a == n * (a / n) + a % n;
    assert n * d == a % n - r;
  }

  lemma {:induction false} MultipleOf(n: nat, d: int)
    ensures d >= 1 ==> n * d >= n
    ensures d <= -1 ==> n * d + n <= 0
  {
  }

  /**
   * Over any changes and k calls of `sync_n(n)` on a modified guard, the number of publications is
   * the number of multiples of n among the counter values; k when n is zero.
   */
  lemma {:induction false} SyncSchedule<T>(ops: seq<Op<T>>, n: nat, c: Cell<T>, g: Guard<T>)
    requires Paced(ops, n) && g.mutated.Some?
    ensures var (c', g') := ApplyAll(ops, c, g);
            && c'.next - c.next == Scheduled(g.counter, Calls(ops), n)
            && g'.counter == g.counter + Calls(ops) && g'.mutated.Some?
    decreases |ops|
  {
    if ops != [] {
      var (c', g') := Apply(ops[0], c, g);
      SyncSchedule(ops[1..], n, c', g');
      if n > 0 { CeilStep(g.counter, n); }
    }
  }

  /** On a fresh guard that is changed first, k calls of `sync_n(n)` publish ceil(k / n) times. */
  lemma {:induction false} FreshSchedule<T>(f: T -> T, ops: seq<Op<T>>, n: nat, c: Cell<T>)
    requires Paced(ops, n)
    ensures ApplyAll([Mutate(f)] + ops, c, Begin(c)).0.next - c.next
            == if n == 0 then Calls(ops) else CeilDiv(Calls(ops), n)
  {
    var all := [Mutate(f)] + ops;
    assert all[1..] == ops;
    var (c', g') := Apply(Mutate(f), c, Begin(c));
    SyncSchedule(ops, n, c', g');
    if n > 0 { DivIs(n - 1, n, 0, n - 1); }
  }

  /**
   * Staleness: after at least one call of `sync_n(n)` on a fresh guard that was changed first, the
   * published value is the working value of an earlier call, fewer than n calls back (the last
   * call when n is zero).
   */
  lemma {:induction false} PublishedLags<T>(f: T -> T, ops: seq<Op<T>>, n: nat, c: Cell<T>)
    requires Paced(ops, n) && Calls(ops) > 0
    ensures exists i :: 0 <= i < |ops| && ops[i].SyncN?
              && Calls(ops[i + 1..]) < (if n == 0 then 1 else n)
              && ApplyAll([Mutate(f)] + ops, c, Begin(c)).0.swap.value
                 == View(ApplyAll([Mutate(f)] + ops[..i], c, Begin(c)).1)
  {
    var all := [Mutate(f)] + ops;
    assert all[1..] == ops;
    var (c0, g0) := Apply(Mutate(f), c, Begin(c));
    var i := LagFrom(ops, n, c0, g0);
    assert ([Mutate(f)] + ops[..i])[1..] == ops[..i];
  }

  /** The index of the last publishing call, found from the front. */
  lemma {:induction false} LagFrom<T>(ops: seq<Op<T>>, n: nat, c: Cell<T>, g: Guard<T>) returns (i: nat)
    requires Paced(ops, n) && g.mutated.Some? && Calls(ops) > 0
    requires n > 0 ==> Calls(ops) > Distance(g.counter, n)
    ensures i < |ops| && ops[i].SyncN? && Calls(ops[i + 1..]) < (if n == 0 then 1 else n)
    ensures ApplyAll(ops, c, g).0.swap.value == View(ApplyAll(ops[..i], c, g).1)
    decreases |ops|
  {
    var (c', g') := Apply(ops[0], c, g);
    var rest := ops[1..];
    if n > 0 { DistanceStep(g.counter, n); }
    if ops[0].SyncN? && Calls(rest) < (if n == 0 then 1 else n) && SyncNow(g, n) {
      i := 0;
      NoPublication(rest, n, c', g');
      assert ops[..0] == [];
    } else {
      var j := LagFrom(rest, n, c', g');
      i := j + 1;
      assert ops[i + 1..] == rest[j + 1..];
      assert ops[..i][1..] == rest[..j];
    }
  }

  /** How far the counter is from the next multiple of n. */
  function Distance(counter: nat, n: nat): nat
    requires n > 0
  {
    if counter % n == 0 then 0 else n - counter % n
  }

  lemma {:induction false} DistanceStep(a: nat, n: nat)
    requires n > 0
    ensures Distance(a + 1, n) == if a % n == 0 then n - 1 else Distance(a, n) - 1
  {
    var q, r := a / n, a % n;
    assert a == n * q + r;
    if r + 1 < n {
      ModIs(a + 1, n, q, r + 1);
    } else {
      assert n * (q + 1) == n * q + n;
      ModIs(a + 1, n, q + 1, 0);
    }
  }

  lemma {:induction false} ModIs(a: nat, n: nat, q: nat, r: nat)
    requires n > 0 && r < n && a == n * q + r
    ensures a % n == r
  {
    DivIs(a, n, q, r);
    assert a == n * (a / n) + a % n;
  }

  /** Calls that meet no multiple of n publish nothing. */
  lemma {:induction false} NoPublication<T>(ops: seq<Op<T>>, n: nat, c: Cell<T>, g: Guard<T>)
    requires Paced(ops, n) && g.mutated.Some?
    requires if n == 0 then Calls(ops) == 0 else Calls(ops) <= Distance(g.counter, n)
    ensures ApplyAll(ops, c, g).0 == c
    decreases |ops|
  {
    if ops != [] {
      var (c', g') := Apply(ops[0], c, g);
      if n > 0 { DistanceStep(g.counter, n); }
      NoPublication(ops[1..], n, c', g');
    }
  }
}
