/**
 * Any number of tasks over one `State`, step by step: `lock` waits for the mutex, then loads the
 * pointer; a guard works on its own copy; dropping it publishes and then releases the mutex;
 * `set` passes through the mutex and stores later, without it.
 */
module StateRuns {
  import opened Basics
  import opened StateGuards

  type Task = nat

  /** Where a task that has the mutex is in its transaction. */
  datatype Stage<T> = Granted | Open(guard: Guard<T>) | Dropped

  datatype Sys<T> = Sys(
    cell: Cell<T>,
    mutex: Option<Task>,
    stages: map<Task, Stage<T>>,
    passed: set<Task>)          // tasks in `set` that are past the mutex and have not stored yet

  datatype Event<!T> =
    | Acquire(task: Task)
    | Load(task: Task)
    | Do(task: Task, op: Op<T>)
    | Commit(task: Task)                 // `Drop for StateGuard`
    | Unlock(task: Task)                 // the mutex guard is dropped after it
    | Pass(task: Task)                   // `let _ = mutex.lock().await`
    | SetStore(task: Task, value: T)

  function Init<T>(v: T): Sys<T> {
    Sys(NewCell(v), None, map[], {})
  }

  predicate Enabled<T>(s: Sys<T>, ev: Event<T>) {
    match ev
    case Acquire(t) => s.mutex.None? && t !in s.stages
    case Load(t) => t in s.stages && s.stages[t].Granted?
    case Do(t, _) => t in s.stages && s.stages[t].Open?
    case Commit(t) => t in s.stages && s.stages[t].Open?
    case Unlock(t) => t in s.stages && s.stages[t].Dropped?
    case Pass(t) => s.mutex.None? && t !in s.passed
    case SetStore(t, _) => t in s.passed
  }

  function Fire<T>(s: Sys<T>, ev: Event<T>): Sys<T>
    requires Enabled(s, ev)
  {
    match ev
    case Acquire(t) => s.(mutex := Some(t), stages := s.stages[t := Granted])
    case Load(t) => s.(stages := s.stages[t := Open(Begin(s.cell))])
    case Do(t, op) =>
      var (c', g') := Apply(op, s.cell, s.stages[t].guard);
      s.(cell := c', stages := s.stages[t := Open(g')])
    case Commit(t) =>
      s.(cell := ApplySync(s.cell, s.stages[t].guard).0, stages := s.stages[t := Dropped])
    case Unlock(t) => s.(mutex := None, stages := s.stages - {t})
    case Pass(t) => s.(passed := s.passed + {t})
    case SetStore(t, v) => s.(cell := Store(s.cell, v), passed := s.passed - {t})
  }

  /** The state after the events; an event that is not enabled is skipped. */
  function After<T>(v: T, evs: seq<Event<T>>): Sys<T>
    decreases |evs|
  {
    if evs == [] then Init(v)
    else
      var s := After(v, evs[..|evs| - 1]);
      if Enabled(s, evs[|evs| - 1]) then Fire(s, evs[|evs| - 1]) else s
  }

  /** The events can happen one after the other from `Init(v)`. */
  predicate Run<T>(v: T, evs: seq<Event<T>>)
    decreases |evs|
  {
    evs == [] || (Run(v, evs[..|evs| - 1]) && Enabled(After(v, evs[..|evs| - 1]), evs[|evs| - 1]))
  }

  // ---------- the serial reference ----------

  /** A transaction as its author wrote it: the operations of one guard, or one `set`. */
  datatype Tx<!T> = Locked(task: Task, ops: seq<Op<T>>) | Set(value: T)

  /** The transactions of a run in the order in which guards load and sets store. */
  function Transactions<T>(evs: seq<Event<T>>): seq<Tx<T>>
    decreases |evs|
  {
    if evs == [] then [] else NextTx(Transactions(evs[..|evs| - 1]), evs[|evs| - 1])
  }

  function NextTx<T>(txs: seq<Tx<T>>, ev: Event<T>): seq<Tx<T>> {
    match ev
    case Load(t) => txs + [Locked(t, [])]
    case Do(t, op) => AddOp(txs, op)
    case SetStore(_, v) => txs + [Set(v)]
    case _ => txs
  }

  /** The operation belongs to the last guard, whatever was set since it loaded. */
  function AddOp<T>(txs: seq<Tx<T>>, op: Op<T>): (r: seq<Tx<T>>)
    ensures |r| == |txs|
    decreases |txs|
  {
    if txs == [] then []
    else
      var n := |txs| - 1;
      match txs[n]
      case Locked(t, ops) => txs[..n] + [Locked(t, ops + [op])]
      case Set(_) => AddOp(txs[..n], op) + [txs[n]]
  }

  /** The value a guard leaves behind when nothing else runs: what its drop publishes. */
  function Alone<T>(ops: seq<Op<T>>, v: T): T {
    var (c, g) := ApplyAll(ops, NewCell(v), Begin(NewCell(v)));
    ApplySync(c, g).0.swap.value
  }

  /** A guard that is not cancelled leaves its changes, made one after the other. */
  lemma {:induction false} AloneIsChanges<T>(ops: seq<Op<T>>, v: T)
    requires NoCancel(ops)
    ensures Alone(ops, v) == Changes(ops, v)
  {
    var c, g := NewCell(v), Begin(NewCell(v));
    ViewIsChanges(ops, c, g);
    PointerAgrees(ops, c, g);
  }

  /** The transactions one after the other, each on what the one before it left. */
  function Serial<T>(txs: seq<Tx<T>>, v: T): T
    decreases |txs|
  {
    if txs == [] then v
    else
      var before := Serial(txs[..|txs| - 1], v);
      match txs[|txs| - 1]
      case Locked(_, ops) => Alone(ops, before)
      case Set(w) => w
  }

  // ---------- invariants of every run ----------

  /** Mutual exclusion: only the task that has the mutex is in a transaction. */
  ghost predicate Exclusive<T>(s: Sys<T>) {
    && (s.mutex.None? ==> s.stages == map[])
    && (s.mutex.Some? ==> s.stages.Keys == {s.mutex.value})
  }

  predicate NoGuard<T>(s: Sys<T>) {
    forall t | t in s.stages :: !s.stages[t].Open?
  }

  /** While a guard is held its pointer is the published one. */
  ghost predicate PointersAgree<T>(s: Sys<T>) {
    forall t | t in s.stages && s.stages[t].Open? :: s.stages[t].guard.current == s.cell.swap
  }

  ghost predicate IdsBelow<T>(s: Sys<T>) {
    s.cell.swap.id < s.cell.next
    && forall t | t in s.stages && s.stages[t].Open? :: s.stages[t].guard.current.id < s.cell.next
  }

  lemma {:induction false} FireKeepsExclusive<T>(s: Sys<T>, ev: Event<T>)
    requires Enabled(s, ev) && Exclusive(s) && IdsBelow(s)
    ensures Exclusive(Fire(s, ev)) && IdsBelow(Fire(s, ev))
  {
  }

  /** In every run at most one task is in a transaction, the one that has the mutex. */
  lemma {:induction false} RunIsExclusive<T>(v: T, evs: seq<Event<T>>)
    ensures Exclusive(After(v, evs)) && IdsBelow(After(v, evs))
    decreases |evs|
  {
    if evs != [] {
      var n := |evs| - 1;
      var s := After(v, evs[..n]);
      RunIsExclusive(v, evs[..n]);
      if Enabled(s, evs[n]) { FireKeepsExclusive(s, evs[n]); }
    }
  }

  /** Every store of a `set` comes at a moment when no guard is held. */
  predicate QuietSets<T>(v: T, evs: seq<Event<T>>)
    decreases |evs|
  {
    evs == [] ||
    (QuietSets(v, evs[..|evs| - 1]) && (evs[|evs| - 1].SetStore? ==> NoGuard(After(v, evs[..|evs| - 1]))))
  }

  /**
   * One step and the pointers: a guard's pointer stays the published one through every step but a
   * store of `set`, and through that exactly when no guard is held.
   */
  lemma {:induction false} StepPointers<T>(s: Sys<T>, ev: Event<T>)
    requires Enabled(s, ev) && Exclusive(s) && IdsBelow(s) && PointersAgree(s)
    ensures PointersAgree(Fire(s, ev)) <==> (ev.SetStore? ==> NoGuard(s))
  {
  }

  ghost predicate AlwaysAgree<T>(v: T, evs: seq<Event<T>>) {
    forall k | 0 <= k <= |evs| :: PointersAgree(After(v, evs[..k]))
  }

  /**
   * In any run the pointer of a held guard is always the published one if and only if every store
   * of a `set` comes when no guard is held.
   */
  lemma {:induction false} PointersExactly<T>(v: T, evs: seq<Event<T>>)
    requires Run(v, evs)
    ensures AlwaysAgree(v, evs) <==> QuietSets(v, evs)
    decreases |evs|
  {
    assert evs[..|evs|] == evs;
    if evs != [] {
      var n := |evs| - 1;
      var before := evs[..n];
      PointersExactly(v, before);
      RunIsExclusive(v, before);
      assert before[..n] == before;
      assert forall k | 0 <= k <= n :: before[..k] == evs[..k];
      assert AlwaysAgree(v, evs) <==> AlwaysAgree(v, before) && PointersAgree(After(v, evs));
      if AlwaysAgree(v, before) {
        assert PointersAgree(After(v, before[..n]));
        StepPointers(After(v, before), evs[n]);
      }
    }
  }

  // ---------- serializability ----------

  /** The event publishes the working value of a guard. */
  predicate GuardPublishes<T>(s: Sys<T>, ev: Event<T>) {
    Enabled(s, ev) && !ev.SetStore? && Published(s, ev).Some?
  }

  /** Without the sets after the last guard. */
  function DropSets<T>(txs: seq<Tx<T>>): (r: seq<Tx<T>>)
    ensures r <= txs && (r != [] ==> r[|r| - 1].Locked?)
    ensures forall i | |r| <= i < |txs| :: txs[i].Set?
    decreases |txs|
  {
    if txs == [] || txs[|txs| - 1].Locked? then txs else DropSets(txs[..|txs| - 1])
  }

  /** The transactions of a run but for the sets that a guard loaded before and published over. */
  function Surviving<T>(v: T, evs: seq<Event<T>>): seq<Tx<T>>
    decreases |evs|
  {
    if evs == [] then []
    else
      var n := |evs| - 1;
      var txs := NextTx(Surviving(v, evs[..n]), evs[n]);
      if GuardPublishes(After(v, evs[..n]), evs[n]) then DropSets(txs) else txs
  }

  lemma {:induction false} OneSetMore<T>(txs: seq<Tx<T>>, w: T, op: Op<T>)
    ensures DropSets(txs + [Set(w)]) == DropSets(txs) && AddOp(txs + [Set(w)], op) == AddOp(txs, op) + [Set(w)]
  {
    assert (txs + [Set(w)])[..|txs|] == txs;
  }

  lemma {:induction false} OneGuardMore<T>(before: seq<Tx<T>>, t: Task, ops: seq<Op<T>>, op: Op<T>)
    ensures DropSets(before + [Locked(t, ops)]) == before + [Locked(t, ops)]
    ensures AddOp(before + [Locked(t, ops)], op) == before + [Locked(t, ops + [op])]
  {
    assert (before + [Locked(t, ops)])[..|before|] == before;
  }

  /** The operation goes to the last guard, and the sets after it stay. */
  ghost predicate OpAdded<T>(txs: seq<Tx<T>>, op: Op<T>, txs': seq<Tx<T>>) {
    var kept, more := DropSets(txs), DropSets(txs');
    if kept == [] then txs' == txs
    else var n := |kept| - 1;
         more == kept[..n] + [Locked(kept[n].task, kept[n].ops + [op])] && txs' == more + txs[|kept|..]
  }

  lemma {:induction false} SetAfterOp<T>(txs: seq<Tx<T>>, op: Op<T>, txs': seq<Tx<T>>, w: T)
    requires OpAdded(txs, op, txs')
    ensures OpAdded(txs + [Set(w)], op, txs' + [Set(w)])
  {
    OneSetMore(txs, w, op);
    OneSetMore(txs', w, op);
    hide DropSets, AddOp;
    var kept := DropSets(txs);
    assert (txs + [Set(w)])[|kept|..] == txs[|kept|..] + [Set(w)];
    Regroup(DropSets(txs'), txs[|kept|..], [Set(w)]);
  }

  lemma {:induction false} AddOpDrops<T>(txs: seq<Tx<T>>, op: Op<T>)
    ensures OpAdded(txs, op, AddOp(txs, op))
    decreases |txs|
  {
    if txs != [] {
      var n := |txs| - 1;
      var before := txs[..n];
      assert txs == before + [txs[n]];
      hide AddOp;
      match txs[n]
      case Locked(t, ops) =>
        OneGuardMore(before, t, ops, op);
        OneGuardMore(before, t, ops + [op], op);
      case Set(w) =>
        AddOpDrops(before, op);
        SetAfterOp(before, op, AddOp(before, op), w);
        OneSetMore(before, w, op);
    } else {
      assert AddOp(txs, op) == txs;
    }
  }

  /** The value of the last set after the last guard. */
  function SetSince<T>(txs: seq<Tx<T>>): Option<T> {
    var n := |txs| - 1;
    if txs != [] && txs[n].Set? then Some(txs[n].value) else None
  }

  /**
   * A guard over a cell stands where another one does that works alone, `since` having been set
   * after its load or last publication; its pointer is the published one exactly without a set.
   */
  ghost predicate Stands<T>(c: Cell<T>, g: Guard<T>, d: Cell<T>, h: Guard<T>, since: Option<T>) {
    && g.current.value == h.current.value == d.swap.value && g.mutated == h.mutated && g.counter == h.counter
    && c.swap.value == (if since.Some? then since.value else d.swap.value)
    && (since.None? <==> g.current == c.swap)
  }

  lemma {:induction false} StandsMore<T>(op: Op<T>, c: Cell<T>, g: Guard<T>, d: Cell<T>, h: Guard<T>, since: Option<T>)
    requires Stands(c, g, d, h, since)
    ensures var (c', g') := Apply(op, c, g);
            var (d', h') := Apply(op, d, h);
            Stands(c', g', d', h', if g.mutated.Some? && Publishing(op, g.counter) then None else since)
  {
  }

  /** An open guard stands where its operations alone would have brought it. */
  ghost predicate Tracks<T>(s: Sys<T>, t: Task, txs: seq<Tx<T>>, v: T) {
    && t in s.stages && s.stages[t].Open? && DropSets(txs) != []
    && var kept := DropSets(txs);
       var n := |kept| - 1;
       var start := NewCell(Serial(kept[..n], v));
       var (d, h) := ApplyAll(kept[n].ops, start, Begin(start));
       kept[n].task == t && Stands(s.cell, s.stages[t].guard, d, h, SetSince(txs))
  }

  ghost predicate Serialized<T>(s: Sys<T>, txs: seq<Tx<T>>, v: T) {
    if NoGuard(s) then s.cell.swap.value == Serial(txs, v)
    else s.mutex.Some? && Tracks(s, s.mutex.value, txs, v)
  }

  lemma {:induction false} LoadSerialized<T>(s: Sys<T>, t: Task, txs: seq<Tx<T>>, v: T)
    requires Enabled(s, Load(t)) && Exclusive(s) && Serialized(s, txs, v)
    ensures Serialized(Fire(s, Load(t)), txs + [Locked(t, [])], v)
  {
    assert (txs + [Locked(t, [])])[..|txs|] == txs;
    assert Fire(s, Load(t)).stages[t].Open?;
  }

  lemma {:induction false} DoSerialized<T>(s: Sys<T>, t: Task, op: Op<T>, txs: seq<Tx<T>>, v: T)
    requires Enabled(s, Do(t, op)) && Exclusive(s) && Serialized(s, txs, v)
    ensures var txs' := AddOp(txs, op);
            Serialized(Fire(s, Do(t, op)), if GuardPublishes(s, Do(t, op)) then DropSets(txs') else txs', v)
  {
    hide AddOp, Serial, Stands;
    var kept, txs' := DropSets(txs), AddOp(txs, op);
    var n := |kept| - 1;
    var ops, start, g := kept[n].ops, NewCell(Serial(kept[..n], v)), s.stages[t].guard;
    var (d, h) := ApplyAll(ops, start, Begin(start));
    ApplyAllAppend(ops, [op], start, Begin(start));
    ApplyAllOne(op, d, h);
    StandsMore(op, s.cell, g, d, h, SetSince(txs));
    AddOpDrops(txs, op);
    var more := DropSets(txs');
    assert more[..n] == kept[..n] && DropSets(more) == more;
    assert SetSince(more).None? && SetSince(txs') == SetSince(txs);
    hide DropSets, ApplyAll, Apply;
    assert Fire(s, Do(t, op)).stages[t].Open?;
  }

  lemma {:induction false} CommitSerialized<T>(s: Sys<T>, t: Task, txs: seq<Tx<T>>, v: T)
    requires Enabled(s, Commit(t)) && Exclusive(s) && Serialized(s, txs, v)
    ensures Serialized(Fire(s, Commit(t)), if GuardPublishes(s, Commit(t)) then DropSets(txs) else txs, v)
  {
    assert NoGuard(Fire(s, Commit(t)));
  }

  lemma {:induction false} SetSerialized<T>(s: Sys<T>, task: Task, w: T, txs: seq<Tx<T>>, v: T)
    requires Enabled(s, SetStore(task, w)) && Exclusive(s) && IdsBelow(s) && Serialized(s, txs, v)
    ensures Serialized(Fire(s, SetStore(task, w)), txs + [Set(w)], v)
  {
    SerialMore(txs, Set(w), v);
    assert (txs + [Set(w)])[..|txs|] == txs;
    assert DropSets(txs + [Set(w)]) == DropSets(txs);
    if !NoGuard(s) { assert Fire(s, SetStore(task, w)).stages[s.mutex.value].Open?; }
  }

  lemma {:induction false} StepSerialized<T>(s: Sys<T>, ev: Event<T>, txs: seq<Tx<T>>, v: T)
    requires Enabled(s, ev) && Exclusive(s) && IdsBelow(s) && Serialized(s, txs, v)
    ensures Serialized(Fire(s, ev), if GuardPublishes(s, ev) then DropSets(NextTx(txs, ev)) else NextTx(txs, ev), v)
  {
    match ev
    case Load(t) => LoadSerialized(s, t, txs, v);
    case Do(t, op) => DoSerialized(s, t, op, txs, v);
    case Commit(t) => CommitSerialized(s, t, txs, v);
    case SetStore(t, w) => SetSerialized(s, t, w, txs, v);
    case Acquire(t) => assert NoGuard(s);
    case Unlock(t) => assert NoGuard(s);
    case Pass(t) =>
  }

  /**
   * Serializability of every run, sets included: whenever no guard is held, the published value is
   * what the surviving transactions give one after the other, each working alone, in the order in
   * which guards load and sets store.
   */
  lemma {:induction false} RunsAreSerial<T>(v: T, evs: seq<Event<T>>)
    requires Run(v, evs)
    ensures Serialized(After(v, evs), Surviving(v, evs), v)
    ensures NoGuard(After(v, evs)) ==> After(v, evs).cell.swap.value == Serial(Surviving(v, evs), v)
    decreases |evs|
  {
    if evs != [] {
      var n := |evs| - 1;
      RunsAreSerial(v, evs[..n]);
      RunIsExclusive(v, evs[..n]);
      StepSerialized(After(v, evs[..n]), evs[n], Surviving(v, evs[..n]), v);
    }
  }

  /** Whenever a guard publishes, its pointer is the published one: no set has stored over it. */
  ghost predicate KeepsSets<T>(v: T, evs: seq<Event<T>>)
    decreases |evs|
  {
    evs == [] ||
    (KeepsSets(v, evs[..|evs| - 1])
     && (GuardPublishes(After(v, evs[..|evs| - 1]), evs[|evs| - 1]) ==> PointersAgree(After(v, evs[..|evs| - 1]))))
  }

  /** In an invariant state, a publication drops sets exactly when the guard's pointer is not the published one. */
  lemma {:induction false} DropsExactly<T>(s: Sys<T>, ev: Event<T>, txs: seq<Tx<T>>, v: T)
    requires Exclusive(s) && Serialized(s, txs, v) && GuardPublishes(s, ev)
    ensures DropSets(NextTx(txs, ev)) == NextTx(txs, ev) <==> PointersAgree(s)
  {
    if ev.Do? { AddOpDrops(txs, ev.op); }
  }

  /**
   * No set is lost, and so the run is serial with all its transactions, if and only if every guard
   * that publishes does so with the published pointer.
   */
  lemma {:induction false} SetsSurvive<T>(v: T, evs: seq<Event<T>>)
    requires Run(v, evs)
    ensures Surviving(v, evs) == Transactions(evs) <==> KeepsSets(v, evs)
    ensures Surviving(v, evs) != Transactions(evs) ==> |Surviving(v, evs)| < |Transactions(evs)|
    decreases |evs|
  {
    if evs != [] {
      var n := |evs| - 1;
      var s, ev := After(v, evs[..n]), evs[n];
      SetsSurvive(v, evs[..n]);
      RunsAreSerial(v, evs[..n]);
      RunIsExclusive(v, evs[..n]);
      if GuardPublishes(s, ev) { DropsExactly(s, ev, Surviving(v, evs[..n]), v); }
    }
  }

  /** With `lock` as the only writer every run is serial with all its transactions. */
  lemma {:induction false} LocksAreSerial<T>(v: T, evs: seq<Event<T>>)
    requires Run(v, evs) && forall i | 0 <= i < |evs| :: !evs[i].SetStore?
    ensures QuietSets(v, evs) && AlwaysAgree(v, evs) && KeepsSets(v, evs)
    ensures NoGuard(After(v, evs)) ==> After(v, evs).cell.swap.value == Serial(Transactions(evs), v)
  {
    NoSetsIsQuiet(v, evs);
    PointersExactly(v, evs);
    QuietKeepsSets(v, evs);
    SetsSurvive(v, evs);
    RunsAreSerial(v, evs);
  }

  lemma {:induction false} NoSetsIsQuiet<T>(v: T, evs: seq<Event<T>>)
    requires forall i | 0 <= i < |evs| :: !evs[i].SetStore?
    ensures QuietSets(v, evs)
    decreases |evs|
  {
    if evs != [] {
      NoSetsIsQuiet(v, evs[..|evs| - 1]);
    }
  }

  /** Sets that never store under a guard are kept; a set under a guard that publishes no more is, too. */
  lemma {:induction false} QuietKeepsSets<T>(v: T, evs: seq<Event<T>>)
    requires Run(v, evs) && QuietSets(v, evs)
    ensures KeepsSets(v, evs)
    decreases |evs|
  {
    if evs != [] {
      var before := evs[..|evs| - 1];
      QuietKeepsSets(v, before);
      PointersExactly(v, before);
      assert before[..|before|] == before;
    }
  }

  // ---------- a set that stores while a guard is held ----------

  /** A guard with this working value publishes nothing by these operations and its drop. */
  predicate NothingPublished<T>(ops: seq<Op<T>>, loaded: T, working: Option<T>, k: nat)
    decreases |ops|
  {
    if ops == [] then working.None?
    else
      var op := ops[0];
      var working' := match op
                      case Mutate(f) => Some(f(if working.Some? then working.value else loaded))
                      case Cancel => None
                      case _ => working;
      !(working.Some? && Publishing(op, k))
      && NothingPublished(ops[1..], loaded, working', if op.SyncN? then k + 1 else k)
  }

  lemma {:induction false} ApplyPublishes<T>(op: Op<T>, c: Cell<T>, g: Guard<T>)
    ensures var (c', g') := Apply(op, c, g);
            if g.mutated.Some? && Publishing(op, g.counter)
            then c'.swap == g'.current && c'.swap.value == g.mutated.value
            else c' == c && g'.current == g.current
  {
  }

  /** Operations and drop leave the cell alone, or end with a pointer that is new. */
  lemma {:induction false} PublishedOrNot<T>(ops: seq<Op<T>>, c: Cell<T>, g: Guard<T>)
    ensures var (c', g') := ApplyAll(ops, c, g);
            var final := ApplySync(c', g').0;
            if NothingPublished(ops, g.current.value, g.mutated, g.counter)
            then final == c
            else final.swap.id >= c.next && final.next > c.next
    decreases |ops|
  {
    if ops != [] {
      var (c', g') := Apply(ops[0], c, g);
      ApplyPublishes(ops[0], c, g);
      PublishedOrNot(ops[1..], c', g');
      NotFewer(ops[1..], c', g');
    }
  }

  /** Pointer ids only grow: a cell with an id from `c` on keeps one. */
  lemma {:induction false} NotFewer<T>(ops: seq<Op<T>>, c: Cell<T>, g: Guard<T>)
    ensures var (c', g') := ApplyAll(ops, c, g);
            var final := ApplySync(c', g').0;
            final.next >= c.next && (final.swap == c.swap || final.swap.id >= c.next)
    decreases |ops|
  {
    if ops != [] {
      var (c', g') := Apply(ops[0], c, g);
      NotFewer(ops[1..], c', g');
    }
  }

  /**
   * A set stores while a guard is held: whatever the guard does after it, once it is dropped the
   * pointer that was set is still the published one if and only if the guard published nothing.
   */
  lemma {:induction false} SetUnderGuard<T>(s: Sys<T>, task: Task, w: T, t: Task, ops: seq<Op<T>>)
    requires task in s.passed && t in s.stages && s.stages[t].Open?
    ensures var stored := Fire(s, SetStore(task, w)).cell;
            var g := s.stages[t].guard;
            var (c', g') := ApplyAll(ops, stored, g);
            stored.swap.value == w
            && (ApplySync(c', g').0.swap == stored.swap
                <==> NothingPublished(ops, g.current.value, g.mutated, g.counter))
  {
    PublishedOrNot(ops, Fire(s, SetStore(task, w)).cell, s.stages[t].guard);
  }

  const INCREMENT: Op<int> := Mutate((x: int) => x + 1)

  /** A guard loads 0 and adds one; a set stores 100 before the guard is dropped. */
  function LostRun(): seq<Event<int>> {
    [Pass(1), Acquire(0), Load(0), Do(0, INCREMENT), SetStore(1, 100), Commit(0)]
  }

  /** The prefix of a run and the state it leads to. */
  ghost predicate Reaches<T>(v: T, evs: seq<Event<T>>, s: Sys<T>) {
    Run(v, evs) && After(v, evs) == s
  }

  lemma {:induction false} LostRunReaches()
    ensures Run(0, LostRun()) && NoGuard(After(0, LostRun())) && After(0, LostRun()).cell.swap.value == 1
  {
    var evs := LostRun();
    var s1 := Fire(Init(0), evs[0]);
    var s2 := Fire(s1, evs[1]);
    var s3 := Fire(s2, evs[2]);
    var s4 := Fire(s3, evs[3]);
    var s5 := Fire(s4, evs[4]);
    var s6 := Fire(s5, evs[5]);
    assert s6.cell.swap.value == 1;
    ReachMore(0, evs, 0, Init(0));
    ReachMore(0, evs, 1, s1);
    ReachMore(0, evs, 2, s2);
    ReachMore(0, evs, 3, s3);
    ReachMore(0, evs, 4, s4);
    ReachMore(0, evs, 5, s5);
    assert evs[..6] == evs;
  }

  lemma {:induction false} ReachMore<T>(v: T, evs: seq<Event<T>>, k: nat, s: Sys<T>)
    requires k < |evs| && ((k == 0 && s == Init(v)) || Reaches(v, evs[..k], s)) && Enabled(s, evs[k])
    ensures Reaches(v, evs[..k + 1], Fire(s, evs[k]))
  {
    var more := evs[..k + 1];
    assert more[..|more| - 1] == evs[..k] && more[|more| - 1] == evs[k];
    assert k == 0 ==> evs[..k] == [];
    assert Run(v, evs[..k]) && After(v, evs[..k]) == s;
  }

  /** That run's result is not the result of either order of its two transactions. */
  lemma {:induction false} SetIsLost()
    ensures Run(0, LostRun()) && NoGuard(After(0, LostRun())) && After(0, LostRun()).cell.swap.value == 1
    ensures Serial([Locked(0, [INCREMENT]), Set(100)], 0) == 100
    ensures Serial([Set(100), Locked(0, [INCREMENT])], 0) == 101
  {
    LostRunReaches();
    SerialMore([], Set(100), 0);
    SerialMore([Set(100)], Locked(0, [INCREMENT]), 0);
    SerialMore([Locked(0, [INCREMENT])], Set(100), 0);
    AloneOne(INCREMENT, 100);
    assert [Set(100)] + [Locked(0, [INCREMENT])] == [Set(100), Locked(0, [INCREMENT])];
    assert [Locked(0, [INCREMENT])] + [Set(100)] == [Locked(0, [INCREMENT]), Set(100)];
    assert [] + [Set(100)] == [Set(100)];
  }

  lemma {:induction false} SerialMore<T>(txs: seq<Tx<T>>, tx: Tx<T>, v: T)
    ensures Serial(txs + [tx], v) == match tx case Locked(_, ops) => Alone(ops, Serial(txs, v)) case Set(w) => w
  {
  }

  lemma {:induction false} ApplyAllOne<T>(op: Op<T>, c: Cell<T>, g: Guard<T>)
    ensures ApplyAll([op], c, g) == Apply(op, c, g)
  {
    assert [op][1..] == [];
  }

  lemma {:induction false} AloneOne<T>(op: Op<T>, v: T)
    requires op.Mutate?
    ensures Alone([op], v) == op.f(v)
  {
    var c, g := NewCell(v), Begin(NewCell(v));
    ApplyAllOne(op, c, g);
  }

  // ---------- what a lock-free read can see ----------

  /** The value that an event publishes, if it publishes one. */
  function Published<T>(s: Sys<T>, ev: Event<T>): Option<T>
    requires Enabled(s, ev)
  {
    match ev
    case Do(t, op) =>
      var g := s.stages[t].guard;
      if g.mutated.Some? && Publishing(op, g.counter) then g.mutated else None
    case Commit(t) => s.stages[t].guard.mutated
    case SetStore(_, w) => Some(w)
    case _ => None
  }

  /** The initial value, or the value of the last event that published one. */
  function LastPublication<T>(v: T, evs: seq<Event<T>>): T
    requires Run(v, evs)
    decreases |evs|
  {
    if evs == [] then v
    else
      var before := evs[..|evs| - 1];
      var p := Published(After(v, before), evs[|evs| - 1]);
      if p.Some? then p.value else LastPublication(v, before)
  }

  /**
   * In every run, with or without sets, a lock-free read sees the initial value or the value of
   * the last publication: never a change that was not published, and never an older value.
   */
  lemma {:induction false} ReadsSeePublished<T>(v: T, evs: seq<Event<T>>)
    requires Run(v, evs)
    ensures After(v, evs).cell.swap.value == LastPublication(v, evs)
    decreases |evs|
  {
    if evs != [] {
      ReadsSeePublished(v, evs[..|evs| - 1]);
    }
  }

  // ---------- the classes run the steps ----------

  /** Without a guard, or with the one of the task that has the mutex. */
  ghost predicate Holds<T>(s: Sys<T>, state: SharedState<T>, guard: Option<StateGuard<T>>)
    reads state, if guard.Some? then {guard.value} else {}
  {
    && state.cell == s.cell && (state.locked <==> s.mutex.Some?)
    && forall t | t in s.stages && s.stages[t].Open? ::
         guard.Some? && guard.value.state == state && guard.value.Fields() == s.stages[t].guard
  }

  /** One step of some task, made by the methods of the state and of the guard. */
  method Make<T>(ghost s: Sys<T>, state: SharedState<T>, guard: Option<StateGuard<T>>, ev: Event<T>)
    returns (next: Option<StateGuard<T>>)
    requires Enabled(s, ev) && Exclusive(s) && Holds(s, state, guard)
    modifies state, if guard.Some? then {guard.value} else {}
    ensures Holds(Fire(s, ev), state, next) && (next == guard || (next.Some? && fresh(next.value)))
  {
    next := guard;
    match ev
    case Acquire(_) => state.Acquire();
    case Load(_) =>
      var g := state.Load();
      next := Some(g);
    case Do(_, op) => guard.value.Perform(op);
    case Commit(_) => guard.value.Sync();
    case Unlock(_) => state.Unlock();
    case Pass(_) =>
    case SetStore(_, w) => state.Set(w);
  }

  /** After every event, what a lock-free read gives, and what the open guard shows its holder. */
  datatype Seen<T> = Seen(published: T, view: Option<T>)

  ghost predicate SeenAt<T>(s: Sys<T>, seen: Seen<T>) {
    && seen.published == s.cell.swap.value
    && forall t | t in s.stages && s.stages[t].Open? :: seen.view == Some(View(s.stages[t].guard))
  }

  ghost predicate SeenAfter<T>(v: T, evs: seq<Event<T>>, seen: seq<Seen<T>>) {
    |seen| == |evs| && forall k | 0 <= k < |evs| :: SeenAt(After(v, evs[..k + 1]), seen[k])
  }

  /** The classes, used by any number of tasks in any interleaving, show what the steps say. */
  method Play<T>(v: T, evs: seq<Event<T>>) returns (seen: seq<Seen<T>>)
    requires Run(v, evs)
    ensures SeenAfter(v, evs, seen)
  {
    var state := new SharedState(v);
    var guard: Option<StateGuard<T>> := None;
    seen := [];
    assert evs[..0] == [];
    for i := 0 to |evs|
      invariant fresh(state) && (guard.Some? ==> fresh(guard.value))
      invariant Holds(After(v, evs[..i]), state, guard)
      invariant SeenAfter(v, evs[..i], seen)
    {
      ghost var s := After(v, evs[..i]);
      RunStep(v, evs, i);
      RunIsExclusive(v, evs[..i]);
      guard := Make(s, state, guard, evs[i]);
      var published := state.Get();
      var view: Option<T> := None;
      if guard.Some? {
        var shown := guard.value.Read();
        view := Some(shown);
      }
      SeenMore(v, evs, i, seen, Seen(published.value, view));
      seen := seen + [Seen(published.value, view)];
    }
    assert evs[..|evs|] == evs;
  }

  lemma {:induction false} SeenMore<T>(v: T, evs: seq<Event<T>>, i: nat, seen: seq<Seen<T>>, now: Seen<T>)
    requires i < |evs| && SeenAfter(v, evs[..i], seen)
    requires SeenAt(After(v, evs[..i + 1]), now)
    ensures SeenAfter(v, evs[..i + 1], seen + [now])
  {
    var before, more := evs[..i], evs[..i + 1];
    forall k | 0 <= k < |more| ensures SeenAt(After(v, more[..k + 1]), (seen + [now])[k]) {
      assert more[..k + 1] == evs[..k + 1];
      if k < i {
        assert before[..k + 1] == evs[..k + 1];
        assert SeenAt(After(v, before[..k + 1]), seen[k]);
      }
    }
  }

  /** An event of a run can happen where the events before it lead. */
  lemma {:induction false} RunStep<T>(v: T, evs: seq<Event<T>>, i: nat)
    requires Run(v, evs) && i < |evs|
    ensures Enabled(After(v, evs[..i]), evs[i])
    ensures After(v, evs[..i + 1]) == Fire(After(v, evs[..i]), evs[i])
    decreases |evs| - i
  {
    var more := evs[..i + 1];
    PrefixRuns(v, evs, i + 1);
    assert more[..|more| - 1] == evs[..i] && more[|more| - 1] == evs[i];
  }

  lemma {:induction false} PrefixRuns<T>(v: T, evs: seq<Event<T>>, n: nat)
    requires Run(v, evs) && n <= |evs|
    ensures Run(v, evs[..n])
    decreases |evs|
  {
    if n < |evs| {
      PrefixRuns(v, evs[..|evs| - 1], n);
      assert evs[..|evs| - 1][..n] == evs[..n];
    } else {
      assert evs[..n] == evs;
    }
  }

  // ---------- the logger's state ----------

  /** `LoggerState`: level and path, changed by `set_level` and by the rotation of log files. */
  datatype LoggerState = LoggerState(level: Option<nat>, path: Option<nat>)

  datatype Update = Level(level: nat) | Path(path: nat)

  /** The one operation of the guard that makes the update. */
  function Change(u: Update): Op<LoggerState> {
    match u
    case Level(l) => Mutate((s: LoggerState) => s.(level := Some(l)))
    case Path(p) => Mutate((s: LoggerState) => s.(path := Some(p)))
  }

  /** The transactions make these updates, each by a guard of some task. */
  ghost predicate AreUpdates(txs: seq<Tx<LoggerState>>, us: seq<Update>) {
    |txs| == |us| && forall i | 0 <= i < |us| :: txs[i].Locked? && txs[i].ops == [Change(us[i])]
  }

  function LastLevel(us: seq<Update>, before: Option<nat>): Option<nat> {
    if us == [] then before
    else if us[|us| - 1].Level? then Some(us[|us| - 1].level) else LastLevel(us[..|us| - 1], before)
  }

  function LastPath(us: seq<Update>, before: Option<nat>): Option<nat> {
    if us == [] then before
    else if us[|us| - 1].Path? then Some(us[|us| - 1].path) else LastPath(us[..|us| - 1], before)
  }

  lemma {:induction false} UpdatesInOrder(txs: seq<Tx<LoggerState>>, us: seq<Update>, v: LoggerState)
    requires AreUpdates(txs, us)
    ensures Serial(txs, v) == LoggerState(LastLevel(us, v.level), LastPath(us, v.path))
    decreases |us|
  {
    if us != [] {
      var n := |us| - 1;
      UpdatesInOrder(txs[..n], us[..n], v);
      AloneOne(Change(us[n]), Serial(txs[..n], v));
    }
  }

  /**
   * No field update is lost: in every run of tasks that change level or path under a guard, in
   * whatever way they interleave, the last level and the last path are both kept.
   */
  lemma {:induction false} BothFieldsKept(v: LoggerState, evs: seq<Event<LoggerState>>, us: seq<Update>)
    requires Run(v, evs) && forall i | 0 <= i < |evs| :: !evs[i].SetStore?
    requires NoGuard(After(v, evs)) && AreUpdates(Transactions(evs), us)
    ensures After(v, evs).cell.swap.value == LoggerState(LastLevel(us, v.level), LastPath(us, v.path))
  {
    LocksAreSerial(v, evs);
    UpdatesInOrder(Transactions(evs), us, v);
  }
}
