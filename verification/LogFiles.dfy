/**
 * What the log files hold, and what stays true of them while they are written: the part of
 * `worker` in `src/logger/mod.rs` that does not depend on its commands.
 */
module LogFiles {
  import opened Basics
  import opened LogFormat
  import opened RoundTrip

  /** The entries of each file. */
  type Runs = seq<seq<Entry>>

  /** The text behind each path; a path is the instant in its name. */
  type Disk = map<nat, string>

  /** The entries that were put into the buffer for each path. */
  type Filed = map<nat, seq<Entry>>

  // ---------- what the log files should hold ----------

  datatype Cmd = Log(event: Event) | Flush(id: nat)

  /** The events of the Log commands, in order. */
  function Events(cmds: seq<Cmd>): (r: seq<Event>)
    ensures |r| <= |cmds|
  {
    if cmds == [] then []
    else Events(cmds[..|cmds| - 1])
         + (match cmds[|cmds| - 1] case Log(e) => [e] case Flush(_) => [])
  }

  /** The signals that the Flush commands ask for, in order. */
  function FlushIds(cmds: seq<Cmd>): seq<nat> {
    if cmds == [] then []
    else FlushIds(cmds[..|cmds| - 1])
         + (match cmds[|cmds| - 1] case Log(_) => [] case Flush(id) => [id])
  }

  /** The events of commands one after the other, a Log command giving its own and a Flush none. */
  lemma {:induction false} EventsOf(a: seq<Cmd>, b: seq<Cmd>, e: Event, id: nat)
    ensures Events(a + b) == Events(a) + Events(b) && FlushIds(a + b) == FlushIds(a) + FlushIds(b)
    ensures Events([Log(e)]) == [e] && FlushIds([Log(e)]) == []
    ensures Events([Flush(id)]) == [] && FlushIds([Flush(id)]) == [id]
    decreases |b|
  {
    assert forall c: Cmd :: [c][..0] == [];
    if b == [] {
      assert a + b == a;
    } else {
      var n := |b| - 1;
      assert (a + b)[..|a + b| - 1] == a + b[..n];
      EventsOf(a, b[..n], e, id);
    }
  }

  /** The events with the timestamp texts that the cached second gives them. */
  function Entries(stamp: Stamper, events: seq<Event>): (r: seq<Entry>)
    ensures |r| == |events|
    ensures forall i | 0 <= i < |events| :: r[i].event == events[i]
  {
    if events == [] then []
    else var n := |events| - 1;
         Entries(stamp, events[..n]) + [Entry(CacheAfter(stamp, events).datetime, events[n])]
  }

  /** The UTC day of a second. */
  type Days = int -> Date

  function DayOf(day: Days, x: Entry): Date {
    day(x.event.seconds)
  }

  /** The day of the last entry, or the day the worker was started. */
  function LastDay(day: Days, day0: Date, es: seq<Entry>): Date {
    if es == [] then day0 else DayOf(day, es[|es| - 1])
  }

  /**
   * The entries cut into files: the first file is runs by the first entry, and a new one is
   * begun by every entry whose day differs from the day before it.
   */
  function FilesOf(day: Days, day0: Date, es: seq<Entry>): (runs: Runs)
    ensures runs == [] <==> es == []
    decreases |es|
  {
    if es == [] then []
    else
      var n := |es| - 1;
      var before := FilesOf(day, day0, es[..n]);
      var runs := if before == [] then [[]] else before;
      if DayOf(day, es[n]) == LastDay(day, day0, es[..n]) then AddToLast(runs, es[n]) else runs + [[es[n]]]
  }

  function AddToLast(runs: Runs, x: Entry): Runs
    requires runs != []
  {
    runs[..|runs| - 1] + [runs[|runs| - 1] + [x]]
  }

  lemma {:induction false} FlattenAddToLast(runs: Runs, x: Entry)
    requires runs != []
    ensures Flatten(AddToLast(runs, x)) == Flatten(runs) + [x]
  {
    var n := |runs| - 1;
    FlattenAppend(runs[..n], [runs[n]]);
    FlattenAppend(runs[..n], [runs[n] + [x]]);
    assert runs == runs[..n] + [runs[n]];
    FlattenOne(runs[n]);
    FlattenOne(runs[n] + [x]);
    Regroup(Flatten(runs[..n]), runs[n], [x]);
  }

  lemma {:induction false} FlattenOne(run: seq<Entry>)
    ensures Flatten([run]) == run
  {
  }

  /** The files hold every entry exactly once and in order. */
  lemma {:induction false} FilesKeepAll(day: Days, day0: Date, es: seq<Entry>)
    ensures Flatten(FilesOf(day, day0, es)) == es
    decreases |es|
  {
    if es != [] {
      var n := |es| - 1;
      FilesKeepAll(day, day0, es[..n]);
      var before := FilesOf(day, day0, es[..n]);
      var runs := if before == [] then [[]] else before;
      assert FilesOf(day, day0, es) == AddToLast(runs, es[n]) || FilesOf(day, day0, es) == runs + [[es[n]]];
      hide FilesOf, AddToLast;
      if before == [] { FlattenOne([]); }
      FlattenAddToLast(runs, es[n]);
      FlattenAppend(runs, [[es[n]]]);
      FlattenOne([es[n]]);
      assert es[..n] + [es[n]] == es;
    }
  }

  ghost predicate SameDay(day: Days, run: seq<Entry>, d: Date) {
    forall i | 0 <= i < |run| :: DayOf(day, run[i]) == d
  }

  function RunDay(day: Days, day0: Date, run: seq<Entry>): Date {
    if run == [] then day0 else DayOf(day, run[0])
  }

  /**
   * Each file holds entries of one day, only the first can be empty, a file is begun only when
   * the day changes, and `d` is the day of the last file.
   */
  ghost predicate ByDay(day: Days, day0: Date, runs: Runs, d: Date) {
    && runs != [] && RunDay(day, day0, runs[0]) == day0 && RunDay(day, day0, runs[|runs| - 1]) == d
    && (forall i | 0 <= i < |runs| :: SameDay(day, runs[i], RunDay(day, day0, runs[i])))
    && (forall i | 1 <= i < |runs| :: runs[i] != [])
    && (forall i | 1 <= i < |runs| :: RunDay(day, day0, runs[i]) != RunDay(day, day0, runs[i - 1]))
  }

  lemma {:induction false} ByDayAdd(day: Days, day0: Date, runs: Runs, x: Entry)
    requires ByDay(day, day0, runs, DayOf(day, x))
    ensures ByDay(day, day0, AddToLast(runs, x), DayOf(day, x))
  {
  }

  lemma {:induction false} ByDayNew(day: Days, day0: Date, runs: Runs, d: Date, x: Entry)
    requires ByDay(day, day0, runs, d) && DayOf(day, x) != d
    ensures ByDay(day, day0, runs + [[x]], DayOf(day, x))
  {
  }

  /** Rotation by day: see ByDay. */
  lemma {:induction false} FilesAreDays(day: Days, day0: Date, es: seq<Entry>)
    ensures es != [] ==> ByDay(day, day0, FilesOf(day, day0, es), LastDay(day, day0, es))
    decreases |es|
  {
    if es != [] {
      var n := |es| - 1;
      var before := FilesOf(day, day0, es[..n]);
      var runs := if before == [] then [[]] else before;
      var d := LastDay(day, day0, es[..n]);
      FilesAreDays(day, day0, es[..n]);
      assert ByDay(day, day0, runs, d);
      if DayOf(day, es[n]) == d {
        ByDayAdd(day, day0, runs, es[n]);
      } else {
        ByDayNew(day, day0, runs, d, es[n]);
      }
    }
  }

  // ---------- the files as they are written ----------

  /** An open log file behind its BufWriter: the path and the text not yet in the file. */
  datatype Writer = Writer(path: nat, pending: string)

  /** The files in order of creation, the last one with the buffer after it, hold the texts of `runs`. */
  ghost predicate Holds(disk: Disk, order: seq<nat>, file: Option<Writer>, buffer: string, runs: Runs) {
    && |order| == |runs|
    && (forall i, j | 0 <= i < j < |order| :: order[i] < order[j])
    && (forall i | 0 <= i < |order| :: order[i] in disk)
    && (forall i | 0 <= i < |order| - 1 :: disk[order[i]] == FileText(runs[i]))
    && (runs == [] ==> file.None?)
    && (runs != [] ==>
          && file == Some(Writer(order[|order| - 1], ""))
          && disk[order[|order| - 1]] + buffer == FileText(runs[|runs| - 1]))
  }

  lemma {:induction false} HoldsOpened(disk: Disk, order: seq<nat>, file: Option<Writer>, runs: Runs, p: nat)
    requires Holds(disk, order, file, "", runs)
    requires p !in disk && forall i | 0 <= i < |order| :: order[i] < p
    ensures Holds(disk[p := ""], order + [p], Some(Writer(p, "")), "", runs + [[]])
  {
    var more := runs + [[]];
    var names := order + [p];
    forall i | 0 <= i < |names| - 1 ensures disk[p := ""][names[i]] == FileText(more[i]) {
      assert names[i] == order[i] && more[i] == runs[i];
    }
  }

  lemma {:induction false} HoldsFirst(disk: Disk, order: seq<nat>, file: Option<Writer>, p: nat)
    requires Holds(disk, order, file, "", [])
    ensures file.None?
    ensures p !in disk ==> Holds(disk[p := ""], order + [p], Some(Writer(p, "")), "", [[]])
  {
  }

  lemma {:induction false} HoldsMore(disk: Disk, order: seq<nat>, file: Option<Writer>, buffer: string, runs: Runs,
                                     x: Entry)
    requires Holds(disk, order, file, buffer, runs) && runs != []
    ensures Holds(disk, order, file, buffer + Record(x.datetime, x.event), AddToLast(runs, x))
  {
    var n := |runs| - 1;
    FileTextAppend(runs[n], [x]);
    assert FileText([x]) == Record(x.datetime, x.event) + FileText([x][1..]);
    Regroup(disk[order[n]], buffer, Record(x.datetime, x.event));
  }

  function FiledAt(filed: Filed, p: nat): seq<Entry> {
    if p in filed then filed[p] else []
  }

  /** Every file, with the buffer after the open one, holds the text of the entries filed for it. */
  ghost predicate Written(disk: Disk, file: Option<Writer>, buffer: string, filed: Filed) {
    && (file.Some? ==> file.value.pending == "" && disk.Keys >= {file.value.path})
    && filed.Keys <= disk.Keys
    && (forall p | p in disk && (file.Some? ==> p != file.value.path) :: disk[p] == FileText(FiledAt(filed, p)))
    && (file.Some? ==> disk[file.value.path] + buffer == FileText(FiledAt(filed, file.value.path)))
  }

  lemma {:induction false} WrittenClosed(disk: Disk, file: Option<Writer>, filed: Filed)
    requires Written(disk, file, "", filed)
    ensures Written(disk, None, "", filed)
  {
  }

  lemma {:induction false} WrittenOpened(disk: Disk, filed: Filed, p: nat)
    requires Written(disk, None, "", filed) && p !in disk
    ensures Written(disk[p := ""], Some(Writer(p, "")), "", filed)
  {
  }

  lemma {:induction false} WrittenMore(disk: Disk, file: Option<Writer>, buffer: string, filed: Filed, x: Entry)
    requires Written(disk, file, buffer, filed) && file.Some?
    ensures var p := file.value.path;
            Written(disk, file, buffer + Record(x.datetime, x.event), filed[p := FiledAt(filed, p) + [x]])
  {
    var p := file.value.path;
    FileTextMore(FiledAt(filed, p), x);
    Regroup(disk[p], buffer, Record(x.datetime, x.event));
  }

  // ----- writing a buffer out -----

  /** The open file has taken a first part of the buffer or, when `whole`, all that was on its way. */
  ghost predicate PutOut(disk: Disk, file: Option<Writer>, buffer: string,
                         disk': Disk, file': Option<Writer>, whole: bool) {
    && file.Some? && file'.Some? && file'.value.path == file.value.path && file.value.path in disk
    && var p := file.value.path;
       && disk'.Keys == disk.Keys && (forall q | q in disk && q != p :: disk'[q] == disk[q])
       && disk[p] + file.value.pending <= disk'[p] + file'.value.pending <= disk[p] + file.value.pending + buffer
       && (whole ==> file'.value.pending == "" && disk'[p] == disk[p] + file.value.pending + buffer)
  }

  lemma {:induction false} PutOutHolds(disk: Disk, file: Option<Writer>, buffer: string,
                                       disk': Disk, file': Option<Writer>, order: seq<nat>, runs: Runs)
    requires PutOut(disk, file, buffer, disk', file', true) && Holds(disk, order, file, buffer, runs) && runs != []
    ensures Holds(disk', order, file', "", runs)
  {
    var p := file.value.path;
    assert disk'[p] == disk[p] + buffer by { assert disk[p] + "" == disk[p]; }
    assert disk'[p] + "" == disk'[p];
    assert forall i | 0 <= i < |order| - 1 :: order[i] != p;
  }

  lemma {:induction false} PutOutWritten(disk: Disk, file: Option<Writer>, buffer: string,
                                         disk': Disk, file': Option<Writer>, filed: Filed)
    requires PutOut(disk, file, buffer, disk', file', true) && Written(disk, file, buffer, filed)
    ensures Written(disk', file', "", filed)
  {
    var p := file.value.path;
    assert disk[p] + "" == disk[p] && disk'[p] + "" == disk'[p];
  }

  // ----- the disk from moment to moment -----

  /** Files are only added and only appended to. */
  ghost predicate Grown(a: Disk, b: Disk) {
    forall p | p in a :: p in b && a[p] <= b[p]
  }

  ghost predicate Growing(past: seq<Disk>, disk: Disk) {
    past != [] && past[|past| - 1] == disk && forall i, j | 0 <= i < j < |past| :: Grown(past[i], past[j])
  }

  lemma {:induction false} GrowingMore(past: seq<Disk>, disk: Disk, next: Disk)
    requires Growing(past, disk) && Grown(disk, next)
    ensures Growing(past + [next], next)
  {
    var n, more := |past|, past + [next];
    forall i, j | 0 <= i < j < |more| ensures Grown(more[i], more[j]) {
      if j == n {
        assert i < n - 1 ==> Grown(past[i], past[n - 1]);
      } else {
        assert Grown(past[i], past[j]);
      }
    }
  }

  lemma {:induction false} GrowingNow(past: seq<Disk>, disk: Disk)
    requires Growing(past, disk)
    ensures past != [] && past[|past| - 1] == disk
  {
  }

  /** The files with these entries are on disk, whatever follows in them. */
  ghost predicate SavedIn(disk: Disk, order: seq<nat>, runs: Runs) {
    |runs| <= |order| && forall k | 0 <= k < |runs| :: order[k] in disk && FileText(runs[k]) <= disk[order[k]]
  }

  lemma {:induction false} SavedStays(a: Disk, b: Disk, order: seq<nat>, runs: Runs)
    requires SavedIn(a, order, runs) && (a == b || Grown(a, b))
    ensures SavedIn(b, order, runs)
  {
    hide FileText;
    forall k | 0 <= k < |runs| ensures order[k] in b && FileText(runs[k]) <= b[order[k]] {
      assert order[k] in a && FileText(runs[k]) <= a[order[k]] <= b[order[k]];
    }
  }

  /** The daily files of the events before command `i`. */
  ghost function FilesBefore(stamp: Stamper, day: Days, day0: Date, cmds: seq<Cmd>, i: nat): Runs
    requires i <= |cmds|
  {
    FilesOf(day, day0, Entries(stamp, Events(cmds[..i])))
  }

  /** When its signal was sent the events before each Flush command were on disk. */
  ghost predicate SignalsKept(stamp: Stamper, day: Days, day0: Date, cmds: seq<Cmd>,
                              past: seq<Disk>, order: seq<nat>, flushedAt: map<nat, nat>) {
    forall i | 0 <= i < |cmds| && cmds[i].Flush? ::
      && i in flushedAt && flushedAt[i] < |past|
      && SavedIn(past[flushedAt[i]], order, FilesBefore(stamp, day, day0, cmds, i))
  }

  lemma {:induction false} SignalsStay(stamp: Stamper, day: Days, day0: Date, cmds: seq<Cmd>, e: Event,
                                       past: seq<Disk>, order: seq<nat>, flushedAt: map<nat, nat>,
                                       past': seq<Disk>, order': seq<nat>)
    requires SignalsKept(stamp, day, day0, cmds, past, order, flushedAt) && past <= past' && order <= order'
    ensures SignalsKept(stamp, day, day0, cmds + [Log(e)], past', order', flushedAt)
  {
    hide FilesOf, Entries, Events, FileText;
    var more := cmds + [Log(e)];
    forall i | 0 <= i < |more| && more[i].Flush?
      ensures i in flushedAt && flushedAt[i] < |past'|
              && SavedIn(past'[flushedAt[i]], order', FilesBefore(stamp, day, day0, more, i))
    {
      assert more[..i] == cmds[..i];
    }
  }

  lemma {:induction false} SignalSent(stamp: Stamper, day: Days, day0: Date, cmds: seq<Cmd>, id: nat,
                                      past: seq<Disk>, order: seq<nat>, flushedAt: map<nat, nat>,
                                      past': seq<Disk>, order': seq<nat>)
    requires SignalsKept(stamp, day, day0, cmds, past, order, flushedAt)
    requires past <= past' && order <= order' && past' != []
    requires SavedIn(past'[|past'| - 1], order', FilesOf(day, day0, Entries(stamp, Events(cmds))))
    ensures SignalsKept(stamp, day, day0, cmds + [Flush(id)], past', order', flushedAt[|cmds| := |past'| - 1])
  {
    hide FilesOf, Entries, Events, FileText;
    var more := cmds + [Flush(id)];
    var at := flushedAt[|cmds| := |past'| - 1];
    forall i | 0 <= i < |more| && more[i].Flush?
      ensures i in at && at[i] < |past'| && SavedIn(past'[at[i]], order', FilesBefore(stamp, day, day0, more, i))
    {
      assert more[..i] == cmds[..i];
      assert i == |cmds| ==> cmds[..i] == cmds;
    }
  }

  /** Everything that was filed is on disk. */
  ghost predicate AllOnDisk(disk: Disk, filed: Filed) {
    forall p | p in filed :: p in disk && disk[p] == FileText(filed[p])
  }

  lemma {:induction false} WrittenIsOnDisk(disk: Disk, file: Option<Writer>, filed: Filed)
    requires Written(disk, file, "", filed)
    ensures AllOnDisk(disk, filed)
  {
    hide FileText;
    forall p | p in filed ensures p in disk && disk[p] == FileText(filed[p]) {
      assert disk[p] + "" == disk[p];
    }
  }

  ghost predicate FiledMore(a: Filed, b: Filed) {
    forall p | p in a :: p in b && a[p] <= b[p]
  }

  /**
   * When its signal was sent, what had been filed before each Flush command, `filedBy` that
   * command, was on disk; and it still is filed.
   */
  ghost predicate FiledKept(cmds: seq<Cmd>, past: seq<Disk>, flushedAt: map<nat, nat>, filedBy: map<nat, Filed>,
                            filed: Filed) {
    forall i | 0 <= i < |cmds| && cmds[i].Flush? ::
      && i in flushedAt && flushedAt[i] < |past| && i in filedBy
      && AllOnDisk(past[flushedAt[i]], filedBy[i]) && FiledMore(filedBy[i], filed)
  }

  lemma {:induction false} FiledStays(cmds: seq<Cmd>, e: Event, past: seq<Disk>, flushedAt: map<nat, nat>,
                                      filedBy: map<nat, Filed>, filed: Filed, past': seq<Disk>, filed': Filed)
    requires FiledKept(cmds, past, flushedAt, filedBy, filed) && past <= past' && FiledMore(filed, filed')
    ensures FiledKept(cmds + [Log(e)], past', flushedAt, filedBy, filed')
  {
    hide AllOnDisk;
  }

  lemma {:induction false} FiledSent(cmds: seq<Cmd>, id: nat, past: seq<Disk>, flushedAt: map<nat, nat>,
                                     filedBy: map<nat, Filed>, filed: Filed, past': seq<Disk>)
    requires FiledKept(cmds, past, flushedAt, filedBy, filed) && past <= past' && past' != []
    requires AllOnDisk(past'[|past'| - 1], filed)
    ensures FiledKept(cmds + [Flush(id)], past', flushedAt[|cmds| := |past'| - 1], filedBy[|cmds| := filed], filed)
  {
    hide AllOnDisk;
  }

  /** With an empty buffer the daily files are on disk. */
  lemma {:induction false} HoldsIsSaved(disk: Disk, order: seq<nat>, file: Option<Writer>, runs: Runs)
    requires Holds(disk, order, file, "", runs)
    ensures SavedIn(disk, order, runs)
  {
    if runs != [] {
      var last := disk[order[|order| - 1]];
      assert last + "" == last;
    }
  }

  // ----- text that reaches a file although writes fail -----

  /**
   * The entries were written in batches, each of them a run of neighbours, and the text has a
   * first part of every batch.
   */
  ghost predicate Batched(text: string, es: seq<Entry>)
    decreases |es|
  {
    || (es == [] && text == "")
    || exists n, m | 0 <= n < |es| && 0 <= m <= |text| ::
         Batched(text[..m], es[..n]) && text[m..] <= FileText(es[n..])
  }

  lemma {:induction false} BatchMore(text: string, es: seq<Entry>, part: string, batch: seq<Entry>)
    requires Batched(text, es) && part <= FileText(batch)
    ensures Batched(text + part, es + batch)
  {
    if batch == [] {
      assert text + part == text && es + batch == es;
    } else {
      assert (text + part)[..|text|] == text && (es + batch)[..|es|] == es;
      assert (text + part)[|text|..] == part && (es + batch)[|es|..] == batch;
    }
  }

  /** The text of an open file, and the batch that is in the buffer. */
  ghost predicate Arriving(text: string, buffer: string, es: seq<Entry>) {
    exists n | 0 <= n <= |es| :: Batched(text, es[..n]) && buffer == FileText(es[n..])
  }

  /** The text of a file that may lack the end of what was written to it. */
  ghost predicate Arrived(text: string, es: seq<Entry>) {
    exists total :: Batched(total, es) && text <= total
  }

  lemma {:induction false} ArrivingMore(text: string, buffer: string, es: seq<Entry>, x: Entry)
    requires Arriving(text, buffer, es)
    ensures Arriving(text, buffer + Record(x.datetime, x.event), es + [x])
  {
    var n :| 0 <= n <= |es| && Batched(text, es[..n]) && buffer == FileText(es[n..]);
    assert (es + [x])[..n] == es[..n] && (es + [x])[n..] == es[n..] + [x];
    FileTextMore(es[n..], x);
  }

  /** A first part of the batch is added to the text, and the next batch is begun. */
  lemma {:induction false} ArrivingPart(text: string, buffer: string, es: seq<Entry>, text': string)
    requires Arriving(text, buffer, es) && text <= text' <= text + buffer
    ensures Batched(text', es) && Arriving(text', "", es)
  {
    hide Batched, FileText;
    var n :| 0 <= n <= |es| && Batched(text, es[..n]) && buffer == FileText(es[n..]);
    var part := text'[|text|..];
    assert part <= buffer by { assert (text + buffer)[|text|..] == buffer; }
    BatchMore(text, es[..n], part, es[n..]);
    assert text + part == text' && es[..n] + es[n..] == es;
    NextBatch(text', es);
  }

  lemma {:induction false} NextBatch(text: string, es: seq<Entry>)
    requires Batched(text, es)
    ensures Arriving(text, "", es)
  {
    hide Batched;
    assert es[..|es|] == es && es[|es|..] == [];
  }

  lemma {:induction false} ArrivingArrived(text: string, buffer: string, es: seq<Entry>, onDisk: string)
    requires Arriving(text, buffer, es) && onDisk <= text
    ensures Arrived(onDisk, es)
  {
    ArrivingPart(text, buffer, es, text + buffer);
  }

  /** Every file holds first parts of the batches of entries filed for it. */
  ghost predicate Sourced(disk: Disk, file: Option<Writer>, buffer: string, filed: Filed) {
    forall p | p in disk ::
      if file.Some? && file.value.path == p
      then Arriving(disk[p] + file.value.pending, buffer, FiledAt(filed, p))
      else Arrived(disk[p], FiledAt(filed, p))
  }

  lemma {:induction false} PutOutSourced(disk: Disk, file: Option<Writer>, buffer: string,
                                         disk': Disk, file': Option<Writer>, whole: bool, filed: Filed)
    requires PutOut(disk, file, buffer, disk', file', whole) && Sourced(disk, file, buffer, filed)
    ensures Sourced(disk', file', "", filed)
  {
    hide Arriving, Arrived;
    var p := file.value.path;
    var text := disk[p] + file.value.pending;
    ArrivingPart(text, buffer, FiledAt(filed, p), disk'[p] + file'.value.pending);
  }

  /** The open file, which nothing is on its way to any more, is replaced by a new one. */
  lemma {:induction false} SourcedOpened(disk: Disk, file: Option<Writer>, filed: Filed, p: nat)
    requires Sourced(disk, file, "", filed) && p !in disk && p !in filed
    ensures Sourced(disk, None, "", filed) && Sourced(disk[p := ""], Some(Writer(p, "")), "", filed)
  {
    if file.Some? && file.value.path in disk {
      var q := file.value.path;
      ArrivingArrived(disk[q] + file.value.pending, "", FiledAt(filed, q), disk[q]);
    }
    var none: seq<Entry> := [];
    assert Batched("", none[..0]) && FileText(none[0..]) == "" && "" + "" == "";
    assert Arriving("", "", none);
  }

  lemma {:induction false} SourcedMore(disk: Disk, file: Option<Writer>, buffer: string, filed: Filed, x: Entry)
    requires Sourced(disk, file, buffer, filed) && file.Some?
    ensures var p := file.value.path;
            Sourced(disk, file, buffer + Record(x.datetime, x.event), filed[p := FiledAt(filed, p) + [x]])
  {
    hide Arriving, Arrived, Record;
    var p := file.value.path;
    if p in disk { ArrivingMore(disk[p] + file.value.pending, buffer, FiledAt(filed, p), x); }
  }

  // ----- the files at one moment -----

  datatype Moment = Moment(
    path: Option<nat>,
    file: Option<Writer>,
    clock: nat,
    disk: Disk,
    order: seq<nat>,
    date: Date,
    buffer: string,
    filed: Filed)

  /** Names are fresh: everything on disk or filed was named no later than the clock. */
  ghost predicate Fresh(m: Moment) {
    && (m.path.Some? ==> m.path.value <= m.clock)
    && (forall p | p in m.disk :: p <= m.clock)
    && (forall p | p in m.filed :: p <= m.clock)
    && (m.file.Some? ==> m.path == Some(m.file.value.path) && m.file.value.path in m.disk)
    && (m.file.None? && m.path.Some? ==> m.path.value !in m.disk && m.path.value !in m.filed)
    && (forall p :: p in m.order <==> p in m.disk)
  }

  /** Entries are filed by day, those for the open file being of the date. */
  ghost predicate OneDay(day: Days, m: Moment) {
    && (forall p | p in m.filed :: exists d :: SameDay(day, m.filed[p], d))
    && (m.file.Some? && m.file.value.path in m.filed ==> SameDay(day, m.filed[m.file.value.path], m.date))
  }

  /** What holds of the files however operations on them fail; more does while writing works. */
  ghost predicate SoundAt(day: Days, writesWork: bool, m: Moment) {
    && Fresh(m) && OneDay(day, m)
    && (writesWork ==> Written(m.disk, m.file, m.buffer, m.filed))
    && Sourced(m.disk, m.file, m.buffer, m.filed)
  }

  lemma {:induction false} SoundOpen(day: Days, writesWork: bool, m: Moment)
    requires SoundAt(day, writesWork, m)
    ensures m.file.Some? ==> m.path == Some(m.file.value.path) && m.file.value.path in m.disk
    ensures forall p | p in m.disk :: p <= m.clock
    ensures forall i | 0 <= i < |m.order| :: m.order[i] in m.disk
    ensures m.path.None? ==> m.file.None?
    ensures m.file.None? && m.path.Some? ==> m.path.value !in m.disk
  {
  }

  lemma {:induction false} SoundOnDisk(day: Days, m: Moment)
    requires SoundAt(day, true, m) && m.buffer == ""
    ensures AllOnDisk(m.disk, m.filed)
  {
    WrittenIsOnDisk(m.disk, m.file, m.filed);
  }

  lemma {:induction false} SoundPutOut(day: Days, writesWork: bool, m: Moment, disk: Disk, file: Option<Writer>)
    requires SoundAt(day, writesWork, m) && PutOut(m.disk, m.file, m.buffer, disk, file, writesWork)
    ensures SoundAt(day, writesWork, m.(disk := disk, file := file, buffer := ""))
  {
    hide Sourced, Written, FileText, Record;
    if writesWork { PutOutWritten(m.disk, m.file, m.buffer, disk, file, m.filed); }
    PutOutSourced(m.disk, m.file, m.buffer, disk, file, writesWork, m.filed);
    assert OneDay(day, m.(disk := disk, file := file, buffer := ""));
  }

  function Created(m: Moment, p: nat): Moment {
    m.(path := Some(p), disk := m.disk[p := ""], order := m.order + [p], file := Some(Writer(p, "")))
  }

  /** The current path is opened; it never was before. */
  lemma {:induction false} SoundOpened(day: Days, writesWork: bool, m: Moment)
    requires SoundAt(day, writesWork, m) && m.file.None? && m.path.Some? && m.buffer == ""
    ensures SoundAt(day, writesWork, Created(m, m.path.value))
  {
    hide Sourced, Written, FileText, Record;
    var p := m.path.value;
    if writesWork { WrittenOpened(m.disk, m.filed, p); }
    SourcedOpened(m.disk, None, m.filed, p);
    assert OneDay(day, Created(m, p));
  }

  /** A file with a new name is begun, or could not be opened. */
  lemma {:induction false} SoundBegun(day: Days, writesWork: bool, m: Moment, p: nat, today: Date)
    requires SoundAt(day, writesWork, m) && m.buffer == "" && p > m.clock
    ensures p !in m.disk && p !in m.filed
    ensures SoundAt(day, writesWork, Created(m, p).(clock := p, date := today))
    ensures SoundAt(day, writesWork, m.(path := Some(p), clock := p, file := None))
  {
    hide Sourced, Written, FileText, Record;
    if writesWork {
      WrittenClosed(m.disk, m.file, m.filed);
      WrittenOpened(m.disk, m.filed, p);
    }
    SourcedOpened(m.disk, m.file, m.filed, p);
    assert OneDay(day, Created(m, p).(clock := p, date := today));
    assert OneDay(day, m.(path := Some(p), clock := p, file := None));
  }

  /** An entry of the date is filed for the open file and put behind the buffer. */
  lemma {:induction false} SoundPut(day: Days, writesWork: bool, m: Moment, x: Entry)
    requires SoundAt(day, writesWork, m) && m.file.Some? && DayOf(day, x) == m.date
    ensures var p := m.file.value.path;
            SoundAt(day, writesWork,
                    m.(buffer := m.buffer + Record(x.datetime, x.event),
                       filed := m.filed[p := FiledAt(m.filed, p) + [x]]))
  {
    hide Sourced, Written, FileText, Record;
    var p := m.file.value.path;
    if writesWork { WrittenMore(m.disk, m.file, m.buffer, m.filed, x); }
    SourcedMore(m.disk, m.file, m.buffer, m.filed, x);
    var filed := m.filed[p := FiledAt(m.filed, p) + [x]];
    assert SameDay(day, filed[p], m.date);
  }

  // ---------- what is on disk ----------

  /** The files one after the other. */
  function DiskText(disk: Disk, order: seq<nat>): string
    requires forall i | 0 <= i < |order| :: order[i] in disk
  {
    if order == [] then "" else disk[order[0]] + DiskText(disk, order[1..])
  }

  lemma {:induction false} DiskTextAppend(disk: Disk, a: seq<nat>, p: nat)
    requires forall i | 0 <= i < |a| :: a[i] in disk
    requires p in disk
    ensures DiskText(disk, a + [p]) == DiskText(disk, a) + disk[p]
  {
    if a == [] {
      assert a + [p] == [p] && [p][1..] == [];
    } else {
      assert (a + [p])[1..] == a[1..] + [p];
      DiskTextAppend(disk, a[1..], p);
      Regroup(disk[a[0]], DiskText(disk, a[1..]), disk[p]);
    }
  }

  lemma {:induction false} DiskTextIs(disk: Disk, order: seq<nat>, runs: Runs)
    requires |order| == |runs| && forall i | 0 <= i < |order| :: order[i] in disk && disk[order[i]] == FileText(runs[i])
    ensures DiskText(disk, order) == FileText(Flatten(runs))
  {
    if order != [] {
      DiskTextIs(disk, order[1..], runs[1..]);
      FileTextAppend(runs[0], Flatten(runs[1..]));
    }
  }

  /** The files and then the buffer are the text of all entries. */
  lemma {:induction false} DiskAndBuffer(disk: Disk, order: seq<nat>, file: Option<Writer>, buffer: string, runs: Runs)
    requires Holds(disk, order, file, buffer, runs) && (file.None? ==> buffer == "")
    ensures DiskText(disk, order) + buffer == FileText(Flatten(runs))
  {
    if runs != [] {
      hide Flatten, FileText, DiskText;
      var n := |runs| - 1;
      var first, p := order[..n], order[n];
      assert order == first + [p] && runs == runs[..n] + [runs[n]];
      DiskTextAppend(disk, first, p);
      DiskTextIs(disk, first, runs[..n]);
      FlattenAppend(runs[..n], [runs[n]]);
      FlattenOne(runs[n]);
      FileTextAppend(Flatten(runs[..n]), runs[n]);
      Regroup(DiskText(disk, first), disk[p], buffer);
    }
  }

  /** With the entries of the buffer taken off the end, that text is what is on disk. */
  lemma {:induction false} DiskIsPrefix(onDisk: string, es: seq<Entry>, kept: seq<Entry>)
    requires Tail(es, kept) && onDisk + FileText(kept) == FileText(es)
    ensures onDisk == FileText(es[..|es| - |kept|])
  {
    var first := es[..|es| - |kept|];
    assert es == first + kept;
    FileTextAppend(first, kept);
    var all := FileText(es);
    assert onDisk == all[..|onDisk|] && FileText(first) == all[..|all| - |FileText(kept)|];
  }

  /** The buffer is the end of the last file, which on disk lacks just that. */
  lemma {:induction false} BufferIsTail(disk: Disk, order: seq<nat>, file: Option<Writer>, runs: Runs, kept: seq<Entry>)
    requires Holds(disk, order, file, FileText(kept), runs) && runs != [] && Tail(Flatten(runs), kept)
    ensures var last := runs[|runs| - 1];
            |kept| <= |last| && disk[order[|order| - 1]] == FileText(last[..|last| - |kept|])
  {
    hide FileText, Flatten;
    var n := |runs| - 1;
    var last, es := runs[n], Flatten(runs);
    assert runs == runs[..n] + [last];
    FlattenAppend(runs[..n], [last]);
    FlattenOne(last);
    if |kept| > |last| {
      assert kept == kept[..|kept| - |last|] + last;
      FileTextLonger(kept[..|kept| - |last|], last);
      assert false;
    }
    assert kept == last[|last| - |kept|..];
    DiskIsPrefix(disk[order[n]], last, kept);
  }

  lemma {:induction false} FileTextLonger(a: seq<Entry>, b: seq<Entry>)
    requires a != []
    ensures |FileText(a + b)| > |FileText(b)|
  {
    FileTextAppend(a, b);
  }

  lemma {:induction false} EntriesPrefix(stamp: Stamper, events: seq<Event>, n: nat)
    requires n <= |events|
    ensures Entries(stamp, events)[..n] == Entries(stamp, events[..n])
    decreases |events|
  {
    if n < |events| {
      var m := |events| - 1;
      EntriesPrefix(stamp, events[..m], n);
      assert events[..m][..n] == events[..n];
    } else {
      assert events[..n] == events;
    }
  }

  /** Earlier entries print a prefix of what more entries print. */
  lemma {:induction false} FileTextPrefix(es: seq<Entry>, m: nat, n: nat)
    requires m <= n <= |es|
    ensures FileText(es[..m]) <= FileText(es[..n])
  {
    assert es[..n] == es[..m] + es[m..n];
    FileTextAppend(es[..m], es[m..n]);
  }

  /** Every event before an acknowledged flush is out of the buffer, when `kept` is in it. */
  ghost predicate Durable(cmds: seq<Cmd>, kept: seq<Entry>) {
    forall i | 0 <= i < |cmds| && cmds[i].Flush? :: |Events(cmds[..i])| + |kept| <= |Events(cmds)|
  }

  lemma {:induction false} CmdMore(before: seq<Cmd>, cmd: Cmd)
    ensures Events(before + [cmd]) == if cmd.Log? then Events(before) + [cmd.event] else Events(before)
    ensures FlushIds(before + [cmd]) == if cmd.Flush? then FlushIds(before) + [cmd.id] else FlushIds(before)
  {
  }

  lemma {:induction false} EventsMonotone(cmds: seq<Cmd>, i: nat)
    requires i <= |cmds|
    ensures Events(cmds[..i]) <= Events(cmds)
    decreases |cmds|
  {
    if i < |cmds| {
      var n := |cmds| - 1;
      EventsMonotone(cmds[..n], i);
      assert cmds[..n][..i] == cmds[..i];
    } else {
      assert cmds[..i] == cmds;
    }
  }

  lemma {:induction false} DurableLog(before: seq<Cmd>, cmd: Cmd, kept: seq<Entry>, more: seq<Entry>)
    requires cmd.Log? && Durable(before, kept) && |more| <= |kept| + 1
    ensures Durable(before + [cmd], more)
  {
    var cmds := before + [cmd];
    CmdMore(before, cmd);
    forall i | 0 <= i < |cmds| && cmds[i].Flush? ensures |Events(cmds[..i])| + |more| <= |Events(cmds)| {
      assert cmds[..i] == before[..i];
    }
  }

  lemma {:induction false} DurableFlush(before: seq<Cmd>, cmd: Cmd)
    ensures Durable(before + [cmd], [])
  {
    var cmds := before + [cmd];
    forall i | 0 <= i < |cmds| && cmds[i].Flush? ensures |Events(cmds[..i])| <= |Events(cmds)| {
      EventsMonotone(cmds, i);
    }
  }

  /** The files once the first one is open. */
  function WithFirst(runs: Runs): Runs {
    if runs == [] then [[]] else runs
  }

  /** The files once the one for an event of the day `today` is open. */
  function Ready(day: Days, day0: Date, es: seq<Entry>, today: Date): (r: Runs)
    ensures r != []
  {
    var runs := WithFirst(FilesOf(day, day0, es));
    if today == LastDay(day, day0, es) then runs else runs + [[]]
  }

  ghost predicate Tail(es: seq<Entry>, kept: seq<Entry>) {
    |kept| <= |es| && es[|es| - |kept|..] == kept
  }

  /** A tail of the entries stays one when an entry is added to both, and nothing is always one. */
  lemma {:induction false} TailMore(es: seq<Entry>, kept: seq<Entry>, x: Entry)
    ensures Tail(es, kept) ==> Tail(es + [x], kept + [x])
    ensures Tail(es + [x], []) && Tail(es + [x], [] + [x])
  {
  }

  lemma {:induction false} EntriesMore(stamp: Stamper, before: seq<Event>, e: Event)
    ensures CacheAfter(stamp, before + [e]) == Touch(stamp, CacheAfter(stamp, before), e)
    ensures Entries(stamp, before + [e])
            == Entries(stamp, before) + [Entry(CacheAfter(stamp, before + [e]).datetime, e)]
  {
  }

  lemma {:induction false} FilesMore(day: Days, day0: Date, es: seq<Entry>, x: Entry)
    ensures FilesOf(day, day0, es + [x]) == AddToLast(Ready(day, day0, es, DayOf(day, x)), x)
    ensures LastDay(day, day0, es + [x]) == DayOf(day, x)
  {
    var runs := WithFirst(FilesOf(day, day0, es));
    assert (es + [x])[..|es|] == es;
    assert (runs + [[]])[..|runs|] == runs && [] + [x] == [x];
  }

  lemma {:induction false} FileTextAppend(a: seq<Entry>, b: seq<Entry>)
    ensures FileText(a + b) == FileText(a) + FileText(b)
  {
    if a == [] {
      assert a + b == b;
    } else {
      assert (a + b)[1..] == a[1..] + b;
      FileTextAppend(a[1..], b);
      Regroup(Record(a[0].datetime, a[0].event), FileText(a[1..]), FileText(b));
    }
  }

  lemma {:induction false} NoText()
    ensures FileText([]) == ""
  {
  }

  lemma {:induction false} FileTextMore(a: seq<Entry>, x: Entry)
    ensures FileText(a + [x]) == FileText(a) + Record(x.datetime, x.event)
  {
    FileTextAppend(a, [x]);
    assert [x][1..] == [];
    assert Record(x.datetime, x.event) + FileText([]) == Record(x.datetime, x.event);
  }
}
