/** The log writer task: `worker` and `Logger::flush` in `src/logger/mod.rs`. */
module LogWorker {
  import opened Basics
  import opened LogFormat
  import opened RoundTrip
  import opened LogFiles

  const QUEUE_SIZE: nat := 500000
  const WRITE_SIZE: nat := 48 * 1024

  class Worker {
    const stamp: Stamper        // how a second is printed
    const day: Days             // the UTC day of a second
    const day0: Date            // the day the worker was started
    const opensWork: bool       // when false, opening a file may fail
    const writesWork: bool      // when false, writing and flushing may fail
    var arrivals: seq<Cmd>      // commands that senders have yet to get into the queue, in order
    var rx: seq<Cmd>            // the queue
    var file: Option<Writer>
    var buffer: string
    var date: Date
    var datetime: string
    var timestampSec: int
    var path: Option<nat>       // the path in the logger state; a path is the instant in its name
    var clock: nat              // the instant of the last generated name
    var disk: Disk
    var acks: seq<nat>          // the flush signals sent
    ghost var accepted: seq<Cmd>           // every command that got into the queue
    ghost var handled: nat                 // how many of them the worker has taken out
    ghost var order: seq<nat>              // the files in the order of their creation
    ghost var kept: seq<Entry>             // the entries in the buffer
    ghost var filed: Filed  // the entries that were buffered for each path
    ghost var past: seq<Disk>  // every state the disk has been in, the present one last
    ghost var flushedAt: map<nat, nat>     // the state in which the signal of a Flush command was sent
    ghost var filedBy: map<nat, Filed>     // what had been filed by then

    constructor (stamp: Stamper, day: Days, day0: Date, opensWork: bool, writesWork: bool, path: Option<nat>,
                 arrivals: seq<Cmd>)
      ensures Valid() && handled == 0 && accepted == [] && order == [] && filed == map[]
      ensures this.stamp == stamp && this.day == day && this.day0 == day0
      ensures this.opensWork == opensWork && this.writesWork == writesWork
      ensures this.path == path && this.arrivals == arrivals
    {
      this.stamp, this.day, this.day0, this.path, this.arrivals := stamp, day, day0, path, arrivals;
      this.opensWork, this.writesWork := opensWork, writesWork;
      rx, file, buffer, date := [], None, "", day0;
      datetime, timestampSec := NO_CACHE.datetime, NO_CACHE.second;
      clock, disk, acks := if path.Some? then path.value else 0, map[], [];
      accepted, handled, order, kept, filed := [], 0, [], [], map[];
      past, flushedAt, filedBy := [map[]], map[], map[];
    }

    // ----- invariants -----

    /** No operation on a file fails. */
    ghost predicate Reliable() {
      opensWork && writesWork
    }

    ghost predicate Queued()
      reads this`rx, this`accepted, this`handled
    {
      handled <= |accepted| && rx == accepted[handled..]
    }

    /** The events taken from the queue so far, as they are printed. */
    ghost function Seen(): seq<Entry>
      requires handled <= |accepted|
      reads this`accepted, this`handled
    {
      Entries(stamp, Events(accepted[..handled]))
    }

    ghost predicate Buffered()
      reads this`buffer, this`kept, this`file
    {
      buffer == FileText(kept) && (kept == [] ==> buffer == "") && (kept != [] ==> file.Some?)
    }

    ghost function Now(): Moment
      reads this`path, this`file, this`clock, this`disk, this`order, this`date, this`buffer, this`filed
    {
      Moment(path, file, clock, disk, order, date, buffer, filed)
    }

    /** What holds of the files however operations on them fail. */
    ghost predicate Sound()
      reads this`path, this`file, this`clock, this`disk, this`order, this`date, this`buffer, this`filed, this`past
    {
      SoundAt(day, writesWork, Now()) && Growing(past, disk)
    }

    ghost predicate Stored(es: seq<Entry>)
      reads this`disk, this`order, this`file, this`buffer, this`kept, this`date, this`path
    {
      Reliable() && path.Some? ==>
        && Holds(disk, order, file, buffer, FilesOf(day, day0, es)) && date == LastDay(day, day0, es)
        && Tail(es, kept)
    }

    /** What the commands `cmds` have made of the state, these being all that were handled. */
    ghost predicate Consistent(cmds: seq<Cmd>)
      reads this`datetime, this`timestampSec, this`buffer, this`kept, this`file, this`path, this`clock, this`disk,
            this`order, this`date, this`filed, this`past, this`acks, this`flushedAt, this`filedBy
    {
      && Cache(datetime, timestampSec) == CacheAfter(stamp, Events(cmds))
      && Buffered() && Sound() && Stored(Entries(stamp, Events(cmds)))
      && Durable(cmds, kept) && acks == FlushIds(cmds)
      && (Reliable() && path.Some? ==> SignalsKept(stamp, day, day0, cmds, past, order, flushedAt))
      && (writesWork ==> FiledKept(cmds, past, flushedAt, filedBy, filed))
    }

    /** What holds whenever the worker waits for a command. */
    ghost predicate Valid()
      reads this
    {
      Queued() && Consistent(accepted[..handled]) && (buffer != "" ==> rx != [] && |buffer| <= WRITE_SIZE)
    }

    // ----- the other tasks -----

    /** Any number of commands arrive while the worker waits for something else. */
    method Senders()
      requires Queued()
      modifies this`rx, this`arrivals, this`accepted
      ensures Queued() && old(rx) <= rx
      ensures old(accepted) <= accepted
      ensures accepted + arrivals == old(accepted) + old(arrivals)
      ensures |rx| + |arrivals| == old(|rx| + |arrivals|)
    {
      var n: nat :| n <= |arrivals| && (n == 0 || |rx| + n <= QUEUE_SIZE);
      Arrive(n);
    }

    method Arrive(n: nat)
      requires Queued() && n <= |arrivals|
      modifies this`rx, this`arrivals, this`accepted
      ensures Queued() && rx == old(rx) + old(arrivals)[..n]
      ensures accepted == old(accepted) + old(arrivals)[..n] && arrivals == old(arrivals)[n..]
      ensures accepted + arrivals == old(accepted) + old(arrivals)
    {
      rx := rx + arrivals[..n];
      accepted := accepted + arrivals[..n];
      arrivals := arrivals[n..];
    }

    // ----- the file -----

    /** `OpenOptions::new().create(true).append(true).open(p)` */
    method Open(p: nat) returns (ok: bool)
      requires Growing(past, disk)
      modifies this`disk, this`past, this`order
      ensures old(past) <= past && old(order) <= order && Growing(past, disk)
      ensures opensWork ==> ok
      ensures !ok ==> disk == old(disk) && order == old(order)
      ensures ok ==> disk == (if p in old(disk) then old(disk) else old(disk)[p := ""])
      ensures ok ==> order == (if p in old(disk) then old(order) else old(order) + [p])
    {
      ok := *;
      ok := ok || opensWork;
      if ok && p !in disk {
        disk := disk[p := ""];
        order := order + [p];
        GrowingMore(past, old(disk), disk);
        past := past + [disk];
      }
    }

    /** `write_all` to the BufWriter, which may move any part of what it holds to the file. */
    method WriteAll(text: string) returns (ok: bool)
      requires file.Some? && file.value.path in disk && Growing(past, disk)
      modifies this`disk, this`past, this`file
      ensures old(past) <= past && Growing(past, disk)
      ensures writesWork ==> ok
      ensures file.Some? && file.value.path == old(file.value.path)
      ensures file.value.path in disk && disk == old(disk)[file.value.path := disk[file.value.path]]
      ensures old(disk[file.value.path] + file.value.pending) <= disk[file.value.path] + file.value.pending
              <= old(disk[file.value.path] + file.value.pending) + text
      ensures ok ==>
                disk[file.value.path] + file.value.pending == old(disk[file.value.path] + file.value.pending) + text
    {
      var taken: nat :| taken <= |text| && (writesWork ==> taken == |text|);
      Regroup(disk[file.value.path], file.value.pending, text[..taken]);
      Move(file.value.pending + text[..taken], false);
      return taken == |text|;
    }

    method FlushWriter() returns (ok: bool)
      requires file.Some? && file.value.path in disk && Growing(past, disk)
      modifies this`disk, this`past, this`file
      ensures old(past) <= past && Growing(past, disk)
      ensures writesWork ==> ok
      ensures file.Some? && file.value.path == old(file.value.path)
      ensures file.value.path in disk && disk == old(disk)[file.value.path := disk[file.value.path]]
      ensures disk[file.value.path] + file.value.pending == old(disk[file.value.path] + file.value.pending)
      ensures ok ==> file.value.pending == ""
    {
      ok := *;
      ok := ok || writesWork;
      Move(file.value.pending, ok);
    }

    /** The BufWriter holds `all` now, and moves any part of it to the file, or the whole of it. */
    method Move(all: string, whole: bool)
      requires file.Some? && file.value.path in disk && Growing(past, disk)
      modifies this`disk, this`past, this`file
      ensures old(past) <= past && Growing(past, disk)
      ensures file.Some? && file.value.path == old(file.value.path)
      ensures file.value.path in disk && disk == old(disk)[file.value.path := disk[file.value.path]]
      ensures disk[file.value.path] + file.value.pending == old(disk[file.value.path]) + all
      ensures whole ==> file.value.pending == ""
    {
      var p := file.value.path;
      var moved: nat :| moved <= |all| && (whole ==> moved == |all|);
      assert all == all[..moved] + all[moved..];
      Regroup(disk[p], all[..moved], all[moved..]);
      disk := disk[p := disk[p] + all[..moved]];
      file := Some(Writer(p, all[moved..]));
      GrowingMore(past, old(disk), disk);
      past := past + [disk];
    }

    /** Writes the buffer out and empties it, whether or not writing succeeds. */
    method WriteOut()
      requires file.Some? && file.value.path in disk && Growing(past, disk)
      modifies this`disk, this`past, this`file, this`buffer, this`kept
      ensures old(past) <= past && Growing(past, disk)
      ensures buffer == "" && kept == []
      ensures PutOut(old(disk), old(file), old(buffer), disk, file, writesWork)
    {
      var ok := WriteAll(buffer);
      if ok {
        var flushed := FlushWriter();
      }
      buffer, kept := "", [];
      assert writesWork ==> disk[file.value.path] + "" == disk[file.value.path];
    }

    /** The last words to a file before it is replaced: the flush is tried whatever the write did. */
    method CloseOut()
      requires file.Some? && file.value.path in disk && Growing(past, disk)
      modifies this`disk, this`past, this`file, this`buffer, this`kept
      ensures old(past) <= past && Growing(past, disk)
      ensures buffer == "" && kept == []
      ensures PutOut(old(disk), old(file), old(buffer), disk, file, writesWork)
    {
      if buffer != "" {
        var ok := WriteAll(buffer);
        buffer := "";
      }
      kept := [];
      var flushed := FlushWriter();
      assert writesWork ==> disk[file.value.path] + "" == disk[file.value.path];
    }

    // ----- one command -----

    /** Formats the second again only when it differs from the cached one. */
    method TouchCache(e: Event)
      modifies this`datetime, this`timestampSec
      ensures Cache(datetime, timestampSec) == Touch(stamp, Cache(old(datetime), old(timestampSec)), e)
    {
      if e.seconds != timestampSec {
        datetime := stamp(e.seconds);
        timestampSec := e.seconds;
      }
    }

    /** Opens the current path when no file is open. */
    method OpenCurrent()
      requires path.Some? && Sound() && Buffered()
      modifies this`disk, this`past, this`order, this`file
      ensures Sound() && Buffered() && old(past) <= past && old(order) <= order
      ensures opensWork ==> file.Some?
      ensures old(file.Some?) ==> file == old(file) && disk == old(disk) && order == old(order)
      ensures old(file.None?) && file.Some? ==>
                path.value !in old(disk) && file == Some(Writer(path.value, "")) && disk == old(disk)[path.value := ""]
      ensures Reliable() && Holds(old(disk), old(order), old(file), buffer, []) && buffer == "" ==>
                Holds(disk, order, file, buffer, [[]])
    {
      hide SoundAt, Growing, FileText, Holds;
      ghost var m := Now();
      SoundOpen(day, writesWork, m);
      if Reliable() && Holds(disk, order, file, "", []) { HoldsFirst(disk, order, file, path.value); }
      if file.None? {
        SoundOpened(day, writesWork, m);
        var ok := Open(path.value);
        if ok {
          file := Some(Writer(path.value, ""));
          assert Now() == Created(m, path.value);
        } else {
          assert Now() == m;
        }
      } else {
        assert Now() == m;
      }
    }

    /** `gen_path`: a name with an instant that was not used before. */
    method GenPath() returns (p: nat)
      modifies this`clock
      ensures p == clock > old(clock)
    {
      var later: nat :| later > clock;
      clock := later;
      return clock;
    }

    /** What writing the buffer out, as far as it went, leaves behind. */
    lemma {:induction false} AfterPutOut(m: Moment, runs: Runs)
      requires SoundAt(day, writesWork, m) && PutOut(m.disk, m.file, m.buffer, disk, file, writesWork)
      requires Now() == m.(disk := disk, file := file, buffer := "")
      requires Reliable() ==> Holds(m.disk, order, m.file, m.buffer, runs)
      ensures SoundAt(day, writesWork, Now())
      ensures Reliable() ==> Holds(disk, order, file, "", runs)
    {
      hide SoundAt;
      SoundPutOut(day, writesWork, m, disk, file);
      if Reliable() {
        assert runs != [];
        PutOutHolds(m.disk, m.file, m.buffer, disk, file, order, runs);
      }
    }

    /** Writes what is left to the open file, if there is one. */
    method Retire(ghost runs: Runs)
      requires Sound() && Buffered()
      requires Reliable() ==> file.Some? && Holds(disk, order, file, buffer, runs)
      modifies this`disk, this`past, this`file, this`buffer, this`kept
      ensures Sound() && buffer == "" && kept == [] && old(past) <= past
      ensures file.Some? == old(file.Some?)
      ensures Reliable() ==> file.Some? && Holds(disk, order, file, "", runs)
    {
      hide SoundAt, Growing, Holds, PutOut, FileText;
      ghost var m := Now();
      SoundOpen(day, writesWork, m);
      if file.Some? {
        CloseOut();
        AfterPutOut(m, runs);
      }
    }

    /** Begins a file with a new name; the path is replaced even when opening the file fails. */
    method Begin(today: Date, ghost runs: Runs)
      requires path.Some? && Sound() && buffer == "" && kept == []
      requires Reliable() ==> Holds(disk, order, file, "", runs)
      modifies this`disk, this`past, this`order, this`file, this`clock, this`path, this`date
      ensures Sound() && old(past) <= past && old(order) <= order
      ensures path.Some? && path.value == clock > old(clock) && path.value !in old(disk)
      ensures if file.Some?
              then date == today && file == Some(Writer(path.value, "")) && disk == old(disk)[path.value := ""]
              else date == old(date) && disk == old(disk)
      ensures opensWork ==> file.Some?
      ensures Reliable() ==> Holds(disk, order, file, "", runs + [[]])
    {
      hide SoundAt, Growing, Holds, FileText;
      ghost var m := Now();
      SoundOpen(day, writesWork, m);
      var newPath := GenPath();
      SoundBegun(day, writesWork, m, newPath, today);
      if Reliable() { HoldsOpened(disk, order, file, runs, newPath); }
      var ok := Open(newPath);
      if ok {
        file := Some(Writer(newPath, ""));
        date := today;
      } else {
        file := None;
      }
      path := Some(newPath);
      assert Now() == if ok then Created(m, newPath).(clock := newPath, date := today)
                      else m.(path := Some(newPath), clock := newPath, file := None);
    }

    /** Replaces the file by one for another day. */
    method Rotate(today: Date, ghost runs: Runs)
      requires path.Some? && Sound() && Buffered()
      requires Reliable() ==> file.Some? && Holds(disk, order, file, buffer, runs)
      modifies this`disk, this`past, this`order, this`file, this`buffer, this`kept, this`clock, this`path, this`date
      ensures Sound() && Buffered() && old(past) <= past && old(order) <= order
      ensures path.Some? && path.value > old(clock) && path.value !in old(disk) && kept == []
      ensures date == if file.Some? then today else old(date)
      ensures opensWork ==> file.Some?
      ensures Reliable() ==> Holds(disk, order, file, buffer, runs + [[]])
    {
      hide SoundAt, Growing, Holds;
      SoundOpen(day, writesWork, Now());
      Retire(runs);
      Begin(today, runs);
    }

    /** The slices that make up a record, one after the other. */
    method PutText(e: Event)
      modifies this`buffer
      ensures buffer == old(buffer) + Record(datetime, e)
      ensures var level := match e.level
                           case ERROR => "ERROR"
                           case WARN => "WARN "
                           case INFO => "INFO "
                           case DEBUG => "DEBUG"
                           case TRACE => "TRACE";
              var spans := if e.spans.Some? then e.spans.value else "";
              buffer == old(buffer) + (datetime + " " + level + " " + spans + e.message + "\n")
    {
      hide LevelText;
      RecordReads(datetime, e);
      ghost var was := buffer;
      buffer := buffer + datetime;
      buffer := buffer + " ";
      buffer := buffer + LevelText(e.level);
      buffer := buffer + " ";
      assert buffer == was + Header(datetime, e.level);
      ghost var header := Header(datetime, e.level);
      if e.spans.Some? {
        Regroup(was, header, e.spans.value);
        buffer := buffer + e.spans.value;
        header := header + e.spans.value;
      }
      assert buffer == was + header;
      Regroup(was, header, e.message);
      buffer := buffer + e.message;
      assert header + e.message == Body(datetime, e);
      Regroup(was, Body(datetime, e), "\n");
      buffer := buffer + "\n";
    }

    /** Puts the printed event behind the buffer, for the open file. */
    method Put(e: Event)
      requires file.Some? && Sound() && Buffered() && day(e.seconds) == date
      modifies this`buffer, this`kept, this`filed
      ensures Sound() && Buffered()
      ensures kept == old(kept) + [Entry(datetime, e)]
      ensures buffer == old(buffer) + Record(datetime, e)
      ensures filed == old(filed)[file.value.path := FiledAt(old(filed), file.value.path) + [Entry(datetime, e)]]
    {
      hide SoundAt, Growing, FileText, Record;
      ghost var x, p, m := Entry(datetime, e), file.value.path, Now();
      PutText(e);
      FileTextMore(kept, x);
      SoundPut(day, writesWork, m, x);
      kept := kept + [x];
      filed := filed[p := FiledAt(filed, p) + [x]];
      assert Now() == m.(buffer := m.buffer + Record(datetime, e), filed := filed);
    }

    /** Writes the buffer out when no command waits or the buffer is large. */
    method WriteIfDue(ghost runs: Runs)
      requires file.Some? && Buffered() && Sound()
      requires Reliable() ==> Holds(disk, order, file, buffer, runs)
      modifies this`disk, this`past, this`file, this`buffer, this`kept
      ensures file.Some? && file.value.path == old(file.value.path) && Buffered() && Sound() && old(past) <= past
      ensures buffer != "" ==> rx != [] && |buffer| <= WRITE_SIZE
      ensures kept == [] || kept == old(kept)
      ensures rx != [] && |old(buffer)| <= WRITE_SIZE ==>
                buffer == old(buffer) && disk == old(disk) && file == old(file)
      ensures Reliable() ==> Holds(disk, order, file, buffer, runs)
    {
      hide SoundAt, Growing, Holds;
      if rx == [] || |buffer| > WRITE_SIZE {
        ghost var m := Now();
        SoundOpen(day, writesWork, m);
        WriteOut();
        AfterPutOut(m, runs);
      }
    }

    /** Opens the file for the day of an event that follows the entries `es`. */
    method Prepare(today: Date, ghost es: seq<Entry>)
      requires path.Some? && Buffered() && Sound() && Stored(es)
      modifies this`disk, this`past, this`order, this`file, this`buffer, this`kept, this`clock, this`path, this`date
      ensures path.Some? && Buffered() && Sound() && old(past) <= past && old(order) <= order
      ensures file.Some? ==> date == today
      ensures opensWork ==> file.Some?
      ensures kept == [] || kept == old(kept)
      ensures Reliable() ==> Holds(disk, order, file, buffer, Ready(day, day0, es, today))
    {
      hide SoundAt, Growing, FileText;
      ghost var runs := WithFirst(FilesOf(day, day0, es));
      OpenCurrent();
      if date != today {
        Rotate(today, runs);
      }
    }

    /** Buffers the event for the open file; other commands may arrive before the buffer is written. */
    method Write(e: Event, ghost runs: Runs)
      requires Queued() && Buffered() && Sound() && runs != []
      requires file.Some? && day(e.seconds) == date
      requires Reliable() ==> Holds(disk, order, file, buffer, runs)
      modifies this`rx, this`arrivals, this`accepted, this`disk, this`past, this`file, this`buffer, this`kept,
               this`filed
      ensures file.Some? && file.value.path == old(file.value.path)
      ensures Queued() && Buffered() && Sound() && old(past) <= past
      ensures old(accepted) <= accepted && accepted + arrivals == old(accepted) + old(arrivals)
      ensures |rx| + |arrivals| == old(|rx| + |arrivals|)
      ensures buffer != "" ==> rx != [] && |buffer| <= WRITE_SIZE
      ensures filed == old(filed)[file.value.path := FiledAt(old(filed), file.value.path) + [Entry(datetime, e)]]
      ensures kept == [] || kept == old(kept) + [Entry(datetime, e)]
      ensures Reliable() ==> Holds(disk, order, file, buffer, AddToLast(runs, Entry(datetime, e)))
    {
      hide SoundAt, Growing, Holds, AddToLast, Record, FileText;
      ghost var x := Entry(datetime, e);
      if Reliable() { HoldsMore(disk, order, file, buffer, runs, Entry(datetime, e)); }
      Put(e);
      Senders();
      WriteIfDue(AddToLast(runs, Entry(datetime, e)));
    }

    /** Stores an event that follows the entries `es`; without an open file it is dropped. */
    method Deliver(e: Event, ghost es: seq<Entry>)
      requires Queued() && Buffered() && Sound() && Stored(es) && path.Some?
      modifies this`rx, this`arrivals, this`accepted, this`disk, this`past, this`order, this`file, this`buffer,
               this`kept,
               this`clock, this`path, this`date, this`filed
      ensures old(past) <= past && old(order) <= order
      ensures Queued() && Buffered() && Sound() && Stored(es + [Entry(datetime, e)]) && path.Some?
      ensures old(accepted) <= accepted && accepted + arrivals == old(accepted) + old(arrivals)
      ensures filed ==
              if file.Some?
              then old(filed)[file.value.path := FiledAt(old(filed), file.value.path) + [Entry(datetime, e)]]
              else old(filed)
      ensures |rx| + |arrivals| == old(|rx| + |arrivals|)
      ensures opensWork ==> file.Some?
      ensures buffer != "" ==> rx != [] && |buffer| <= WRITE_SIZE
      ensures |kept| <= old(|kept|) + 1
    {
      hide FilesOf, Holds, Ready, AddToLast, SoundAt, Growing, Tail, FileText, LastDay;
      var today := day(e.seconds);
      Prepare(today, es);
      if file.Some? {
        FilesMore(day, day0, es, Entry(datetime, e));
        TailMore(es, old(kept), Entry(datetime, e));
        Write(e, Ready(day, day0, es, today));
      }
    }

    /** A Log command, after the events `before`. */
    method HandleLog(e: Event, ghost before: seq<Event>)
      requires Queued() && Buffered() && Sound() && Stored(Entries(stamp, before))
      requires Cache(datetime, timestampSec) == CacheAfter(stamp, before)
      modifies this`rx, this`arrivals, this`accepted, this`disk, this`past, this`order, this`file, this`buffer,
               this`kept,
               this`clock, this`path, this`date, this`filed, this`datetime, this`timestampSec
      ensures old(past) <= past && old(order) <= order
      ensures Queued() && Buffered() && Sound() && Stored(Entries(stamp, before + [e]))
      ensures Cache(datetime, timestampSec) == CacheAfter(stamp, before + [e])
      ensures old(accepted) <= accepted && accepted + arrivals == old(accepted) + old(arrivals)
      ensures filed ==
              if file.Some?
              then old(filed)[file.value.path := FiledAt(old(filed), file.value.path) + [Entry(datetime, e)]]
              else old(filed)
      ensures |rx| + |arrivals| == old(|rx| + |arrivals|)
      ensures opensWork && path.Some? ==> file.Some?
      ensures buffer != "" ==> rx != [] && |buffer| <= WRITE_SIZE
      ensures |kept| <= old(|kept|) + 1
      ensures path.Some? <==> old(path.Some?)
    {
      hide FilesOf, Holds, SoundAt, Growing, FileText, Entries, CacheAfter, Tail, LastDay;
      SoundOpen(day, writesWork, Now());
      TouchCache(e);
      EntriesMore(stamp, before, e);
      if path.None? { return; }
      Deliver(e, Entries(stamp, before));
    }

    /** Writes the buffer out, or flushes the writer when there is nothing in it. */
    method PushOut()
      requires file.Some? && file.value.path in disk && Growing(past, disk)
      modifies this`disk, this`past, this`file, this`buffer, this`kept
      ensures old(past) <= past && Growing(past, disk)
      ensures buffer == "" && kept == []
      ensures PutOut(old(disk), old(file), old(buffer), disk, file, writesWork)
    {
      if buffer != "" {
        WriteOut();
      } else {
        kept := [];
        var flushed := FlushWriter();
        assert writesWork ==> disk[file.value.path] + "" == disk[file.value.path];
      }
    }

    /** A Flush command: the buffer is written out and the signal sent. */
    method HandleFlush(id: nat, ghost es: seq<Entry>)
      requires Buffered() && Sound() && Stored(es)
      modifies this`disk, this`past, this`file, this`buffer, this`kept, this`acks
      ensures Buffered() && Sound() && Stored(es) && old(past) <= past
      ensures buffer == "" && kept == [] && acks == old(acks) + [id]
      ensures past != [] && past[|past| - 1] == disk
      ensures Reliable() && path.Some? ==> SavedIn(disk, order, FilesOf(day, day0, es))
      ensures writesWork ==> AllOnDisk(disk, filed)
    {
      hide SoundAt, Growing, Holds, FilesOf, PutOut, FileText, SavedIn, AllOnDisk, LastDay;
      NoText();
      ghost var runs, m := FilesOf(day, day0, es), Now();
      SoundOpen(day, writesWork, m);
      if file.Some? {
        PushOut();
        AfterPutOut(m, runs);
      }
      if Reliable() && path.Some? { HoldsIsSaved(disk, order, file, runs); }
      if writesWork { SoundOnDisk(day, Now()); }
      acks := acks + [id];
      GrowingNow(past, disk);
    }

    // ----- the loop -----

    /** `rx.recv()`: the next command, or None when the queue is empty and every sender is gone. */
    method Recv() returns (cmd: Option<Cmd>)
      requires Valid()
      modifies this`rx, this`arrivals, this`accepted, this`handled
      ensures Queued() && old(accepted) <= accepted && accepted + arrivals == old(accepted) + old(arrivals)
      ensures cmd.None? ==> handled == old(handled)
      ensures cmd.None? ==> Valid() && rx == [] && arrivals == [] && handled == |accepted| && buffer == ""
      ensures cmd.Some? ==> handled == old(handled) + 1 <= |accepted|
      ensures cmd.Some? ==> accepted[..handled] == old(accepted[..handled]) + [cmd.value]
      ensures Consistent(old(accepted[..handled]))
      ensures cmd.Some? ==> |rx| + |arrivals| < old(|rx| + |arrivals|)
    {
      hide Consistent;
      if rx == [] && arrivals != [] {
        Arrive(1);
      }
      Senders();
      assert accepted[..handled] == old(accepted[..handled]);
      if rx == [] { return None; }
      cmd := Some(rx[0]);
      rx := rx[1..];
      handled := handled + 1;
    }

    /** One round of the loop, the commands taken out before it being `before`. */
    method Step(cmd: Cmd, ghost before: seq<Cmd>)
      requires Queued() && Consistent(before)
      requires handled == |before| + 1 && accepted[..handled] == before + [cmd]
      modifies this
      ensures Valid() && path.Some? == old(path.Some?) && handled == old(handled)
      ensures old(past) <= past && old(order) <= order
      ensures old(accepted) <= accepted && accepted + arrivals == old(accepted) + old(arrivals)
      ensures |rx| + |arrivals| == old(|rx| + |arrivals|)
      ensures if cmd.Log? then filedBy == old(filedBy) && |kept| <= old(|kept|) + 1
              else filedBy == old(filedBy)[|before| := old(filed)] && filed == old(filed) && kept == []
    {
      hide Consistent;
      match cmd {
        case Log(e) => StepLog(e, before);
        case Flush(id) => StepFlush(id, before);
      }
      assert accepted[..handled] == before + [cmd];
    }

    method StepLog(e: Event, ghost before: seq<Cmd>)
      requires Queued() && Consistent(before)
      modifies this`rx, this`arrivals, this`accepted, this`disk, this`past, this`order, this`file, this`buffer,
               this`kept, this`clock, this`path, this`date, this`filed, this`datetime, this`timestampSec
      ensures Queued() && Consistent(before + [Log(e)]) && (buffer != "" ==> rx != [] && |buffer| <= WRITE_SIZE)
      ensures path.Some? == old(path.Some?) && old(past) <= past && old(order) <= order
      ensures old(accepted) <= accepted && accepted + arrivals == old(accepted) + old(arrivals)
      ensures |rx| + |arrivals| == old(|rx| + |arrivals|) && |kept| <= old(|kept|) + 1
    {
      hide FilesOf, Holds, FileText, Events, FlushIds, CacheAfter, Entries, SoundAt, Growing, Durable, SignalsKept,
           Tail, LastDay, FiledKept;
      CmdMore(before, Log(e));
      HandleLog(e, Events(before));
      if Reliable() && path.Some? {
        SignalsStay(stamp, day, day0, before, e, old(past), old(order), flushedAt, past, order);
      }
      if writesWork { FiledStays(before, e, old(past), flushedAt, filedBy, old(filed), past, filed); }
      DurableLog(before, Log(e), old(kept), kept);
    }

    method StepFlush(id: nat, ghost before: seq<Cmd>)
      requires Consistent(before)
      modifies this`disk, this`past, this`file, this`buffer, this`kept, this`acks, this`flushedAt, this`filedBy
      ensures Consistent(before + [Flush(id)]) && buffer == "" && kept == [] && old(past) <= past
      ensures filedBy == old(filedBy)[|before| := filed]
    {
      hide FilesOf, Holds, FileText, Events, FlushIds, CacheAfter, Entries, SoundAt, Growing, Durable, SignalsKept,
           Tail, LastDay, FiledKept, SavedIn, AllOnDisk;
      CmdMore(before, Flush(id));
      HandleFlush(id, Entries(stamp, Events(before)));
      if Reliable() && path.Some? {
        SignalSent(stamp, day, day0, before, id, old(past), old(order), flushedAt, past, order);
      }
      if writesWork { FiledSent(before, id, old(past), flushedAt, filedBy, filed, past); }
      flushedAt, filedBy := flushedAt[|before| := |past| - 1], filedBy[|before| := filed];
      DurableFlush(before, Flush(id));
    }

    /**
     * Conservation: the files in order of creation hold the printed events taken out of the queue,
     * each once and in order, except for those still in the buffer.
     */
    lemma {:induction false} OnDisk()
      requires Valid() && Reliable() && path.Some?
      ensures forall i | 0 <= i < |order| :: order[i] in disk
      ensures |kept| <= |Seen()| && DiskText(disk, order) == FileText(Seen()[..|Seen()| - |kept|])
    {
      hide FilesOf, FileText, CacheAfter, Entries, Events, SoundAt, Growing, Durable;
      var runs := FilesOf(day, day0, Seen());
      FilesKeepAll(day, day0, Seen());
      DiskAndBuffer(disk, order, file, buffer, runs);
      DiskIsPrefix(DiskText(disk, order), Seen(), kept);
    }

    /**
     * Durability: from the moment the signal of a flush was sent, and in every state the disk has
     * been in since, also in the middle of commands, all that was filed before the flush is on
     * disk, while writing works; and while opening does, too, that is the daily files of all events
     * accepted before it.
     */
    lemma {:induction false} FlushIsDurable(i: nat)
      requires Valid() && writesWork
      requires i < handled && accepted[i].Flush?
      ensures i in flushedAt && flushedAt[i] < |past| && i in filedBy && FiledMore(filedBy[i], filed)
      ensures forall m, p | flushedAt[i] <= m < |past| && p in filedBy[i] ::
                p in past[m] && FileText(filedBy[i][p]) <= past[m][p]
      ensures opensWork && path.Some? ==>
                forall m | flushedAt[i] <= m < |past| ::
                  SavedIn(past[m], order, FilesBefore(stamp, day, day0, accepted, i))
    {
      hide FilesOf, Holds, FileText, CacheAfter, Fresh, OneDay, Entries, Events, FlushIds, Tail, Written, Sourced;
      var cmds := accepted[..handled];
      assert cmds[i].Flush? && cmds[..i] == accepted[..i];
      forall m | flushedAt[i] <= m < |past|
        ensures forall p | p in filedBy[i] :: p in past[m] && FileText(filedBy[i][p]) <= past[m][p]
        ensures opensWork && path.Some? ==> SavedIn(past[m], order, FilesBefore(stamp, day, day0, accepted, i))
      {
        assert m == flushedAt[i] || Grown(past[flushedAt[i]], past[m]);
        if opensWork && path.Some? {
          SavedStays(past[flushedAt[i]], past[m], order, FilesBefore(stamp, day, day0, accepted, i));
        }
      }
    }

    /** In order of creation, too, the files begin with the events before an acknowledged flush. */
    lemma {:induction false} FlushInOrder(i: nat)
      requires Valid() && Reliable() && path.Some?
      requires i < handled && accepted[i].Flush?
      ensures forall i | 0 <= i < |order| :: order[i] in disk
      ensures FileText(Entries(stamp, Events(accepted[..i]))) <= DiskText(disk, order)
    {
      hide FilesOf, Holds, FileText, CacheAfter, SoundAt, Growing, Entries, Events, FlushIds, Tail, DiskText,
           SignalsKept, FiledKept;
      OnDisk();
      var cmds := accepted[..handled];
      assert cmds[i].Flush? && cmds[..i] == accepted[..i];
      EventsMonotone(cmds, i);
      var n := |Events(accepted[..i])|;
      EntriesPrefix(stamp, Events(cmds), n);
      assert Events(cmds)[..n] == Events(accepted[..i]);
      FileTextPrefix(Seen(), n, |Seen()| - |kept|);
    }

    /**
     * One day per file, whatever order the events come in and however often operations on files
     * fail: at every moment a file holds first parts of batches of records of one day; and while
     * writing works, the whole text of them with the buffer after the open file.
     */
    lemma {:induction false} FilesHoldOneDay(p: nat)
      requires Valid() && p in disk
      ensures exists d :: SameDay(day, FiledAt(filed, p), d)
      ensures forall m | 0 <= m < |past| && p in past[m] :: Arrived(past[m][p], FiledAt(filed, p))
      ensures writesWork ==>
                disk[p] + (if file.Some? && file.value.path == p then buffer else "") == FileText(FiledAt(filed, p))
    {
      hide FileText, CacheAfter, Entries, Events, Durable, Tail, FilesOf, Holds, SignalsKept, FiledKept, Batched,
           Arriving;
      if p !in filed { assert SameDay(day, FiledAt(filed, p), day0); }
      assert disk[p] + "" == disk[p];
      if file.Some? && file.value.path == p {
        ArrivingArrived(disk[p] + file.value.pending, buffer, FiledAt(filed, p), disk[p]);
      }
      forall m | 0 <= m < |past| && p in past[m] ensures Arrived(past[m][p], FiledAt(filed, p)) {
        assert m < |past| - 1 ==> Grown(past[m], past[|past| - 1]);
        assert past[m][p] <= disk[p];
      }
    }

    /** With an empty buffer, as after the run, every file holds exactly its entries. */
    lemma {:induction false} FilesComplete()
      requires Valid() && Reliable() && path.Some? && buffer == ""
      ensures var runs := FilesOf(day, day0, Seen());
              |order| == |runs| && forall i | 0 <= i < |runs| :: order[i] in disk && disk[order[i]] == FileText(runs[i])
    {
      hide FilesOf, FileText, CacheAfter, SoundAt, Growing, Tail, Durable;
      if order != [] {
        var last := disk[order[|order| - 1]];
        assert last + "" == last;
      }
    }

    /** The whole run of the task, until the queue is empty and every sender is gone. */
    method Run()
      requires Valid()
      modifies this
      ensures old(past) <= past && old(order) <= order
      ensures Valid() && path.Some? == old(path.Some?)
      ensures rx == [] && arrivals == [] && buffer == ""
      ensures accepted == old(accepted) + old(arrivals) && handled == |accepted|
    {
      hide Consistent;
      while true
        invariant Valid() && path.Some? == old(path.Some?) && old(past) <= past && old(order) <= order
        invariant accepted + arrivals == old(accepted) + old(arrivals)
        decreases |rx| + |arrivals|
      {
        ghost var before := accepted[..handled];
        var cmd := Recv();
        if cmd.None? { break; }
        Step(cmd.value, before);
      }
    }
  }
}
