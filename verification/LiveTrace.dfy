/** The worker and the tracer side by side: the tracer polls the worker's files while it runs. */
module LiveTrace {
  import opened Basics
  import opened LogFormat
  import opened LineGrouping
  import opened RoundTrip
  import opened FileNames
  import opened LogFiles
  import opened LogWorker
  import opened TraceReader
  import opened Pipeline
  import opened Following

  // ---------- the directory ----------

  /** The name of the file with this path; names are not followed beyond years of four digits. */
  function NameOr(cal: Calendar, pid: nat, p: nat): string {
    if FourDigitYear(cal(p / MICROS)) then NameAt(cal, pid, p) else ""
  }

  function Names(cal: Calendar, pid: nat, order: seq<nat>): (names: seq<string>)
    ensures |names| == |order| && forall i | 0 <= i < |order| :: names[i] == NameOr(cal, pid, order[i])
  {
    seq(|order|, i requires 0 <= i < |order| => NameOr(cal, pid, order[i]))
  }

  /** The calendar is increasing, and its years have four digits until an instant. */
  ghost predicate Dates(cal: Calendar, until: nat) {
    Increasing(cal) && forall p: nat | p < until :: FourDigitYear(cal(p / MICROS))
  }

  lemma {:induction false} NamesApart(cal: Calendar, pid: nat, until: nat, p: nat, q: nat)
    requires Dates(cal, until) && p < q < until
    ensures LexLess(NameOr(cal, pid, p), NameOr(cal, pid, q)) && NameOr(cal, pid, p) != NameOr(cal, pid, q)
  {
    hide Increasing, LexLess, NameAt, FourDigitYear;
    NamesIncrease(cal, pid, p, q);
    LexAsymmetric(NameOr(cal, pid, p), NameOr(cal, pid, q));
  }

  lemma {:induction false} NamesInOrder(cal: Calendar, pid: nat, until: nat, order: seq<nat>)
    requires Dates(cal, until) && forall i | 0 <= i < |order| :: order[i] < until
    requires forall i, j | 0 <= i < j < |order| :: order[i] < order[j]
    ensures InOrder(Names(cal, pid, order))
  {
    hide Dates, LexLess, NameOr;
    var names := Names(cal, pid, order);
    forall i, j | 0 <= i < j < |names| ensures LexLess(names[i], names[j]) {
      NamesApart(cal, pid, until, order[i], order[j]);
    }
  }

  /** The directory has the files of the disk under their names, and nothing else. */
  ghost predicate Shows(cal: Calendar, pid: nat, listing: seq<string>, files: map<string, string>, disk: Disk) {
    && (forall p | p in disk ::
          NameOr(cal, pid, p) in listing && NameOr(cal, pid, p) in files && files[NameOr(cal, pid, p)] == disk[p])
    && (forall n | n in listing :: exists p :: p in disk && NameOr(cal, pid, p) == n)
  }

  /** Reads the directory; the entries come in any order. */
  method ReadDirectory(cal: Calendar, pid: nat, until: nat, disk: Disk)
    returns (listing: seq<string>, files: map<string, string>)
    requires Dates(cal, until) && forall p | p in disk :: p < until
    ensures Shows(cal, pid, listing, files, disk)
  {
    hide Dates, NameOr, Shows;
    listing, files := [], map[];
    var left := disk.Keys;
    ghost var seen: Disk := map[];
    EmptyDirectory(cal, pid);
    while left != {}
      invariant left <= disk.Keys && seen == disk - left
      invariant Shows(cal, pid, listing, files, seen)
      decreases |left|
    {
      var p :| p in left;
      NamesApartAll(cal, pid, until, seen, p);
      var at: nat :| at <= |listing|;
      OneNameMore(cal, pid, listing, files, seen, p, disk[p], at);
      listing := listing[..at] + [NameOr(cal, pid, p)] + listing[at..];
      files := files[NameOr(cal, pid, p) := disk[p]];
      assert seen[p := disk[p]] == disk - (left - {p});
      seen := seen[p := disk[p]];
      left := left - {p};
    }
    assert disk - {} == disk;
  }

  lemma {:induction false} EmptyDirectory(cal: Calendar, pid: nat)
    ensures Shows(cal, pid, [], map[], map[])
  {
  }

  lemma {:induction false} NamesApartAll(cal: Calendar, pid: nat, until: nat, seen: Disk, p: nat)
    requires Dates(cal, until) && p !in seen && p < until && forall q | q in seen :: q < until
    ensures forall q | q in seen :: NameOr(cal, pid, q) != NameOr(cal, pid, p)
  {
    hide Dates, NameOr;
    forall q | q in seen ensures NameOr(cal, pid, q) != NameOr(cal, pid, p) {
      if p < q { NamesApart(cal, pid, until, p, q); } else { NamesApart(cal, pid, until, q, p); }
    }
  }

  lemma {:induction false} OneNameMore(cal: Calendar, pid: nat, listing: seq<string>, files: map<string, string>,
                                       seen: Disk, p: nat, text: string, at: nat)
    requires Shows(cal, pid, listing, files, seen) && at <= |listing| && p !in seen
    requires forall q | q in seen :: NameOr(cal, pid, q) != NameOr(cal, pid, p)
    ensures var name := NameOr(cal, pid, p);
            Shows(cal, pid, listing[..at] + [name] + listing[at..], files[name := text], seen[p := text])
  {
    hide NameOr;
    var name := NameOr(cal, pid, p);
    var more, now := listing[..at] + [name] + listing[at..], seen[p := text];
    assert listing == listing[..at] + listing[at..];
    forall n | n in more ensures exists q :: q in now && NameOr(cal, pid, q) == n {
      if n == name {
        assert p in now;
      } else {
        assert n in listing;
        var q :| q in seen && NameOr(cal, pid, q) == n;
        assert q in now;
      }
    }
    assert forall n | n in listing :: n in more;
  }

  lemma {:induction false} ShowsLists(cal: Calendar, pid: nat, listing: seq<string>, files: map<string, string>,
                                      disk: Disk, order: seq<nat>)
    requires Shows(cal, pid, listing, files, disk) && SameFiles(disk, order)
    ensures Lists(listing, Names(cal, pid, order), |order|)
  {
    hide NameOr;
    var names := Names(cal, pid, order);
    forall n | n in listing ensures exists k :: 0 <= k < |order| && names[k] == n {
      var p :| p in disk && NameOr(cal, pid, p) == n;
      assert p in order;
      var k :| 0 <= k < |order| && order[k] == p;
    }
    forall k | 0 <= k < |order| ensures names[k] in listing {
      assert order[k] in order;
    }
  }

  // ---------- the worker's files ----------

  /** The files of the worker, by entries. */
  ghost function RunsOf(w: Worker): Runs
    requires w.handled <= |w.accepted|
    reads w
  {
    FilesOf(w.day, w.day0, w.Seen())
  }

  /** No operation on a file fails, and logging to files is on. */
  ghost predicate Works(w: Worker)
    reads w
  {
    w.Valid() && w.Reliable() && w.path.Some?
  }

  /** Files on disk of which only the last one may lack entries, which are in the buffer. */
  ghost predicate Waiting(disk: Disk, order: seq<nat>, kept: seq<Entry>, runs: Runs) {
    && |order| == |runs| && SameFiles(disk, order)
    && (forall i, j | 0 <= i < j < |order| :: order[i] < order[j])
    && (forall k | 0 <= k < |runs| - 1 :: order[k] in disk && disk[order[k]] == FileText(runs[k]))
    && (runs != [] ==>
          var n := |runs| - 1;
          && |kept| <= |runs[n]| && order[n] in disk
          && disk[order[n]] == FileText(runs[n][..|runs[n]| - |kept|]))
  }

  /** What a poll of such files meets. */
  function Ends(kept: seq<Entry>, runs: Runs): Sight
    requires runs != [] && |kept| <= |runs[|runs| - 1]|
  {
    Sight(|runs|, |runs[|runs| - 1]| - |kept|)
  }

  /** Whenever the worker waits for a command, its files are what a poll at record ends can meet. */
  lemma {:induction false} WaitingFiles(w: Worker)
    requires Works(w)
    ensures Waiting(w.disk, w.order, w.kept, RunsOf(w)) && forall p | p in w.disk :: p <= w.clock
  {
    hide FileText, FilesOf, CacheAfter, Entries, Events, Growing, Durable, SignalsKept, FiledKept, FlushIds, Written,
         Sourced, OneDay;
    var runs := RunsOf(w);
    FilesKeepAll(w.day, w.day0, w.Seen());
    if runs != [] { BufferIsTail(w.disk, w.order, w.file, runs, w.kept); }
  }

  /** Entries were added, to the last file only one. */
  ghost predicate OneMore(runs: Runs, more: Runs) {
    RunsGrow(runs, more) && (|more| == |runs| ==> |runs| > 0 && |more[|runs| - 1]| == |runs[|runs| - 1]| + 1)
  }

  lemma {:induction false} AddGrows(runs: Runs, x: Entry)
    ensures runs != [] ==> OneMore(runs, AddToLast(runs, x))
    ensures OneMore(runs, AddToLast(runs + [[]], x))
  {
    if runs != [] {
      var n := |runs| - 1;
      assert forall k | 0 <= k < n :: AddToLast(runs, x)[k] == runs[k];
      assert AddToLast(runs, x)[n] == runs[n] + [x];
    }
    assert forall k | 0 <= k < |runs| :: AddToLast(runs + [[]], x)[k] == runs[k];
  }

  /** The files after one more entry: it is the last one's, or it is alone in a new file. */
  lemma {:induction false} FilesGrow(day: Days, day0: Date, es: seq<Entry>, x: Entry)
    ensures OneMore(FilesOf(day, day0, es), FilesOf(day, day0, es + [x]))
  {
    hide FilesOf, AddToLast, OneMore, LastDay;
    var runs := FilesOf(day, day0, es);
    FilesMore(day, day0, es, x);
    AddGrows(runs, x);
    if runs == [] {
      FirstGrows(Ready(day, day0, es, DayOf(day, x)), x);
    }
  }

  lemma {:induction false} FirstGrows(runs: Runs, x: Entry)
    requires runs != []
    ensures OneMore([], AddToLast(runs, x))
  {
  }

  /** The worker's files before and after a command. */
  lemma {:induction false} CommandGrows(stamp: Stamper, day: Days, day0: Date, before: seq<Cmd>, cmd: Cmd)
    ensures var runs := FilesOf(day, day0, Entries(stamp, Events(before)));
            var more := FilesOf(day, day0, Entries(stamp, Events(before + [cmd])));
            if cmd.Flush? then more == runs else OneMore(runs, more)
  {
    hide FilesOf, Entries, Events, OneMore;
    CmdMore(before, cmd);
    if cmd.Log? {
      var es := Events(before);
      EntriesMore(stamp, es, cmd.event);
      FilesGrow(day, day0, Entries(stamp, es), Entry(CacheAfter(stamp, es + [cmd.event]).datetime, cmd.event));
    }
  }

  lemma {:induction false} SeenIsDated(cal: Calendar, w: Worker, all: seq<Cmd>)
    requires w.handled <= |w.accepted| && w.stamp == Stamps(cal)
    requires w.accepted <= all && Printable(cal, Events(all))
    ensures Flatten(RunsOf(w)) == w.Seen() && AllDated(w.Seen())
  {
    hide FilesOf, Flatten, FourDigitYear, Stamps, Dated;
    var some := Events(w.accepted[..w.handled]);
    FilesKeepAll(w.day, w.day0, w.Seen());
    assert w.accepted[..w.handled] == all[..w.handled];
    EventsMonotone(all, w.handled);
    assert forall i | 0 <= i < |some| :: some[i] == Events(all)[i];
    EntriesDated(cal, some);
    forall i | 0 <= i < |w.Seen()| ensures Dated(w.Seen()[i]) {
      assert w.Seen()[i] in w.Seen();
    }
  }

  // ---------- both together ----------

  /** The tracer has met what these polls of the worker's files could show it. */
  ghost predicate Watching(u: CharTables, source: Source, names: seq<string>, kept: seq<Entry>, runs: Runs,
                           sights: seq<Sight>)
    reads source
  {
    Tracing(u, source, names, runs, sights) && (sights != [] ==> UpTo(sights[|sights| - 1], kept, runs))
  }

  /** A poll met no more than is out of the buffer now. */
  ghost predicate UpTo(s: Sight, kept: seq<Entry>, runs: Runs) {
    s.files == |runs| > 0 ==> s.entries + |kept| <= |runs[|runs| - 1]|
  }

  lemma {:induction false} UpToMore(s: Sight, cmd: Cmd, kept: seq<Entry>, runs: Runs, kept': seq<Entry>, runs': Runs)
    requires UpTo(s, kept, runs) && Meets(s, runs)
    requires if cmd.Flush? then runs' == runs else OneMore(runs, runs')
    requires if cmd.Log? then |kept'| <= |kept| + 1 else kept' == []
    ensures UpTo(s, kept', runs')
  {
  }

  lemma {:induction false} NamesGrow(cal: Calendar, pid: nat, order: seq<nat>, more: seq<nat>)
    requires order <= more
    ensures Names(cal, pid, order) <= Names(cal, pid, more)
  {
    hide NameOr;
    assert forall i | 0 <= i < |order| :: order[i] == more[i];
  }

  /** One poll of files that wait. */
  method PollFiles(u: CharTables, cal: Calendar, pid: nat, until: nat, disk: Disk, source: Source,
                   ghost order: seq<nat>, ghost kept: seq<Entry>, ghost runs: Runs, ghost sights: seq<Sight>)
    requires Waiting(disk, order, kept, runs) && Watching(u, source, Names(cal, pid, order), kept, runs, sights)
    requires AllDated(Flatten(runs)) && Dates(cal, until) && disk != map[] && forall p | p in disk :: p < until
    modifies source
    ensures runs != [] && |kept| <= |runs[|runs| - 1]|
    ensures Watching(u, source, Names(cal, pid, order), kept, runs, sights + [Ends(kept, runs)])
  {
    hide EntryStart, FileText, Records, Lines, Met, Flatten, AllDated, Dates, NameOr, Shows, InOrder, Lists, Waiting,
         Tracing, UpTo, Names, Onward, SameFiles;
    PollMeets(cal, pid, until, disk, order, kept, runs);
    PollIsOnward(u, source, Names(cal, pid, order), kept, runs, sights);
    ghost var names, s := Names(cal, pid, order), Ends(kept, runs);
    var listing, files := ReadDirectory(cal, pid, until, disk);
    ShowsLists(cal, pid, listing, files, disk, order);
    ShowsText(cal, pid, listing, files, disk, order[|runs| - 1]);
    Look(u, source, names, runs, sights, listing, (name: string) => if name in files then files[name] else "", s);
    JustPolled(sights, kept, runs);
  }

  lemma {:induction false} JustPolled(sights: seq<Sight>, kept: seq<Entry>, runs: Runs)
    requires runs != [] && |kept| <= |runs[|runs| - 1]|
    ensures var more := sights + [Ends(kept, runs)]; UpTo(more[|more| - 1], kept, runs)
  {
  }

  /** The last file has on disk what the poll meets. */
  ghost predicate LastIs(disk: Disk, order: seq<nat>, runs: Runs, s: Sight) {
    && |order| == |runs| == s.files && Meets(s, runs)
    && order[s.files - 1] in disk && disk[order[s.files - 1]] == FileText(runs[s.files - 1][..s.entries])
  }

  ghost predicate SameFiles(disk: Disk, order: seq<nat>) {
    forall p :: p in order <==> p in disk
  }

  lemma {:induction false} PollMeets(cal: Calendar, pid: nat, until: nat, disk: Disk, order: seq<nat>,
                                     kept: seq<Entry>, runs: Runs)
    requires Waiting(disk, order, kept, runs)
    requires Dates(cal, until) && disk != map[] && forall p | p in disk :: p < until
    ensures runs != [] && |kept| <= |runs[|runs| - 1]| && LastIs(disk, order, runs, Ends(kept, runs))
    ensures InOrder(Names(cal, pid, order)) && SameFiles(disk, order)
  {
    hide FileText, Dates, NameOr, InOrder;
    assert disk.Keys != {};
    var p :| p in disk;
    assert p in order;
    assert forall i | 0 <= i < |order| :: order[i] in order;
    NamesInOrder(cal, pid, until, order);
  }

  lemma {:induction false} PollIsOnward(u: CharTables, source: Source, names: seq<string>, kept: seq<Entry>, runs: Runs,
                                        sights: seq<Sight>)
    requires Watching(u, source, names, kept, runs, sights) && runs != [] && |kept| <= |runs[|runs| - 1]|
    ensures sights != [] ==> Onward(sights[|sights| - 1], Ends(kept, runs))
  {
    hide Records, Lines, FileText, Met, EntryStart;
    if sights != [] { assert Meets(sights[|sights| - 1], runs); }
  }

  lemma {:induction false} ShowsText(cal: Calendar, pid: nat, listing: seq<string>, files: map<string, string>,
                                     disk: Disk, p: nat)
    requires Shows(cal, pid, listing, files, disk) && p in disk
    ensures NameOr(cal, pid, p) in files && files[NameOr(cal, pid, p)] == disk[p]
  {
  }

  lemma {:induction false} WatchingGrows(u: CharTables, source: Source, sights: seq<Sight>, cmd: Cmd,
                                         names: seq<string>, kept: seq<Entry>, runs: Runs,
                                         names': seq<string>, kept': seq<Entry>, runs': Runs)
    requires Watching(u, source, names, kept, runs, sights) && names <= names' && |names'| == |runs'|
    requires if cmd.Flush? then runs' == runs else OneMore(runs, runs')
    requires if cmd.Log? then |kept'| <= |kept| + 1 else kept' == []
    ensures Watching(u, source, names', kept', runs', sights)
  {
    hide Met, Records, Lines, FileText, EntryStart;
    TracingGrows(u, source, names, runs, names', runs', sights);
    if sights != [] {
      assert Meets(sights[|sights| - 1], runs);
      UpToMore(sights[|sights| - 1], cmd, kept, runs, kept', runs');
    }
  }

  /** The tracer polls while the worker waits for a command. */
  method PollNow(u: CharTables, cal: Calendar, pid: nat, until: nat, w: Worker, source: Source,
                 ghost sights: seq<Sight>)
    requires Works(w) && Watching(u, source, Names(cal, pid, w.order), w.kept, RunsOf(w), sights)
    requires AllDated(Flatten(RunsOf(w))) && Dates(cal, until) && w.clock < until && w.disk != map[]
    modifies source
    ensures RunsOf(w) != [] && |w.kept| <= |RunsOf(w)[|RunsOf(w)| - 1]|
    ensures Watching(u, source, Names(cal, pid, w.order), w.kept, RunsOf(w), sights + [Ends(w.kept, RunsOf(w))])
  {
    hide FilesOf, Flatten, AllDated, Dates, Names, Waiting, Tracing, UpTo, Worker.Consistent;
    WaitingFiles(w);
    PollFiles(u, cal, pid, until, w.disk, source, w.order, w.kept, RunsOf(w), sights);
  }

  /** The worker takes one command; what the tracer has met stays what it was. */
  method StepBeside(u: CharTables, cal: Calendar, pid: nat, w: Worker, source: Source, ghost sights: seq<Sight>)
    returns (more: bool)
    requires Works(w) && Watching(u, source, Names(cal, pid, w.order), w.kept, RunsOf(w), sights)
    modifies w
    ensures Works(w) && Watching(u, source, Names(cal, pid, w.order), w.kept, RunsOf(w), sights)
    ensures w.accepted + w.arrivals == old(w.accepted + w.arrivals)
    ensures more ==> |w.rx| + |w.arrivals| < old(|w.rx| + |w.arrivals|)
    ensures !more ==> w.rx == [] && w.arrivals == [] && w.buffer == "" && w.handled == |w.accepted|
  {
    hide FilesOf, Names, Waiting, Entries, Events, Tracing, UpTo, OneMore, Worker.Consistent;
    ghost var before, runs, order, kept := w.accepted[..w.handled], RunsOf(w), w.order, w.kept;
    var cmd := w.Recv();
    if cmd.None? {
      assert w.accepted[..w.handled] == before;
      return false;
    }
    w.Step(cmd.value, before);
    assert w.accepted[..w.handled] == before + [cmd.value];
    CommandGrows(w.stamp, w.day, w.day0, before, cmd.value);
    SameNumber(w);
    NamesGrow(cal, pid, order, w.order);
    WatchingGrows(u, source, sights, cmd.value, Names(cal, pid, order), kept, runs,
                  Names(cal, pid, w.order), w.kept, RunsOf(w));
    return true;
  }

  lemma {:induction false} SameNumber(w: Worker)
    requires Works(w)
    ensures |w.order| == |RunsOf(w)|
  {
    WaitingFiles(w);
  }

  /** Any number of polls, as long as years have four digits and there are files. */
  method Polls(u: CharTables, cal: Calendar, pid: nat, until: nat, w: Worker, source: Source, ghost sights: seq<Sight>,
               times: nat)
    returns (ghost more: seq<Sight>)
    requires Works(w) && Watching(u, source, Names(cal, pid, w.order), w.kept, RunsOf(w), sights)
    requires AllDated(Flatten(RunsOf(w))) && Dates(cal, until)
    modifies source
    ensures Watching(u, source, Names(cal, pid, w.order), w.kept, RunsOf(w), more)
    ensures if times > 0 && w.clock < until && w.disk != map[]
            then
              && RunsOf(w) != [] && |w.kept| <= |RunsOf(w)[|RunsOf(w)| - 1]|
              && more != [] && more[|more| - 1] == Ends(w.kept, RunsOf(w))
            else more == sights
  {
    hide FilesOf, Flatten, AllDated, Dates, Names, Tracing, UpTo, Worker.Consistent;
    more := sights;
    if w.clock < until && w.disk != map[] {
      for i := 0 to times
        invariant Watching(u, source, Names(cal, pid, w.order), w.kept, RunsOf(w), more)
        invariant i == 0 ==> more == sights
        invariant i > 0 ==>
                    && RunsOf(w) != [] && |w.kept| <= |RunsOf(w)[|RunsOf(w)| - 1]|
                    && more != [] && more[|more| - 1] == Ends(w.kept, RunsOf(w))
      {
        PollNow(u, cal, pid, until, w, source, more);
        more := more + [Ends(w.kept, RunsOf(w))];
      }
    }
  }

  /**
   * The whole pipeline. The worker handles all its commands, the tracer polls its files whenever
   * it likes while the worker waits, and once more at the end. It has then sent one record for
   * each entry that its polls met, in order and as printed, if and only if these are all clean;
   * `NothingMissed` says when these are the entries of all events.
   */
  method WorkerThenTracer(u: CharTables, cal: Calendar, pid: nat, until: nat, w: Worker)
    returns (records: seq<string>, ghost sights: seq<Sight>)
    requires Works(w) && w.stamp == Stamps(cal) && w.day == DaysOf(cal) && Dates(cal, until)
    requires Printable(cal, Events(w.accepted + w.arrivals))
    modifies w
    ensures Works(w) && w.rx == [] && w.arrivals == [] && w.handled == |w.accepted|
    ensures w.accepted == old(w.accepted + w.arrivals)
    ensures Watch(sights, RunsOf(w)) && Flatten(RunsOf(w)) == w.Seen()
    ensures var es := Met(RunsOf(w), sights);
            records == Bodies(es) <==> AllClean(EntryPattern(u), es)
    ensures w.clock < until && RunsOf(w) != [] ==> sights != [] && Complete(sights[|sights| - 1], RunsOf(w))
  {
    hide FilesOf, Flatten, AllDated, Dates, Names, Tracing, UpTo, Printable, EntryStart, Clean, AllClean, Bodies, Met,
         Entries, Events, Worker.Consistent;
    ghost var all := w.accepted + w.arrivals;
    SameNumber(w);
    var source := NewTracer(u, Names(cal, pid, w.order), RunsOf(w));
    sights := [];
    var more := true;
    while more
      invariant Works(w) && fresh(source) && w.accepted + w.arrivals == all
      invariant Watching(u, source, Names(cal, pid, w.order), w.kept, RunsOf(w), sights)
      invariant !more ==> w.rx == [] && w.arrivals == [] && w.buffer == "" && w.handled == |w.accepted|
      decreases |w.rx| + |w.arrivals|, more
    {
      var times: nat := *;
      SeenIsDated(cal, w, all);
      sights := Polls(u, cal, pid, until, w, source, sights, times);
      more := StepBeside(u, cal, pid, w, source, sights);
    }
    SeenIsDated(cal, w, all);
    sights := Polls(u, cal, pid, until, w, source, sights, 1);
    SentOf(u, source, Names(cal, pid, w.order), w.kept, RunsOf(w), sights);
    AtTheEnd(w);
    return source.sent, sights;
  }

  predicate Complete(s: Sight, runs: Runs) {
    s.files == |runs| > 0 && s.entries == |runs[|runs| - 1]|
  }

  lemma {:induction false} AtTheEnd(w: Worker)
    requires Works(w) && w.buffer == ""
    ensures w.kept == [] && (RunsOf(w) != [] ==> w.disk != map[])
  {
    hide FilesOf;
    WaitingFiles(w);
  }

  lemma {:induction false} SentOf(u: CharTables, source: Source, names: seq<string>, kept: seq<Entry>, runs: Runs,
                                  sights: seq<Sight>)
    requires Watching(u, source, names, kept, runs, sights) && AllDated(Flatten(runs))
    ensures Watch(sights, runs)
    ensures source.sent == Bodies(Met(runs, sights)) <==> AllClean(EntryPattern(u), Met(runs, sights))
  {
    SentIsPrinted(u, source, names, runs, sights);
  }
}
