/** The log pipeline end to end: events, files written by the worker, records read by the tracer. */
module Pipeline {
  import opened Basics
  import opened LogFormat
  import opened LineGrouping
  import opened RoundTrip
  import opened LogFiles
  import opened TraceReader

  function DaysOf(cal: Calendar): Days {
    seconds => DateOf(cal(seconds))
  }

  /** Entries of one day are those whose seconds have the same year, month and day. */
  lemma {:induction false} OneDate(cal: Calendar, es: seq<Entry>, d: Date)
    ensures SameDay(DaysOf(cal), es, d) <==>
              forall i | 0 <= i < |es| ::
                var c := cal(es[i].event.seconds); c.year == d.year && c.month == d.month && c.day == d.day
  {
    forall i | 0 <= i < |es| ensures DayOf(DaysOf(cal), es[i]) == DateOf(cal(es[i].event.seconds)) {
    }
  }

  ghost predicate SomeSecond(events: seq<Event>) {
    exists j :: 0 <= j < |events| && events[j].seconds != 0
  }

  lemma {:induction false} StampAt(stamp: Stamper, events: seq<Event>, i: nat)
    requires i < |events| && stamp(events[i].seconds) != ""
    ensures Entries(stamp, events)[i].datetime == stamp(events[i].seconds) <==> SomeSecond(events[..i + 1])
  {
    var first := events[..i + 1];
    EntriesPrefix(stamp, events, i + 1);
    assert Entries(stamp, events)[i] == Entries(stamp, events)[..i + 1][i];
    assert first[..i] == events[..i];
    CacheExact(stamp, first);
  }

  /** The timestamp texts are right for every event exactly when the first is not in second zero. */
  lemma {:induction false} StampsExact(stamp: Stamper, events: seq<Event>)
    requires events != [] && forall i | 0 <= i < |events| :: stamp(events[i].seconds) != ""
    ensures (forall i | 0 <= i < |events| :: Entries(stamp, events)[i].datetime == stamp(events[i].seconds))
            <==> events[0].seconds != 0
  {
    if events[0].seconds != 0 {
      forall i | 0 <= i < |events| ensures Entries(stamp, events)[i].datetime == stamp(events[i].seconds) {
        StampAt(stamp, events, i);
        assert events[..i + 1][0].seconds != 0;
      }
    } else {
      StampAt(stamp, events, 0);
      assert !SomeSecond(events[..1]);
    }
  }

  lemma {:induction false} StampsOf(cal: Calendar, events: seq<Event>)
    ensures forall i | 0 <= i < |events| :: Stamps(cal)(events[i].seconds) != ""
  {
    forall i | 0 <= i < |events| ensures Stamps(cal)(events[i].seconds) != "" {
      StampNotEmpty(cal(events[i].seconds));
    }
  }

  /** The events have four-digit years and do not begin in second zero of the epoch. */
  ghost predicate Printable(cal: Calendar, events: seq<Event>) {
    && (forall i | 0 <= i < |events| :: FourDigitYear(cal(events[i].seconds)))
    && (events != [] ==> events[0].seconds != 0)
  }

  lemma {:induction false} EntriesDated(cal: Calendar, events: seq<Event>)
    requires Printable(cal, events)
    ensures forall x | x in Entries(Stamps(cal), events) :: Dated(x)
  {
    hide Stamp;
    if events != [] {
      StampsOf(cal, events);
      StampsExact(Stamps(cal), events);
      var es := Entries(Stamps(cal), events);
      forall x | x in es ensures Dated(x) {
        var i :| 0 <= i < |es| && es[i] == x;
        assert FourDigitYear(cal(events[i].seconds));
      }
    }
  }

  lemma {:induction false} BodiesAt(es: seq<Entry>)
    ensures forall i | 0 <= i < |es| :: Bodies(es)[i] == Body(es[i].datetime, es[i].event)
  {
    if es != [] {
      BodiesAt(es[1..]);
    }
  }

  lemma {:induction false} InFlatten(runs: Runs, k: nat, i: nat)
    requires k < |runs| && i < |runs[k]|
    ensures runs[k][i] in Flatten(runs)
  {
    if k > 0 {
      InFlatten(runs[1..], k - 1, i);
    }
  }

  /**
   * Polls at record ends: when a poll sees the first records of a file and a later poll the
   * records written since, together they emit what one poll over the whole file emits.
   */
  lemma {:induction false} PollsCompose(u: CharTables, a: seq<Entry>, b: seq<Entry>)
    requires forall x | x in b :: Dated(x)
    ensures FileText(a + b) == FileText(a) + FileText(b)
    ensures var start := EntryPattern(u);
            Records(start, "", Lines(FileText(a + b)))
            == Records(start, "", Lines(FileText(a))) + Records(start, "", Lines(FileText(b)))
  {
    hide EntryStart;
    FileTextAppend(a, b);
    LinesCompose(a, b);
    if b != [] {
      BlockStarts(u, b[0]);
      FirstLine(b);
    } else {
      LinesOfFile(b);
    }
    RecordsAppend(EntryPattern(u), "", Lines(FileText(a)), Lines(FileText(b)));
  }

  lemma {:induction false} LinesCompose(a: seq<Entry>, b: seq<Entry>)
    ensures Lines(FileText(a + b)) == Lines(FileText(a)) + Lines(FileText(b))
  {
    LinesOfFile(a + b);
    LinesOfFile(a);
    LinesOfFile(b);
    BlocksAppend(a, b);
    FlattenAppend(Blocks(a), Blocks(b));
  }

  lemma {:induction false} FirstLine(b: seq<Entry>)
    requires b != [] && TrimAll(BlockLines(b[0])) != []
    ensures Lines(FileText(b)) != [] && Lines(FileText(b))[0] == TrimAll(BlockLines(b[0]))[0]
  {
    LinesOfFile(b);
    assert Blocks(b)[0] == TrimAll(BlockLines(b[0]));
  }

  lemma {:induction false} BlocksAppend(a: seq<Entry>, b: seq<Entry>)
    ensures Blocks(a + b) == Blocks(a) + Blocks(b)
  {
  }

  ghost predicate AllDated(es: seq<Entry>) {
    forall i | 0 <= i < |es| :: Dated(es[i])
  }

  /** The records of the files, each of them read whole. */
  function Traced(u: CharTables, runs: Runs): seq<string> {
    if runs == [] then []
    else Records(EntryPattern(u), "", Lines(FileText(runs[0]))) + Traced(u, runs[1..])
  }

  lemma {:induction false} TracedFiles(u: CharTables, runs: Runs)
    requires AllDated(Flatten(runs))
    ensures Traced(u, runs) == Records(EntryPattern(u), "", Lines(FileText(Flatten(runs))))
  {
    hide EntryStart, Dated;
    if runs != [] {
      var rest := Flatten(runs[1..]);
      var all := runs[0] + rest;
      forall i | 0 <= i < |rest| ensures Dated(rest[i]) { assert rest[i] == all[|runs[0]| + i]; }
      TracedFiles(u, runs[1..]);
      PollsCompose(u, runs[0], rest);
    } else {
      assert Lines("") == [];
    }
  }

  /**
   * From events to records: printed into however many daily files, events with a four-digit year
   * come back as one record each, in order and with their own timestamps, if and only if they are
   * all clean.
   */
  lemma {:induction false} EventsToRecords(u: CharTables, cal: Calendar, day0: Date, events: seq<Event>)
    requires Printable(cal, events)
    ensures var es := Entries(Stamps(cal), events);
            && (Traced(u, FilesOf(DaysOf(cal), day0, es)) == Bodies(es) <==> AllClean(EntryPattern(u), es))
            && forall i | 0 <= i < |events| :: Bodies(es)[i] == Body(Stamp(cal(events[i].seconds)), events[i])
  {
    hide EntryStart, Stamp, Clean, FilesOf, Dated, DaysOf;
    var es := Entries(Stamps(cal), events);
    EntriesDated(cal, events);
    FilesKeepAll(DaysOf(cal), day0, es);
    TracedFiles(u, FilesOf(DaysOf(cal), day0, es));
    PrintThenTrace(u, es);
    BodiesOwn(cal, events);
  }

  /**
   * Printed texts carry the timestamps of their own events, then the level in five characters, the
   * spans and the message.
   */
  lemma {:induction false} BodiesOwn(cal: Calendar, events: seq<Event>)
    requires Printable(cal, events)
    ensures var es := Entries(Stamps(cal), events);
            forall i | 0 <= i < |events| :: Bodies(es)[i] == Body(Stamp(cal(events[i].seconds)), events[i])
    ensures var es := Entries(Stamps(cal), events);
            forall i | 0 <= i < |events| ::
              var e := events[i];
              var level := match e.level
                           case ERROR => "ERROR"
                           case WARN => "WARN "
                           case INFO => "INFO "
                           case DEBUG => "DEBUG"
                           case TRACE => "TRACE";
              var spans := if e.spans.Some? then e.spans.value else "";
              Bodies(es)[i] == Stamp(cal(e.seconds)) + " " + level + " " + spans + e.message
  {
    forall i | 0 <= i < |events| { RecordReads(Stamp(cal(events[i].seconds)), events[i]); }
    hide Stamp, Body;
    if events != [] {
      StampsOf(cal, events);
      StampsExact(Stamps(cal), events);
    }
    BodiesAt(Entries(Stamps(cal), events));
  }

  /** Filters with nothing in them. */
  function NoFilters(): FilterHistory {
    (n: nat) => FilterEngine([], [])
  }

  /**
   * A tracer without filters that finds one file in its directory: the records of its first poll
   * are the printed records exactly when the events are clean.
   */
  method TraceFile(u: CharTables, name: string, text: string, ghost entries: seq<Entry>) returns (records: seq<string>)
    requires text == FileText(entries) && forall i | 0 <= i < |entries| :: Dated(entries[i])
    ensures records == Records(EntryPattern(u), "", Lines(text))
    ensures records == Bodies(entries) <==> AllClean(EntryPattern(u), entries)
  {
    hide FilterEngine.Matches, EntryStart, Clean;
    var source := new Source(EntryPattern(u), false, NoFilters());
    source.Poll(Some([name]), (n: string) => text, true);
    assert Ahead(text, 0) == text;
    PassAll(source.filters, 0, Records(EntryPattern(u), "", Lines(text)));
    PrintThenTrace(u, entries);
    return source.sent;
  }
}
