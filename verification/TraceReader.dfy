/** The tracer's polling loop: `MultiTrace::watch_source`, `flush_buffer` and `FilterEngine`. */
module TraceReader {
  import opened Basics
  import opened PatternSearch
  import opened LineGrouping
  import opened FileNames

  /** Compiled regular expressions are taken as predicates on the text. */
  datatype FilterEngine = FilterEngine(regexes: seq<string -> bool>, kvFilters: seq<(string, string)>) {

    predicate KvMatches(kv: (string, string), text: string) {
      || Contains(text, kv.0 + "=" + kv.1)
      || Contains(text, "\"" + kv.0 + "\":\"" + kv.1 + "\"")
      || Contains(text, "\"" + kv.0 + "\": " + kv.1)
    }

    predicate Matches(text: string) {
      if regexes == [] && kvFilters == [] then true
      else
        && (forall i | 0 <= i < |kvFilters| :: KvMatches(kvFilters[i], text))
        && (forall i | 0 <= i < |regexes| :: regexes[i](text))
    }
  }

  predicate Contains(text: string, part: string) {
    Find(text, part, 0).Some?
  }

  ghost predicate Around(text: string, a: string, part: string, b: string) {
    text == a + part + b
  }

  /** The part stands somewhere in the text. */
  ghost predicate Within(text: string, part: string) {
    exists a, b :: Around(text, a, part, b)
  }

  lemma {:induction false} ContainsIs(text: string, part: string)
    ensures Contains(text, part) <==> Within(text, part)
  {
    FindIsFirst(text, part, 0);
    if Contains(text, part) {
      var i := Find(text, part, 0).value;
      assert text == text[..i] + text[i..i + |part|] + text[i + |part|..];
      assert Around(text, text[..i], part, text[i + |part|..]);
    }
    if a, b :| Around(text, a, part, b) {
      assert text[|a|..|a| + |part|] == part;
      assert MatchAt(text, part, |a|);
    }
  }

  /**
   * What passes: every key has its value somewhere in the text, in one of three spellings, and
   * every expression matches; nothing is asked when there are none.
   */
  lemma {:induction false} MatchesIs(f: FilterEngine, text: string)
    ensures f.Matches(text) <==>
              && (forall i | 0 <= i < |f.kvFilters| ::
                    var (k, v) := f.kvFilters[i];
                    || Within(text, k + "=" + v)
                    || Within(text, "\"" + k + "\":\"" + v + "\"")
                    || Within(text, "\"" + k + "\": " + v))
              && (forall i | 0 <= i < |f.regexes| :: f.regexes[i](text))
  {
    forall i | 0 <= i < |f.kvFilters|
      ensures var (k, v) := f.kvFilters[i];
              f.KvMatches(f.kvFilters[i], text) <==>
                || Within(text, k + "=" + v)
                || Within(text, "\"" + k + "\":\"" + v + "\"")
                || Within(text, "\"" + k + "\": " + v)
    {
      var (k, v) := f.kvFilters[i];
      ContainsIs(text, k + "=" + v);
      ContainsIs(text, "\"" + k + "\":\"" + v + "\"");
      ContainsIs(text, "\"" + k + "\": " + v);
    }
  }

  /** The filters in force when the n-th record is flushed; other tasks may replace them at any time. */
  type FilterHistory = nat -> FilterEngine

  /** The records that pass the filters in force at their flush, the first being flush number `n`. */
  function Passed(filters: FilterHistory, n: nat, records: seq<string>): seq<string>
    decreases |records|
  {
    if records == [] then []
    else (if filters(n).Matches(records[0]) then [records[0]] else []) + Passed(filters, n + 1, records[1..])
  }

  lemma {:induction false} PassedAppend(filters: FilterHistory, n: nat, a: seq<string>, b: seq<string>)
    ensures Passed(filters, n, a + b) == Passed(filters, n, a) + Passed(filters, n + |a|, b)
    decreases |a|
  {
    hide FilterEngine.Matches;
    if a == [] {
      assert a + b == b;
    } else {
      var first := if filters(n).Matches(a[0]) then [a[0]] else [];
      assert (a + b)[1..] == a[1..] + b;
      PassedAppend(filters, n + 1, a[1..], b);
      Regroup(first, Passed(filters, n + 1, a[1..]), Passed(filters, n + |a|, b));
    }
  }

  lemma {:induction false} SentMore(sent: seq<string>, filters: FilterHistory, n: nat, a: seq<string>, b: seq<string>)
    ensures sent + Passed(filters, n, a) + Passed(filters, n + |a|, b) == sent + Passed(filters, n, a + b)
  {
    PassedAppend(filters, n, a, b);
    Regroup(sent, Passed(filters, n, a), Passed(filters, n + |a|, b));
  }

  /**
   * Each record passes on its own: it is sent exactly when the filters in force at its turn match,
   * between what is sent of the records before it and of those after it.
   */
  lemma {:induction false} PassedEach(filters: FilterHistory, n: nat, a: seq<string>, x: string, b: seq<string>)
    ensures Passed(filters, n, a + [x] + b)
            == Passed(filters, n, a) + (if filters(n + |a|).Matches(x) then [x] else [])
               + Passed(filters, n + |a| + 1, b)
    ensures Passed(filters, n, []) == []
  {
    hide FilterEngine.Matches;
    PassedAppend(filters, n, a + [x], b);
    PassedAppend(filters, n, a, [x]);
    assert [x][1..] == [];
  }

  /** Filters with nothing in them pass every record. */
  lemma {:induction false} PassAll(filters: FilterHistory, n: nat, records: seq<string>)
    requires forall k: nat :: filters(k) == FilterEngine([], [])
    ensures Passed(filters, n, records) == records
    decreases |records|
  {
    if records != [] {
      PassAll(filters, n + 1, records[1..]);
    }
  }

  /** Cutting one raw line off the rest of a file cuts one trimmed line off its lines. */
  lemma {:induction false} LinesStep(rest: string)
    ensures var c := Until(rest, "\n", true);
            if c.piece.None? then rest == "" && Lines(rest) == []
            else c.used > 0 && Lines(rest) == [Trim(rest[..c.used])] + Lines(rest[c.used..])
  {
    var c := Until(rest, "\n", true);
    if c.piece.Some? && Find(rest, "\n", 0).Some? {
      var i := Find(rest, "\n", 0).value;
      FindIsFirst(rest, "\n", 0);
      var raw := rest[..i + 1];
      assert rest[i..i + 1] == "\n";
      assert raw[|raw| - 1] == '\n' && raw[..|raw| - 1] == rest[..i];
      assert Trim(raw) == Trim(rest[..i]);
    } else {
      assert rest[..|rest|] == rest;
    }
  }

  /** An open log file and the position the next line is read from. */
  datatype Reader = Reader(name: string, position: nat)

  /** What is left to read from a position. */
  function Ahead(text: string, position: nat): string {
    if position <= |text| then text[position..] else ""
  }

  class Source {
    const start: Pattern          // `entry_start_pattern`
    const onlyNew: bool
    const filters: FilterHistory
    var currentFile: Option<string>
    var reader: Option<Reader>
    var multilineBuf: string
    var sent: seq<string>         // the contents of the records sent to the receiver
    var flushes: nat              // the records flushed so far, sent or filtered out

    constructor (start: Pattern, onlyNew: bool, filters: FilterHistory)
      ensures this.start == start && this.onlyNew == onlyNew && this.filters == filters
      ensures currentFile.None? && reader.None? && multilineBuf == "" && sent == [] && flushes == 0
    {
      this.start, this.onlyNew, this.filters := start, onlyNew, filters;
      currentFile, reader, multilineBuf, sent, flushes := None, None, "", [], 0;
    }

    method FlushBuffer()
      modifies this`multilineBuf, this`sent, this`flushes
      ensures multilineBuf == ""
      ensures sent == old(sent) + Passed(filters, old(flushes), Flushed(old(multilineBuf)))
      ensures flushes == old(flushes) + |Flushed(old(multilineBuf))|
    {
      if multilineBuf == "" { return; }
      assert [multilineBuf][1..] == [];
      if filters(flushes).Matches(multilineBuf) {
        sent := sent + [multilineBuf];
      }
      flushes := flushes + 1;
      multilineBuf := "";
    }

    /** Takes one trimmed line into the buffer. */
    method TakeLine(line: string)
      modifies this`multilineBuf, this`sent, this`flushes
      ensures var done := if start(line) then Flushed(old(multilineBuf)) else [];
              && multilineBuf == (if start(line) then line else Extend(old(multilineBuf), line))
              && sent == old(sent) + Passed(filters, old(flushes), done)
              && flushes == old(flushes) + |done|
    {
      if start(line) {
        FlushBuffer();
        multilineBuf := multilineBuf + line;
      } else if multilineBuf != "" {
        multilineBuf := multilineBuf + "\n";
        multilineBuf := multilineBuf + line;
      } else {
        multilineBuf := multilineBuf + line;
      }
    }

    /** Reads the lines that are there now and flushes what they leave in the buffer. */
    method ReadLines(text: string)
      requires reader.Some? && multilineBuf == ""
      modifies this`reader, this`multilineBuf, this`sent, this`flushes
      ensures multilineBuf == ""
      ensures var from := old(reader.value.position);
              var records := Records(start, "", Lines(Ahead(text, from)));
              && sent == old(sent) + Passed(filters, old(flushes), records)
              && flushes == old(flushes) + |records|
              && reader == Some(Reader(old(reader.value.name), if from <= |text| then |text| else from))
    {
      hide FilterEngine.Matches, Records, Trim, Find, Until, Lines;
      var r := reader.value;
      var rest := Ahead(text, r.position);
      ghost var all := Records(start, "", Lines(rest));
      ghost var goal := sent + Passed(filters, flushes, all);
      while true
        invariant sent + Passed(filters, flushes, Records(start, multilineBuf, Lines(rest))) == goal
        invariant flushes + |Records(start, multilineBuf, Lines(rest))| == old(flushes) + |all|
        decreases |rest|
      {
        var cut := Until(rest, "\n", true);
        LineTaken(start, filters, flushes, sent, multilineBuf, rest, cut);
        if cut.piece.None? { break; }
        TakeLine(Trim(rest[..cut.used]));
        rest := rest[cut.used..];
      }
      SentMore(sent, filters, flushes, Flushed(multilineBuf), []);
      FlushBuffer();
      reader := Some(Reader(r.name, if r.position <= |text| then |text| else r.position));
    }

    /**
     * One round of the loop. `listing` is the directory as it is now, None when it cannot be read;
     * `text` gives the contents behind a name now; `openOk` says whether opening succeeds.
     */
    method Poll(listing: Option<seq<string>>, text: string -> string, openOk: bool)
      requires multilineBuf == ""
      modifies this
      ensures multilineBuf == ""
      ensures var latest := if listing.Some? then Latest(listing.value) else None;
              var switches := latest.Some? && old(currentFile) != latest && openOk;
              var begin := if switches && onlyNew && old(currentFile).None? then |text(latest.value)| else 0;
              var before := if switches then Some(Reader(latest.value, begin)) else old(reader);
              && currentFile == (if switches then latest else old(currentFile))
              && (before.None? ==> reader.None? && sent == old(sent) && flushes == old(flushes))
              && (before.Some? ==>
                    var all := text(before.value.name);
                    var from := before.value.position;
                    var records := Records(start, "", Lines(Ahead(all, from)));
                    && sent == old(sent) + Passed(filters, old(flushes), records)
                    && flushes == old(flushes) + |records|
                    && reader == Some(Reader(before.value.name, if from <= |all| then |all| else from)))
    {
      var latest := if listing.Some? then Latest(listing.value) else None;
      if latest.Some? {
        var isNewFile := currentFile != latest;
        if isNewFile && openOk {
          var position := if onlyNew && currentFile.None? then |text(latest.value)| else 0;
          reader := Some(Reader(latest.value, position));
          currentFile := latest;
          multilineBuf := "";
        }
      }
      if reader.Some? {
        ReadLines(text(reader.value.name));
      }
    }
  }

  /** One line more, seen from the records still to be emitted. */
  lemma {:induction false} RecordsStep(start: Pattern, buf: string, line: string, more: seq<string>)
    ensures Records(start, buf, [line] + more)
            == (if start(line) then Flushed(buf) else [])
               + Records(start, if start(line) then line else Extend(buf, line), more)
  {
  }

  /** What one raw line does to the records still to be emitted and to those already sent. */
  lemma {:induction false} LineTaken(start: Pattern, filters: FilterHistory, n: nat, sent: seq<string>, buf: string,
                                     rest: string, cut: Cut<char>)
    requires cut == Until(rest, "\n", true)
    ensures cut.piece.None? ==> Records(start, buf, Lines(rest)) == Flushed(buf)
    ensures cut.piece.Some? ==>
              var line := Trim(rest[..cut.used]);
              var done := if start(line) then Flushed(buf) else [];
              var more := Records(start, if start(line) then line else Extend(buf, line), Lines(rest[cut.used..]));
              && cut.used > 0
              && |Records(start, buf, Lines(rest))| == |done| + |more|
              && sent + Passed(filters, n, Records(start, buf, Lines(rest)))
                 == sent + Passed(filters, n, done) + Passed(filters, n + |done|, more)
  {
    LinesStep(rest);
    if cut.piece.Some? {
      var line := Trim(rest[..cut.used]);
      var after := if start(line) then line else Extend(buf, line);
      RecordsStep(start, buf, line, Lines(rest[cut.used..]));
      var done := if start(line) then Flushed(buf) else [];
      SentMore(sent, filters, n, done, Records(start, after, Lines(rest[cut.used..])));
    }
  }

  // ---------- several polls ----------

  /** Cutting the lines before a matching line cuts the records there. */
  lemma {:induction false} RecordsAppend(start: Pattern, buf: string, a: seq<string>, b: seq<string>)
    requires b != [] ==> start(b[0])
    ensures Records(start, buf, a + b) == Records(start, buf, a) + Records(start, "", b)
    decreases |a|
  {
    if a == [] {
      assert a + b == b;
      assert b == [] ==> Records(start, "", b) == [];
    } else {
      assert (a + b)[1..] == a[1..] + b;
      RecordsAppend(start, if start(a[0]) then a[0] else Extend(buf, a[0]), a[1..], b);
    }
  }
}
