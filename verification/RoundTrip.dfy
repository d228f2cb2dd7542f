/**
 * Printing then tracing. The tracer's records over the lines of a log file are the printed
 * records exactly when no event text holds a line that the tracer would alter or start anew.
 */
module RoundTrip {
  import opened Basics
  import opened PatternSearch
  import opened LogFormat
  import opened LineGrouping

  /** An event as it was printed: with the timestamp text that went before it. */
  datatype Entry = Entry(datetime: string, event: Event)

  function FileText(entries: seq<Entry>): string {
    if entries == [] then "" else Record(entries[0].datetime, entries[0].event) + FileText(entries[1..])
  }

  function Bodies(entries: seq<Entry>): (r: seq<string>)
    ensures |r| == |entries|
  {
    if entries == [] then [] else [Body(entries[0].datetime, entries[0].event)] + Bodies(entries[1..])
  }

  /** The timestamp text is that of a second with a four-digit year. */
  ghost predicate Dated(x: Entry) {
    exists c: Civil :: FourDigitYear(c) && x.datetime == Stamp(c)
  }

  /** The lines of spans and message together. */
  function TextLines(e: Event): seq<string> {
    Split(Text(e) + "\n", "\n")
  }

  ghost predicate NoNewline(s: string) {
    forall j | 0 <= j < |s| :: s[j] != '\n'
  }

  predicate NoReturn(line: string) {
    line == "" || line[|line| - 1] != '\r'
  }

  /** No line of the text ends in `\r`, and none below the first looks like the start of an entry. */
  predicate Clean(start: Pattern, e: Event) {
    var ls := TextLines(e);
    && (forall i | 0 <= i < |ls| :: NoReturn(ls[i]))
    && (forall i | 1 <= i < |ls| :: !start(ls[i]))
  }

  function EntryPattern(u: CharTables): Pattern {
    s => EntryStart(u, s)
  }

  // ---------- splitting a file into the lines of its records ----------

  lemma {:induction false} NewlineAt(s: string, j: nat)
    ensures MatchAt(s, "\n", j) <==> j < |s| && s[j] == '\n'
  {
  }

  lemma {:induction false} FindNewline(s: string)
    ensures var f := Find(s, "\n", 0);
            if f.Some? then f.value < |s| && s[f.value] == '\n' && forall j | 0 <= j < f.value :: s[j] != '\n'
            else forall j | 0 <= j < |s| :: s[j] != '\n'
  {
    FindIsFirst(s, "\n", 0);
    forall j: nat ensures MatchAt(s, "\n", j) <==> j < |s| && s[j] == '\n' {
      NewlineAt(s, j);
    }
  }

  lemma {:induction false} FirstNewline(s: string, i: nat)
    requires i < |s| && s[i] == '\n' && forall j | 0 <= j < i :: s[j] != '\n'
    ensures Find(s, "\n", 0) == Some(i)
  {
    FindNewline(s);
  }

  lemma {:induction false} SplitFirst(s: string, i: nat)
    requires i < |s| && s[i] == '\n' && forall j | 0 <= j < i :: s[j] != '\n'
    ensures Split(s, "\n") == [s[..i]] + Split(s[i + 1..], "\n")
  {
    FirstNewline(s, i);
  }

  /** A line end inside the text separates the splitting of what is before it and after it. */
  lemma {:induction false} SplitAppend(a: string, b: string)
    requires a != "" && a[|a| - 1] == '\n'
    ensures Split(a + b, "\n") == Split(a, "\n") + Split(b, "\n")
    decreases |a|
  {
    hide Split, Find;
    FindNewline(a);
    var i := Find(a, "\n", 0).value;
    SplitFirst(a, i);
    SplitFirst(a + b, i);
    SplitEmpty("", "\n");
    assert (a + b)[..i] == a[..i] && (a + b)[i + 1..] == a[i + 1..] + b;
    if i + 1 == |a| {
      assert a[i + 1..] == "" && "" + b == b;
    } else {
      SplitAppend(a[i + 1..], b);
      Regroup([a[..i]], Split(a[i + 1..], "\n"), Split(b, "\n"));
    }
  }

  /** Text put before the first line only lengthens the first line. */
  lemma {:induction false} SplitHeaded(h: string, s: string)
    requires NoNewline(h)
    requires s != "" && s[|s| - 1] == '\n'
    ensures Split(s, "\n") != [] && Split(h + s, "\n") == [h + Split(s, "\n")[0]] + Split(s, "\n")[1..]
  {
    FindNewline(s);
    var i := Find(s, "\n", 0).value;
    FirstNewline(h + s, |h| + i);
    assert (h + s)[..|h| + i] == h + s[..i];
    assert (h + s)[|h| + i + 1..] == s[i + 1..];
  }

  lemma {:induction false} SplitHasNoNewline(s: string)
    ensures forall k | 0 <= k < |Split(s, "\n")| :: NoNewline(Split(s, "\n")[k])
    decreases |s|
  {
    if s != "" {
      FindNewline(s);
      SplitHasNoNewline(s[Until(s, "\n", true).used..]);
    }
  }

  /** The lines of one printed record. */
  function BlockLines(x: Entry): seq<string> {
    Split(Record(x.datetime, x.event), "\n")
  }

  function Blocks(entries: seq<Entry>): (r: seq<seq<string>>)
    ensures |r| == |entries| && forall i | 0 <= i < |entries| :: r[i] == TrimAll(BlockLines(entries[i]))
  {
    if entries == [] then [] else [TrimAll(BlockLines(entries[0]))] + Blocks(entries[1..])
  }

  lemma {:induction false} TrimAllAppend(a: seq<string>, b: seq<string>)
    ensures TrimAll(a + b) == TrimAll(a) + TrimAll(b)
  {
  }

  lemma {:induction false} LinesOfFile(entries: seq<Entry>)
    ensures Lines(FileText(entries)) == Flatten(Blocks(entries))
  {
    if entries != [] {
      var r := Record(entries[0].datetime, entries[0].event);
      assert r[|r| - 1] == '\n';
      SplitAppend(r, FileText(entries[1..]));
      TrimAllAppend(Split(r, "\n"), Split(FileText(entries[1..]), "\n"));
      LinesOfFile(entries[1..]);
    }
  }

  /** The lines of a record rebuild its body. */
  lemma {:induction false} BodyIsJoin(x: Entry)
    ensures BlockLines(x) != [] && Join(BlockLines(x), "\n") == Body(x.datetime, x.event)
  {
    var b := Body(x.datetime, x.event);
    var r := Record(x.datetime, x.event);
    assert r == b + "\n" && r[|r| - 1] == '\n';
    JoinSplit(r, "\n");
    TerminatedSingle(r, '\n');
    assert Trailing(r, "\n") == "\n";
    var j := Join(BlockLines(x), "\n");
    assert j == (j + "\n")[..|j|] == (b + "\n")[..|b|] == b;
    SplitEmpty(r, "\n");
  }

  // ---------- trimming ----------

  /** A header ends in a space, which trimming keeps. */
  lemma {:induction false} TrimHeaded(h: string, line: string)
    requires h != "" && h[|h| - 1] == ' '
    ensures Trim(h + line) == h + Trim(line)
  {
    var n := |line|;
    if n > 0 && (line[n - 1] == '\r' || line[n - 1] == '\n') {
      assert (h + line)[..|h + line| - 1] == h + line[..n - 1];
      TrimHeaded(h, line[..n - 1]);
    } else if n == 0 {
      assert h + line == h;
    } else {
      assert (h + line)[|h + line| - 1] == line[n - 1];
    }
  }

  /** Trimming never lengthens the joined lines, and keeps their length only by changing no line. */
  lemma {:induction false} TrimShortens(lines: seq<string>)
    ensures |Join(TrimAll(lines), "\n")| <= |Join(lines, "\n")|
    ensures |Join(TrimAll(lines), "\n")| == |Join(lines, "\n")| ==> TrimAll(lines) == lines
  {
    if |lines| > 0 {
      TrimShortens(lines[1..]);
      assert TrimAll(lines)[1..] == TrimAll(lines[1..]);
      assert |Trim(lines[0])| == |lines[0]| ==> Trim(lines[0]) == lines[0];
    }
  }

  // ---------- grouping blocks ----------

  /** A block starts an entry with its first line and with no other. */
  predicate Single(start: Pattern, block: seq<string>) {
    block != [] && start(block[0]) && forall k | 1 <= k < |block| :: !start(block[k])
  }

  function Starts(start: Pattern, lines: seq<string>): nat {
    if lines == [] then 0 else (if start(lines[0]) then 1 else 0) + Starts(start, lines[1..])
  }

  lemma {:induction false} StartsAppend(start: Pattern, a: seq<string>, b: seq<string>)
    ensures Starts(start, a + b) == Starts(start, a) + Starts(start, b)
  {
    if a == [] {
      assert a + b == b;
    } else {
      assert (a + b)[1..] == a[1..] + b;
      StartsAppend(start, a[1..], b);
    }
  }

  lemma {:induction false} NoStarts(start: Pattern, lines: seq<string>)
    ensures Starts(start, lines) == 0 <==> forall k | 0 <= k < |lines| :: !start(lines[k])
  {
    if lines != [] {
      NoStarts(start, lines[1..]);
      assert forall k | 1 <= k < |lines| :: lines[k] == lines[1..][k - 1];
    }
  }

  /** As many groups as matching lines, when the first line matches. */
  lemma {:induction false} GroupsCount(start: Pattern, lines: seq<string>)
    requires lines != [] ==> start(lines[0])
    ensures |Groups(start, lines)| == Starts(start, lines)
    decreases |lines|
  {
    if lines != [] {
      var rest := lines[1..];
      var n := Run(start, rest);
      var run, more := rest[..n], rest[n..];
      assert rest == run + more;
      assert more != [] ==> start(more[0]);
      GroupsCount(start, more);
      NoStarts(start, run);
      StartsAppend(start, run, more);
      FirstGroupCounts(start, lines, more);
    }
  }

  lemma {:induction false} FirstGroupCounts(start: Pattern, lines: seq<string>, more: seq<string>)
    requires lines != [] && more == lines[1..][Run(start, lines[1..])..]
    ensures |Groups(start, lines)| == 1 + |Groups(start, more)|
  {
  }

  /** The run of continuation lines of a single block ends where the next block starts. */
  lemma {:induction false} RunOfBlock(start: Pattern, tail: seq<string>, more: seq<string>)
    requires forall k | 0 <= k < |tail| :: !start(tail[k])
    requires more != [] ==> start(more[0])
    ensures Run(start, tail + more) == |tail|
  {
    if tail == [] {
      assert tail + more == more;
    } else {
      assert (tail + more)[1..] == tail[1..] + more;
      RunOfBlock(start, tail[1..], more);
    }
  }

  ghost predicate AllSingle(start: Pattern, blocks: seq<seq<string>>) {
    forall i | 0 <= i < |blocks| :: Single(start, blocks[i])
  }

  ghost predicate AllStarted(start: Pattern, blocks: seq<seq<string>>) {
    forall i | 0 <= i < |blocks| :: blocks[i] != [] && start(blocks[i][0])
  }

  /** A single block in front of more blocks is the first group. */
  lemma {:induction false} BlockIsGroup(start: Pattern, block: seq<string>, more: seq<string>)
    requires Single(start, block) && (more != [] ==> start(more[0]))
    ensures Groups(start, block + more) == [block] + Groups(start, more)
  {
    var lines := block + more;
    var tail := block[1..];
    assert lines[1..] == tail + more;
    RunOfBlock(start, tail, more);
    FirstGroup(start, lines);
    assert (tail + more)[..|tail|] == tail && (tail + more)[|tail|..] == more;
    assert [lines[0]] + tail == block;
  }

  lemma {:induction false} GroupsOfBlocks(start: Pattern, blocks: seq<seq<string>>)
    requires AllSingle(start, blocks)
    ensures Groups(start, Flatten(blocks)) == blocks
  {
    if blocks != [] {
      var rest := blocks[1..];
      assert rest != [] ==> rest[0] == blocks[1] && Flatten(rest)[0] == rest[0][0];
      GroupsOfBlocks(start, rest);
      BlockIsGroup(start, blocks[0], Flatten(rest));
    }
  }

  /** One start per block at least, and exactly one per block only when every block is single. */
  lemma {:induction false} StartsOfBlocks(start: Pattern, blocks: seq<seq<string>>)
    requires AllStarted(start, blocks)
    ensures Starts(start, Flatten(blocks)) >= |blocks|
    ensures Starts(start, Flatten(blocks)) == |blocks| ==> AllSingle(start, blocks)
  {
    if blocks != [] {
      var b := blocks[0];
      StartsOfBlocks(start, blocks[1..]);
      StartsAppend(start, b, Flatten(blocks[1..]));
      NoStarts(start, b[1..]);
      if Starts(start, Flatten(blocks)) == |blocks| {
        assert forall k | 1 <= k < |b| :: b[k] == b[1..][k - 1];
        forall i | 0 <= i < |blocks| ensures Single(start, blocks[i]) {
          if i > 0 { assert blocks[i] == blocks[1..][i - 1]; }
        }
      }
    }
  }

  lemma {:induction false} RecordsOfBlocks(start: Pattern, blocks: seq<seq<string>>)
    requires !start("") && AllStarted(start, blocks)
    ensures Records(start, "", Flatten(blocks)) == JoinAll(Groups(start, Flatten(blocks)))
    ensures |Records(start, "", Flatten(blocks))| == Starts(start, Flatten(blocks))
  {
    var lines := Flatten(blocks);
    assert lines != [] ==> lines[0] == blocks[0][0];
    RecordsKeepBlanks(start, lines);
    GroupsCount(start, lines);
  }

  // ---------- the theorem ----------

  lemma {:induction false} StampHasNoNewline(c: Civil)
    requires FourDigitYear(c)
    ensures forall i | 0 <= i < |Stamp(c)| :: Stamp(c)[i] != '\n'
  {
    StampParts(c);
    var s := Stamp(c);
    forall i | 0 <= i < |s| ensures s[i] != '\n' {
      assert i == 0 || i == 1 || i == 2 || i == 3 || (4 <= i < 20);
    }
  }

  lemma {:induction false} LevelHasNoNewline(l: Level)
    ensures NoNewline(LevelText(l))
  {
  }

  lemma {:induction false} HeaderHasNoNewline(x: Entry)
    requires Dated(x)
    ensures var h := Header(x.datetime, x.event.level);
            h != "" && h[|h| - 1] == ' ' && NoNewline(h)
  {
    hide Stamp, LevelText, FourDigitYear;
    var c: Civil :| FourDigitYear(c) && x.datetime == Stamp(c);
    StampHasNoNewline(c);
    LevelHasNoNewline(x.event.level);
  }

  /** The lines of a record are those of its text, the first one behind the header. */
  lemma {:induction false} BlockIsText(x: Entry)
    requires Dated(x)
    ensures var h := Header(x.datetime, x.event.level);
            && TextLines(x.event) != []
            && BlockLines(x) == [h + TextLines(x.event)[0]] + TextLines(x.event)[1..]
  {
    var h := Header(x.datetime, x.event.level);
    HeaderHasNoNewline(x);
    Regroup(h, Text(x.event), "\n");
    SplitHeaded(h, Text(x.event) + "\n");
  }

  lemma {:induction false} BlockStarts(u: CharTables, x: Entry)
    requires Dated(x)
    ensures var b := TrimAll(BlockLines(x)); b != [] && EntryPattern(u)(b[0])
  {
    var c: Civil :| FourDigitYear(c) && x.datetime == Stamp(c);
    var h := Header(x.datetime, x.event.level);
    var t := TextLines(x.event);
    BlockIsText(x);
    HeaderHasNoNewline(x);
    TrimHeaded(h, t[0]);
    HeaderStartsEntry(u, c, x.event.level, Trim(t[0]));
    assert TrimAll(BlockLines(x))[0] == Trim(h + t[0]);
  }

  /** Trimming leaves headed lines alone exactly when none of the lines ends in `\r`. */
  lemma {:induction false} TrimmedLines(h: string, t: seq<string>, b: seq<string>)
    requires t != [] && b == [h + t[0]] + t[1..]
    requires h != "" && h[|h| - 1] == ' '
    requires forall k | 0 <= k < |t| :: NoNewline(t[k])
    ensures TrimAll(b) == b <==> forall i | 0 <= i < |t| :: NoReturn(t[i])
  {
  }

  lemma {:induction false} SingleLines(start: Pattern, t: seq<string>, b: seq<string>)
    requires t != [] && |b| == |t| && start(b[0]) && forall i | 1 <= i < |t| :: b[i] == t[i]
    ensures Single(start, b) <==> forall i | 1 <= i < |t| :: !start(t[i])
  {
  }

  /** An event text is clean exactly when trimming leaves its block alone and the block is single. */
  lemma {:induction false} CleanIsSingle(start: Pattern, x: Entry)
    requires Dated(x)
    requires TrimAll(BlockLines(x)) != [] && start(TrimAll(BlockLines(x))[0])
    ensures Clean(start, x.event) <==> TrimAll(BlockLines(x)) == BlockLines(x) && Single(start, BlockLines(x))
  {
    var t := TextLines(x.event);
    var b := BlockLines(x);
    BlockIsText(x);
    HeaderHasNoNewline(x);
    SplitHasNoNewline(Text(x.event) + "\n");
    TrimmedLines(Header(x.datetime, x.event.level), t, b);
    if TrimAll(b) == b {
      SingleLines(start, t, b);
    }
  }

  lemma {:induction false} BodiesAre(entries: seq<Entry>)
    ensures forall i | 0 <= i < |entries| :: Bodies(entries)[i] == Join(BlockLines(entries[i]), "\n")
  {
    hide Body, BlockLines, Join;
    if entries != [] {
      BodyIsJoin(entries[0]);
      BodiesAre(entries[1..]);
    }
  }

  /** What the theorem needs to know about each block, for a pattern that is not taken apart. */
  ghost predicate Fits(start: Pattern, x: Entry, block: seq<string>) {
    && block == TrimAll(BlockLines(x)) && block != [] && start(block[0])
    && (Clean(start, x.event) <==> block == BlockLines(x) && Single(start, BlockLines(x)))
  }

  ghost predicate AllFit(start: Pattern, entries: seq<Entry>, blocks: seq<seq<string>>) {
    |blocks| == |entries| && forall i | 0 <= i < |entries| :: Fits(start, entries[i], blocks[i])
  }

  lemma {:induction false} CleanIsTraced(start: Pattern, entries: seq<Entry>, blocks: seq<seq<string>>)
    requires !start("") && AllFit(start, entries, blocks)
    requires forall i | 0 <= i < |entries| :: Clean(start, entries[i].event)
    ensures Records(start, "", Flatten(blocks)) == Bodies(entries)
  {
    assert AllSingle(start, blocks) by {
      forall i | 0 <= i < |blocks| ensures Single(start, blocks[i]) {
        assert Fits(start, entries[i], blocks[i]);
      }
    }
    assert AllStarted(start, blocks);
    RecordsOfBlocks(start, blocks);
    GroupsOfBlocks(start, blocks);
    BodiesAre(entries);
    forall i | 0 <= i < |entries| ensures JoinAll(blocks)[i] == Bodies(entries)[i] {
      assert Fits(start, entries[i], blocks[i]);
    }
  }

  lemma {:induction false} TracedIsClean(start: Pattern, entries: seq<Entry>, blocks: seq<seq<string>>)
    requires !start("") && AllFit(start, entries, blocks)
    requires Records(start, "", Flatten(blocks)) == Bodies(entries)
    ensures forall i | 0 <= i < |entries| :: Clean(start, entries[i].event)
  {
    forall i | 0 <= i < |blocks| ensures blocks[i] != [] && start(blocks[i][0]) {
      assert Fits(start, entries[i], blocks[i]);
    }
    RecordsOfBlocks(start, blocks);
    StartsOfBlocks(start, blocks);
    GroupsOfBlocks(start, blocks);
    BodiesAre(entries);
    forall i | 0 <= i < |entries| ensures Clean(start, entries[i].event) {
      assert Fits(start, entries[i], blocks[i]);
      TrimShortens(BlockLines(entries[i]));
      assert JoinAll(blocks)[i] == Bodies(entries)[i];
    }
  }

  lemma {:induction false} BlocksFit(u: CharTables, entries: seq<Entry>)
    requires forall i | 0 <= i < |entries| :: Dated(entries[i])
    ensures AllFit(EntryPattern(u), entries, Blocks(entries)) && !EntryPattern(u)("")
  {
    forall i | 0 <= i < |entries| ensures Fits(EntryPattern(u), entries[i], Blocks(entries)[i]) {
      BlockStarts(u, entries[i]);
      CleanIsSingle(EntryPattern(u), entries[i]);
    }
  }

  ghost predicate AllClean(start: Pattern, entries: seq<Entry>) {
    forall i | 0 <= i < |entries| :: Clean(start, entries[i].event)
  }

  lemma {:induction false} TracedExactly(start: Pattern, entries: seq<Entry>, blocks: seq<seq<string>>)
    requires !start("") && AllFit(start, entries, blocks)
    ensures Records(start, "", Flatten(blocks)) == Bodies(entries) <==> AllClean(start, entries)
  {
    if AllClean(start, entries) {
      CleanIsTraced(start, entries, blocks);
    }
    if Records(start, "", Flatten(blocks)) == Bodies(entries) {
      TracedIsClean(start, entries, blocks);
    }
  }

  /**
   * Printing then tracing is the identity exactly on clean events: the records of one poll over
   * the printed file are the printed records without their final line ends if and only if every
   * event is clean.
   */
  lemma {:induction false} PrintThenTrace(u: CharTables, entries: seq<Entry>)
    requires forall i | 0 <= i < |entries| :: Dated(entries[i])
    ensures Records(EntryPattern(u), "", Lines(FileText(entries))) == Bodies(entries)
            <==> AllClean(EntryPattern(u), entries)
  {
    BlocksFit(u, entries);
    LinesOfFile(entries);
    TracedExactly(EntryPattern(u), entries, Blocks(entries));
  }
}
