/** How the tracer regroups lines into records: the loop of `watch_source` in `src/trace/mod.rs`. */
module LineGrouping {
  import opened Basics
  import opened PatternSearch

  type Pattern = string -> bool

  /** `trim_end_matches(['\r', '\n'])` */
  function Trim(line: string): (t: string)
    ensures t <= line
    ensures t != "" ==> t[|t| - 1] != '\r' && t[|t| - 1] != '\n'
    ensures forall i | |t| <= i < |line| :: line[i] == '\r' || line[i] == '\n'
  {
    if line != "" && (line[|line| - 1] == '\r' || line[|line| - 1] == '\n') then Trim(line[..|line| - 1])
    else line
  }

  function TrimAll(lines: seq<string>): (r: seq<string>)
    ensures |r| == |lines| && forall i | 0 <= i < |lines| :: r[i] == Trim(lines[i])
  {
    if lines == [] then [] else [Trim(lines[0])] + TrimAll(lines[1..])
  }

  /** The lines that one poll sees in the rest of the file. */
  function Lines(text: string): seq<string> {
    TrimAll(Split(text, "\n"))
  }

  /** One record for a buffer that holds something; flushing an empty buffer does nothing. */
  function Flushed(buf: string): seq<string> {
    if buf == "" then [] else [buf]
  }

  /** The buffer after a line that continues it. */
  function Extend(buf: string, line: string): string {
    if buf == "" then line else buf + "\n" + line
  }

  /** The records a poll emits, in order, from the buffer and the lines still to come. */
  function Records(start: Pattern, buf: string, lines: seq<string>): seq<string>
    decreases |lines|
  {
    if lines == [] then Flushed(buf)
    else if start(lines[0]) then Flushed(buf) + Records(start, lines[0], lines[1..])
    else Records(start, Extend(buf, lines[0]), lines[1..])
  }

  // ---------- the record list, stated without a buffer ----------

  /** How many of the first lines continue the record above them. */
  function Run(start: Pattern, lines: seq<string>): (n: nat)
    ensures n <= |lines| && forall i | 0 <= i < n :: !start(lines[i])
    ensures n < |lines| ==> start(lines[n])
  {
    if lines == [] || start(lines[0]) then 0 else 1 + Run(start, lines[1..])
  }

  /** The lines cut before every line that matches the pattern. */
  function Groups(start: Pattern, lines: seq<string>): seq<seq<string>>
    decreases |lines|
  {
    if lines == [] then []
    else var n := 1 + Run(start, lines[1..]); [lines[..n]] + Groups(start, lines[n..])
  }

  function JoinAll(groups: seq<seq<string>>): (r: seq<string>)
    ensures |r| == |groups| && forall i | 0 <= i < |groups| :: r[i] == Join(groups[i], "\n")
  {
    if groups == [] then [] else [Join(groups[0], "\n")] + JoinAll(groups[1..])
  }

  function DropBlank(lines: seq<string>): seq<string> {
    if lines != [] && lines[0] == "" then DropBlank(lines[1..]) else lines
  }

  /** What a group shows: its lines joined, without the blank ones at its start. */
  function Shown(group: seq<string>): string {
    Join(DropBlank(group), "\n")
  }

  /** The groups that show something. */
  function AllShown(groups: seq<seq<string>>): seq<string> {
    if groups == [] then [] else Flushed(Shown(groups[0])) + AllShown(groups[1..])
  }

  lemma {:induction false} DropBlankMore(held: seq<string>, line: string)
    ensures DropBlank(held + [line])
            == if DropBlank(held) != [] then DropBlank(held) + [line] else DropBlank([line])
    ensures DropBlank(held) != [] ==> DropBlank(held)[0] != ""
  {
    if held != [] && held[0] == "" {
      assert (held + [line])[1..] == held[1..] + [line];
      DropBlankMore(held[1..], line);
    } else if held == [] {
      assert held + [line] == [line];
    }
  }

  /** The buffer always is what the lines held so far show. */
  lemma {:induction false} ExtendShown(held: seq<string>, line: string)
    ensures Extend(Shown(held), line) == Shown(held + [line])
  {
    var kept := DropBlank(held);
    DropBlankMore(held, line);
    if kept != [] {
      JoinAppend(kept, [line], "\n");
    }
  }

  /** Taking a non-matching first line off. */
  lemma {:induction false} RunStep(start: Pattern, lines: seq<string>)
    requires lines != [] && !start(lines[0])
    ensures var n := Run(start, lines[1..]);
            && Run(start, lines) == n + 1
            && lines[..n + 1] == [lines[0]] + lines[1..][..n]
            && lines[n + 1..] == lines[1..][n..]
  {
  }

  /** The first group is the first line and the run below it. */
  lemma {:induction false} FirstGroup(start: Pattern, lines: seq<string>)
    requires lines != []
    ensures var n := Run(start, lines[1..]);
            Groups(start, lines) == [[lines[0]] + lines[1..][..n]] + Groups(start, lines[1..][n..])
  {
    var n := Run(start, lines[1..]);
    assert lines[..n + 1] == [lines[0]] + lines[1..][..n];
    assert lines[n + 1..] == lines[1..][n..];
  }

  /** A buffer that shows the lines `held` emits them with the run of lines that follow. */
  lemma {:induction false} BufferedRun(start: Pattern, held: seq<string>, lines: seq<string>)
    ensures var n := Run(start, lines);
            Records(start, Shown(held), lines)
            == Flushed(Shown(held + lines[..n])) + AllShown(Groups(start, lines[n..]))
    decreases |lines|
  {
    hide Shown;
    if lines == [] {
      assert held + [] == held;
    } else if start(lines[0]) {
      assert held + lines[..0] == held && lines[0..] == lines;
      ShownOne(lines[0]);
      BufferedRun(start, [lines[0]], lines[1..]);
      FirstGroup(start, lines);
    } else {
      var rest := lines[1..];
      var n := Run(start, rest);
      RunStep(start, lines);
      ExtendShown(held, lines[0]);
      BufferedRun(start, held + [lines[0]], rest);
      Regroup(held, [lines[0]], rest[..n]);
    }
  }

  lemma {:induction false} ShownOne(line: string)
    ensures Shown([line]) == line && Shown([]) == ""
  {
    assert [line][1..] == [];
    assert DropBlank([line]) == if line == "" then [] else [line];
  }

  /**
   * For every pattern the buffer algorithm emits the lines cut before every matching line, each
   * group without the blank lines at its start, and no group that is blank altogether.
   */
  lemma {:induction false} RecordsAreGroups(start: Pattern, lines: seq<string>)
    ensures Records(start, "", lines) == AllShown(Groups(start, lines))
  {
    if lines != [] {
      hide Shown;
      ShownOne(lines[0]);
      BufferedRun(start, [lines[0]], lines[1..]);
      FirstGroup(start, lines);
    }
  }

  lemma {:induction false} ShownAll(start: Pattern, groups: seq<seq<string>>)
    requires CutAtStarts(start, groups) && !start("")
    requires groups != [] ==> groups[0][0] != ""
    ensures AllShown(groups) == JoinAll(groups)
  {
    if groups != [] {
      ShownAll(start, groups[1..]);
    }
  }

  /** With a pattern that does not match the empty line, only leading blank lines are dropped. */
  lemma {:induction false} RecordsKeepBlanks(start: Pattern, lines: seq<string>)
    requires !start("")
    ensures Records(start, "", lines) == JoinAll(Groups(start, DropBlank(lines)))
    decreases |lines|
  {
    if lines != [] {
      if lines[0] == "" {
        RecordsKeepBlanks(start, lines[1..]);
      } else {
        RecordsAreGroups(start, lines);
        GroupsAreCuts(start, lines);
        StartsNext(start, lines);
        ShownAll(start, Groups(start, lines));
      }
    }
  }

  /** No group is empty, and the groups are cut exactly before the matching lines. */
  ghost predicate CutAtStarts(start: Pattern, groups: seq<seq<string>>) {
    && (forall i | 0 <= i < |groups| :: groups[i] != [] && forall k | 1 <= k < |groups[i]| :: !start(groups[i][k]))
    && (forall i | 1 <= i < |groups| :: groups[i] != [] && start(groups[i][0]))
  }

  /** Cutting into groups loses nothing, and a group is cut exactly before a matching line. */
  lemma {:induction false} GroupsAreCuts(start: Pattern, lines: seq<string>)
    ensures Flatten(Groups(start, lines)) == lines
    ensures CutAtStarts(start, Groups(start, lines))
  {
    GroupsKeepAll(start, lines);
    GroupsStart(start, lines);
  }

  lemma {:induction false} GroupsKeepAll(start: Pattern, lines: seq<string>)
    ensures Flatten(Groups(start, lines)) == lines
    decreases |lines|
  {
    if lines != [] {
      hide Groups;
      var n := Run(start, lines[1..]);
      FirstGroup(start, lines);
      GroupsKeepAll(start, lines[1..][n..]);
      CutOff(lines, n);
    }
  }

  lemma {:induction false} GroupsStart(start: Pattern, lines: seq<string>)
    ensures CutAtStarts(start, Groups(start, lines))
    decreases |lines|
  {
    if lines != [] {
      hide Groups, CutAtStarts;
      var n := Run(start, lines[1..]);
      var more := lines[1..][n..];
      FirstGroup(start, lines);
      GroupsStart(start, more);
      StartsNext(start, more);
      GroupAdded(start, [lines[0]] + lines[1..][..n], Groups(start, more));
    }
  }

  lemma {:induction false} CutOff(lines: seq<string>, n: nat)
    requires n < |lines|
    ensures [lines[0]] + lines[1..][..n] + lines[1..][n..] == lines
  {
    assert lines[1..][..n] + lines[1..][n..] == lines[1..];
    Regroup([lines[0]], lines[1..][..n], lines[1..][n..]);
  }

  /** The next group starts with the line that the run before it stopped at. */
  lemma {:induction false} StartsNext(start: Pattern, more: seq<string>)
    ensures Groups(start, more) != [] <==> more != []
    ensures more != [] ==> Groups(start, more)[0] != [] && Groups(start, more)[0][0] == more[0]
  {
  }

  lemma {:induction false} GroupAdded(start: Pattern, first: seq<string>, more: seq<seq<string>>)
    requires first != [] && forall k | 1 <= k < |first| :: !start(first[k])
    requires CutAtStarts(start, more) && (more != [] ==> start(more[0][0]))
    ensures CutAtStarts(start, [first] + more)
  {
  }

  lemma {:induction false} JoinOfJoins(groups: seq<seq<string>>)
    requires forall i | 0 <= i < |groups| :: groups[i] != []
    ensures Join(JoinAll(groups), "\n") == Join(Flatten(groups), "\n")
  {
    if groups == [] {
    } else if |groups| == 1 {
      assert Flatten(groups) == groups[0] + [];
      assert groups[0] + [] == groups[0];
    } else {
      JoinOfJoins(groups[1..]);
      assert JoinAll(groups)[1..] == JoinAll(groups[1..]);
      assert groups[1] == groups[1..][0];
      JoinAppend(groups[0], Flatten(groups[1..]), "\n");
    }
  }

  lemma {:induction false} LinesKept(start: Pattern, lines: seq<string>)
    requires !start("")
    ensures Join(Records(start, "", lines), "\n") == Join(DropBlank(lines), "\n")
  {
    var groups := Groups(start, DropBlank(lines));
    RecordsKeepBlanks(start, lines);
    GroupsAreCuts(start, DropBlank(lines));
    JoinOfJoins(groups);
  }

  lemma {:induction false} BlankLineLost(start: Pattern)
    requires start("")
    ensures Join(Records(start, "", ["a", ""]), "\n") != Join(DropBlank(["a", ""]), "\n")
  {
    assert ["a", ""][1..] == [""] && [""][1..] == [];
    assert Records(start, "", ["a", ""]) == Records(start, "a", [""]) == ["a"];
    assert |Join(["a", ""], "\n")| == 2 by { assert Join([""], "\n") == ""; }
  }

  /**
   * Grouping keeps every line: the records of a poll, joined by line ends, are the poll's lines
   * without the leading blank ones, for all lines if and only if the pattern does not match the
   * empty line.
   */
  lemma {:induction false} GroupingKeepsLines(start: Pattern)
    ensures (forall lines :: Join(Records(start, "", lines), "\n") == Join(DropBlank(lines), "\n")) <==> !start("")
  {
    if start("") {
      BlankLineLost(start);
    } else {
      forall lines ensures Join(Records(start, "", lines), "\n") == Join(DropBlank(lines), "\n") {
        LinesKept(start, lines);
      }
    }
  }
}
