/** A tracer that follows the newest of several files while they are written. */
module Following {
  import opened Basics
  import opened LogFormat
  import opened LineGrouping
  import opened RoundTrip
  import opened FileNames
  import opened LogFiles
  import opened TraceReader
  import opened Pipeline

  /** What a poll meets: how many files exist, and how many entries the last of them has. */
  datatype Sight = Sight(files: nat, entries: nat)

  predicate Meets(s: Sight, runs: Runs) {
    1 <= s.files <= |runs| && s.entries <= |runs[s.files - 1]|
  }

  /** From one poll to the next the last file may grow and new ones appear. */
  predicate Onward(s: Sight, t: Sight) {
    t.files > s.files || (t.files == s.files && s.entries <= t.entries)
  }

  ghost predicate Watch(sights: seq<Sight>, runs: Runs) {
    && (forall i | 0 <= i < |sights| :: Meets(sights[i], runs))
    && (forall i | 0 <= i < |sights| - 1 :: Onward(sights[i], sights[i + 1]))
  }

  /** How many entries of the newest file the tracer knows when it makes its last poll. */
  function Known(sights: seq<Sight>): nat
    requires sights != []
  {
    var n := |sights| - 1;
    if n > 0 && sights[n - 1].files == sights[n].files then sights[n - 1].entries else 0
  }

  /** What the last poll finds new. */
  ghost function NewAt(runs: Runs, sights: seq<Sight>): seq<Entry>
    requires sights != [] && Watch(sights, runs)
  {
    var s := sights[|sights| - 1];
    assert |sights| > 1 ==> Onward(sights[|sights| - 2], sights[|sights| - 2 + 1]);
    runs[s.files - 1][Known(sights)..s.entries]
  }

  /** The entries that the polls meet. */
  ghost function Met(runs: Runs, sights: seq<Sight>): seq<Entry>
    requires Watch(sights, runs)
    decreases |sights|
  {
    if sights == [] then [] else Met(runs, sights[..|sights| - 1]) + NewAt(runs, sights)
  }

  // ---------- what is missed ----------

  /** The entries in the files from number `from` on, as far as a poll can see them. */
  function There(runs: Runs, from: nat, s: Sight): seq<Entry>
    requires Meets(s, runs) && from < s.files
  {
    Flatten(runs[from..s.files - 1]) + runs[s.files - 1][..s.entries]
  }

  /** The end of a file and the whole files that no poll meets when newer ones appear. */
  function Gap(runs: Runs, s: Sight, t: Sight): seq<Entry>
    requires Meets(s, runs) && Meets(t, runs) && Onward(s, t)
  {
    if t.files == s.files then [] else runs[s.files - 1][s.entries..] + Flatten(runs[s.files..t.files - 1])
  }

  ghost predicate NoGaps(runs: Runs, sights: seq<Sight>)
    requires Watch(sights, runs)
  {
    forall i | 0 <= i < |sights| - 1 :: Gap(runs, sights[i], sights[i + 1]) == []
  }

  lemma {:induction false} ThereMore(runs: Runs, from: nat, s: Sight, t: Sight)
    requires Meets(s, runs) && Meets(t, runs) && Onward(s, t) && from < s.files
    ensures There(runs, from, t)
            == There(runs, from, s) + Gap(runs, s, t)
               + runs[t.files - 1][if t.files == s.files then s.entries else 0..t.entries]
  {
    hide Flatten;
    var run := runs[s.files - 1];
    if t.files == s.files {
      assert run[..t.entries] == run[..s.entries] + run[s.entries..t.entries];
      assert There(runs, from, s) + [] == There(runs, from, s);
      Regroup(Flatten(runs[from..s.files - 1]), run[..s.entries], run[s.entries..t.entries]);
    } else {
      FlattenBetween(runs, from, s, t.files - 1);
      assert runs[t.files - 1][0..t.entries] == runs[t.files - 1][..t.entries];
    }
  }

  /** The files before number `to`, cut where the poll `s` ended. */
  lemma {:induction false} FlattenBetween(runs: Runs, from: nat, s: Sight, to: nat)
    requires Meets(s, runs) && from < s.files <= to <= |runs|
    ensures Flatten(runs[from..to])
            == There(runs, from, s) + (runs[s.files - 1][s.entries..] + Flatten(runs[s.files..to]))
  {
    hide Flatten;
    var run, between := runs[s.files - 1], runs[s.files..to];
    CutRuns(runs, from, s.files - 1, to);
    FlattenAppend(runs[from..s.files - 1], [run] + between);
    FlattenAppend([run], between);
    FlattenOne(run);
    FourParts(Flatten(runs[from..s.files - 1]), run[..s.entries], run[s.entries..], Flatten(between));
    assert run[..s.entries] + run[s.entries..] == run;
  }

  lemma {:induction false} CutRuns(runs: Runs, from: nat, k: nat, to: nat)
    requires from <= k < to <= |runs|
    ensures runs[from..to] == runs[from..k] + ([runs[k]] + runs[k + 1..to])
  {
    assert runs[from..to] == runs[from..k] + runs[k..to];
    assert runs[k..to] == [runs[k]] + runs[k + 1..to];
  }

  lemma {:induction false} FourParts<T>(a: seq<T>, b: seq<T>, c: seq<T>, d: seq<T>)
    ensures a + ((b + c) + d) == (a + b) + (c + d)
  {
  }

  /**
   * The polls meet all entries from the file that was the newest at the first poll up to where the
   * last poll ends, if and only if there is no gap between any two polls.
   */
  lemma {:induction false} MetIsThere(runs: Runs, sights: seq<Sight>)
    requires sights != [] && Watch(sights, runs)
    ensures var n := |sights| - 1;
            && 0 < sights[0].files <= sights[n].files
            && (Met(runs, sights) == There(runs, sights[0].files - 1, sights[n]) <==> NoGaps(runs, sights))
            && |Met(runs, sights)| <= |There(runs, sights[0].files - 1, sights[n])|
            && (|Met(runs, sights)| == |There(runs, sights[0].files - 1, sights[n])| ==> NoGaps(runs, sights))
    decreases |sights|
  {
    hide Met, There, Gap, NewAt, NoGaps, Watch;
    var n := |sights| - 1;
    var from := sights[0].files - 1;
    if n == 0 {
      FirstMet(runs, sights);
    } else {
      var before := sights[..n];
      LastMet(runs, sights);
      MetIsThere(runs, before);
      ThereNext(runs, from, sights);
      NoGapsLast(runs, sights);
      var gap := Gap(runs, sights[n - 1], sights[n]);
      SameEnds(Met(runs, before), There(runs, from, sights[n - 1]), gap, NewAt(runs, sights));
    }
  }

  lemma {:induction false} FirstMet(runs: Runs, sights: seq<Sight>)
    requires |sights| == 1 && Watch(sights, runs)
    ensures NoGaps(runs, sights) && 0 < sights[0].files
    ensures Met(runs, sights) == There(runs, sights[0].files - 1, sights[0])
  {
    var from := sights[0].files - 1;
    assert Meets(sights[0], runs);
    assert sights[..0] == [] && runs[from..from] == [];
    assert [] + NewAt(runs, sights) == NewAt(runs, sights);
  }

  lemma {:induction false} SameEnds<T>(m: seq<T>, all: seq<T>, gap: seq<T>, tail: seq<T>)
    requires |m| <= |all|
    ensures |m + tail| <= |all + gap + tail|
    ensures |m + tail| == |all + gap + tail| ==> |m| == |all| && gap == []
    ensures m + tail == all + gap + tail <==> m == all && gap == []
  {
    if m + tail == all + gap + tail {
      assert |gap| == 0 && |m| == |all|;
      assert (m + tail)[..|m|] == m && (all + gap + tail)[..|m|] == all;
    }
    if gap == [] { assert all + gap == all; }
  }

  lemma {:induction false} ThereNext(runs: Runs, from: nat, sights: seq<Sight>)
    requires |sights| > 1 && Watch(sights, runs) && from < sights[|sights| - 2].files
    ensures var n := |sights| - 1;
            && Meets(sights[n - 1], runs) && Meets(sights[n], runs) && Onward(sights[n - 1], sights[n])
            && There(runs, from, sights[n])
               == There(runs, from, sights[n - 1]) + Gap(runs, sights[n - 1], sights[n]) + NewAt(runs, sights)
  {
    hide There, Gap;
    var n := |sights| - 1;
    assert Onward(sights[n - 1], sights[n - 1 + 1]);
    ThereMore(runs, from, sights[n - 1], sights[n]);
  }

  lemma {:induction false} LastMet(runs: Runs, sights: seq<Sight>)
    requires sights != [] && Watch(sights, runs)
    ensures Watch(sights[..|sights| - 1], runs)
    ensures Met(runs, sights) == Met(runs, sights[..|sights| - 1]) + NewAt(runs, sights)
  {
    var before := sights[..|sights| - 1];
    forall i | 0 <= i < |before| - 1 ensures Onward(before[i], before[i + 1]) {
      assert Onward(sights[i], sights[i + 1]);
    }
  }

  lemma {:induction false} NoGapsLast(runs: Runs, sights: seq<Sight>)
    requires |sights| > 1 && Watch(sights, runs) && Watch(sights[..|sights| - 1], runs)
    ensures var n := |sights| - 1;
            && Onward(sights[n - 1], sights[n])
            && (NoGaps(runs, sights) <==> NoGaps(runs, sights[..n]) && Gap(runs, sights[n - 1], sights[n]) == [])
  {
    hide Gap;
    var n := |sights| - 1;
    var before := sights[..n];
    assert Onward(sights[n - 1], sights[n - 1 + 1]);
    if NoGaps(runs, sights) {
      assert Gap(runs, sights[n - 1], sights[n - 1 + 1]) == [];
      forall i | 0 <= i < |before| - 1 ensures Gap(runs, before[i], before[i + 1]) == [] {
        assert Gap(runs, sights[i], sights[i + 1]) == [];
      }
    }
    if NoGaps(runs, before) && Gap(runs, sights[n - 1], sights[n]) == [] {
      forall i | 0 <= i < |sights| - 1 ensures Gap(runs, sights[i], sights[i + 1]) == [] {
        assert i < n - 1 ==> Gap(runs, before[i], before[i + 1]) == [];
      }
    }
  }

  lemma {:induction false} FlattenFrom(runs: Runs, from: nat)
    requires from < |runs|
    ensures var n := |runs| - 1;
            Flatten(runs[from..n]) + runs[n] == Flatten(runs[from..])
  {
    var n := |runs| - 1;
    assert runs[from..] == runs[from..n] + [runs[n]];
    FlattenAppend(runs[from..n], [runs[n]]);
    FlattenOne(runs[n]);
  }

  /**
   * Nothing is missed: a tracer that was there from the first file on, and polled after the last
   * record, meets every entry if and only if each file was met complete before the next.
   */
  lemma {:induction false} NothingMissed(runs: Runs, sights: seq<Sight>)
    requires sights != [] && Watch(sights, runs)
    requires var s := sights[|sights| - 1]; s.files == |runs| && s.entries == |runs[|runs| - 1]|
    ensures sights[0].files == 1 ==> (Met(runs, sights) == Flatten(runs) <==> NoGaps(runs, sights))
    ensures sights[0].files == |runs| ==> Met(runs, sights) == runs[|runs| - 1]
  {
    hide Met, There, Flatten, NoGaps;
    var n := |sights| - 1;
    MetIsThere(runs, sights);
    ThereAll(runs, sights[0].files - 1, sights[n]);
    if sights[0].files == |runs| { SameFile(runs, sights); }
  }

  lemma {:induction false} ThereAll(runs: Runs, from: nat, s: Sight)
    requires Meets(s, runs) && from < s.files == |runs| && s.entries == |runs[|runs| - 1]|
    ensures There(runs, from, s) == Flatten(runs[from..])
    ensures from == 0 ==> There(runs, from, s) == Flatten(runs)
    ensures from == |runs| - 1 ==> There(runs, from, s) == runs[|runs| - 1]
  {
    hide Flatten;
    var run := runs[|runs| - 1];
    FlattenFrom(runs, from);
    assert run[..|run|] == run && runs[0..] == runs && runs[|runs| - 1..] == [run];
    FlattenOne(run);
  }

  lemma {:induction false} SameFile(runs: Runs, sights: seq<Sight>)
    requires sights != [] && Watch(sights, runs) && sights[0].files == |runs|
    ensures NoGaps(runs, sights)
  {
    forall i | 0 <= i < |sights| ensures sights[i].files == |runs| { FilesOnly(runs, sights, i); }
  }

  lemma {:induction false} FilesOnly(runs: Runs, sights: seq<Sight>, i: nat)
    requires i < |sights| && Watch(sights, runs) && sights[0].files == |runs|
    ensures sights[i].files == |runs|
  {
    assert Meets(sights[i], runs);
    if i > 0 {
      FilesOnly(runs, sights, i - 1);
      assert Onward(sights[i - 1], sights[i - 1 + 1]);
    }
  }

  // ---------- the files grow ----------

  /** Entries are added to files, and files after them. */
  ghost predicate RunsGrow(a: Runs, b: Runs) {
    |a| <= |b| && forall k | 0 <= k < |a| :: a[k] <= b[k]
  }

  lemma {:induction false} NewAtGrows(runs: Runs, more: Runs, sights: seq<Sight>)
    requires sights != [] && Watch(sights, runs) && RunsGrow(runs, more)
    ensures Watch(sights, more) && NewAt(more, sights) == NewAt(runs, sights)
  {
    forall i | 0 <= i < |sights| ensures Meets(sights[i], more) {
      assert Meets(sights[i], runs);
    }
    var s := sights[|sights| - 1];
    assert Meets(s, runs) && runs[s.files - 1] <= more[s.files - 1];
  }

  /** What the polls have met stays the same. */
  lemma {:induction false} MetGrows(runs: Runs, more: Runs, sights: seq<Sight>)
    requires Watch(sights, runs) && RunsGrow(runs, more)
    ensures Watch(sights, more) && Met(more, sights) == Met(runs, sights)
    decreases |sights|
  {
    if sights != [] {
      hide Met, NewAt, Watch, RunsGrow;
      NewAtGrows(runs, more, sights);
      LastMet(runs, sights);
      LastMet(more, sights);
      MetGrows(runs, more, sights[..|sights| - 1]);
    }
  }

  // ---------- names and polls ----------

  ghost predicate InOrder(names: seq<string>) {
    forall i, j | 0 <= i < j < |names| :: LexLess(names[i], names[j])
  }

  /** The listing has the first files, in any order. */
  ghost predicate Lists(listing: seq<string>, names: seq<string>, files: nat)
    requires files <= |names|
  {
    && (forall k | 0 <= k < files :: names[k] in listing)
    && (forall n | n in listing :: exists k :: 0 <= k < files && names[k] == n)
  }

  lemma {:induction false} NewestIsLast(listing: seq<string>, names: seq<string>, files: nat)
    requires 0 < files <= |names| && InOrder(names) && Lists(listing, names, files)
    ensures Latest(listing) == Some(names[files - 1])
  {
    assert names[files - 1] in listing;
    LatestIsGreatest(listing);
    var k :| 0 <= k < files && names[k] == Latest(listing).value;
  }

  lemma {:induction false} NamesDiffer(names: seq<string>, i: nat, j: nat)
    requires InOrder(names) && i < j < |names|
    ensures names[i] != names[j]
  {
    LexAsymmetric(names[i], names[j]);
  }

  lemma {:induction false} AheadIs(run: seq<Entry>, a: nat, b: nat)
    requires a <= b <= |run|
    ensures |FileText(run[..a])| <= |FileText(run[..b])|
    ensures Ahead(FileText(run[..b]), |FileText(run[..a])|) == FileText(run[a..b])
  {
    assert run[..b] == run[..a] + run[a..b];
    FileTextAppend(run[..a], run[a..b]);
  }

  lemma {:induction false} DatedIn(runs: Runs, k: nat, a: nat, b: nat)
    requires AllDated(Flatten(runs)) && k < |runs| && a <= b <= |runs[k]|
    ensures forall x | x in runs[k][a..b] :: Dated(x)
  {
    forall x | x in runs[k][a..b] ensures Dated(x) {
      var i :| a <= i < b && runs[k][i] == x;
      InFlatten(runs, k, i);
      var j :| 0 <= j < |Flatten(runs)| && Flatten(runs)[j] == x;
    }
  }

  /** One poll that finds `have` entries in the newest file, `read` of which it knows. */
  method PollOnce(u: CharTables, source: Source, listing: seq<string>, text: string -> string,
                  ghost name: string, ghost run: seq<Entry>, ghost read: nat, ghost have: nat)
    requires source.start == EntryPattern(u) && !source.onlyNew && source.filters == NoFilters()
    requires source.multilineBuf == "" && Latest(listing) == Some(name) && read <= have <= |run|
    requires text(name) == FileText(run[..have])
    requires if source.currentFile == Some(name)
             then source.reader == Some(Reader(name, |FileText(run[..read])|))
             else read == 0
    modifies source
    ensures source.multilineBuf == "" && source.currentFile == Some(name)
    ensures source.reader == Some(Reader(name, |FileText(run[..have])|))
    ensures source.sent == old(source.sent) + Records(EntryPattern(u), "", Lines(FileText(run[read..have])))
  {
    hide FilterEngine.Matches, EntryStart, Records, Lines, Latest;
    AheadIs(run, read, have);
    assert FileText(run[..0]) == "";
    source.Poll(Some(listing), text, true);
    PassAll(source.filters, old(source.flushes), Records(EntryPattern(u), "", Lines(FileText(run[read..have]))));
  }

  /** A tracer without filters stands where these polls have brought it. */
  ghost predicate Tracing(u: CharTables, source: Source, names: seq<string>, runs: Runs, sights: seq<Sight>)
    reads source
  {
    && source.start == EntryPattern(u) && !source.onlyNew && source.filters == NoFilters()
    && source.multilineBuf == "" && |names| == |runs| && Watch(sights, runs)
    && source.sent == Records(EntryPattern(u), "", Lines(FileText(Met(runs, sights))))
    && if sights == [] then source.currentFile.None?
       else
         var s := sights[|sights| - 1];
         var name := names[s.files - 1];
         && source.currentFile == Some(name)
         && source.reader == Some(Reader(name, |FileText(runs[s.files - 1][..s.entries])|))
  }

  lemma {:induction false} TracingGrows(u: CharTables, source: Source, names: seq<string>, runs: Runs,
                                        names': seq<string>, runs': Runs, sights: seq<Sight>)
    requires Tracing(u, source, names, runs, sights) && names <= names' && |names'| == |runs'| && RunsGrow(runs, runs')
    ensures Tracing(u, source, names', runs', sights)
  {
    hide Met, Records, Lines, FileText, EntryStart;
    MetGrows(runs, runs', sights);
    if sights != [] {
      var s := sights[|sights| - 1];
      assert Meets(s, runs) && runs[s.files - 1] <= runs'[s.files - 1];
      assert runs[s.files - 1][..s.entries] == runs'[s.files - 1][..s.entries];
    }
  }

  method NewTracer(u: CharTables, ghost names: seq<string>, ghost runs: Runs) returns (source: Source)
    requires |names| == |runs|
    ensures fresh(source) && Tracing(u, source, names, runs, [])
  {
    hide EntryStart;
    source := new Source(EntryPattern(u), false, NoFilters());
    assert Lines(FileText([])) == [];
  }

  /** A directory with the first files, the last of which has the entries of `s`. */
  ghost predicate Offers(listing: seq<string>, text: string -> string, names: seq<string>, runs: Runs, s: Sight) {
    && |names| == |runs| && Meets(s, runs) && Lists(listing, names, s.files)
    && text(names[s.files - 1]) == FileText(runs[s.files - 1][..s.entries])
  }

  predicate Continues(sights: seq<Sight>, s: Sight) {
    sights != [] ==> Onward(sights[|sights| - 1], s)
  }

  lemma {:induction false} OneSightMore(runs: Runs, sights: seq<Sight>, s: Sight)
    requires Watch(sights, runs) && Meets(s, runs) && Continues(sights, s)
    ensures Watch(sights + [s], runs)
    ensures Met(runs, sights + [s]) == Met(runs, sights) + NewAt(runs, sights + [s])
  {
    var more := sights + [s];
    forall i | 0 <= i < |more| - 1 ensures Onward(more[i], more[i + 1]) {
      assert i < |sights| - 1 ==> Onward(sights[i], sights[i + 1]);
    }
    forall i | 0 <= i < |more| ensures Meets(more[i], runs) {
      assert i < |sights| ==> Meets(sights[i], runs);
    }
    assert more[..|more| - 1] == sights;
  }

  /** One more poll, which meets `s`. */
  method Look(u: CharTables, source: Source, ghost names: seq<string>, ghost runs: Runs, ghost sights: seq<Sight>,
              listing: seq<string>, text: string -> string, ghost s: Sight)
    requires Tracing(u, source, names, runs, sights) && InOrder(names) && AllDated(Flatten(runs))
    requires Offers(listing, text, names, runs, s) && Continues(sights, s)
    modifies source
    ensures Tracing(u, source, names, runs, sights + [s])
  {
    hide FilterEngine.Matches, EntryStart, Dated, Records, Lines, FileText, Latest, LexLess, Met, InOrder, Lists,
         AllDated;
    ghost var more := sights + [s];
    ghost var run, read := runs[s.files - 1], Known(more);
    NewestIsLast(listing, names, s.files);
    OneSightMore(runs, sights, s);
    if sights != [] {
      ghost var t := sights[|sights| - 1];
      assert Meets(t, runs);
      if t.files != s.files { NamesDiffer(names, t.files - 1, s.files - 1); }
    }
    PollOnce(u, source, listing, text, names[s.files - 1], run, read, s.entries);
    DatedIn(runs, s.files - 1, read, s.entries);
    PollsCompose(u, Met(runs, sights), NewAt(runs, more));
  }

  lemma {:induction false} MetIn(runs: Runs, sights: seq<Sight>)
    requires Watch(sights, runs) && AllDated(Flatten(runs))
    ensures AllDated(Met(runs, sights))
    decreases |sights|
  {
    if sights != [] {
      hide Met, Dated;
      LastMet(runs, sights);
      MetIn(runs, sights[..|sights| - 1]);
      var s := sights[|sights| - 1];
      DatedIn(runs, s.files - 1, Known(sights), s.entries);
    } else {
      assert Met(runs, sights) == [];
    }
  }

  /** The records sent are the printed texts of the entries met if and only if these are all clean. */
  lemma {:induction false} SentIsPrinted(u: CharTables, source: Source, names: seq<string>, runs: Runs,
                                         sights: seq<Sight>)
    requires Tracing(u, source, names, runs, sights) && AllDated(Flatten(runs))
    ensures source.sent == Bodies(Met(runs, sights)) <==> AllClean(EntryPattern(u), Met(runs, sights))
  {
    hide EntryStart, Clean, Dated, Records, Lines, FileText, Bodies, Met, AllClean;
    MetIn(runs, sights);
    PrintThenTrace(u, Met(runs, sights));
  }

  /**
   * A tracer without filters follows files that are written meanwhile. Whatever its polls meet, it
   * sends what one pass over the entries met gives: their printed texts, if and only if they are
   * all clean.
   */
  method Follow(u: CharTables, names: seq<string>, runs: Runs, sights: seq<Sight>, listings: seq<seq<string>>)
    returns (records: seq<string>)
    requires |names| == |runs| && InOrder(names) && AllDated(Flatten(runs)) && Watch(sights, runs)
    requires |listings| == |sights| && forall i | 0 <= i < |sights| :: Lists(listings[i], names, sights[i].files)
    ensures records == Records(EntryPattern(u), "", Lines(FileText(Met(runs, sights))))
    ensures records == Bodies(Met(runs, sights)) <==> AllClean(EntryPattern(u), Met(runs, sights))
  {
    hide EntryStart, Clean, Records, Lines, FileText, Met, InOrder, Lists, AllDated, AllClean, Bodies, Flatten;
    var source := NewTracer(u, names, runs);
    for i := 0 to |sights|
      invariant fresh(source) && Tracing(u, source, names, runs, sights[..i])
    {
      var s := sights[i];
      assert Meets(s, runs) && sights[..i + 1] == sights[..i] + [s];
      assert i > 0 ==> Onward(sights[i - 1], sights[i - 1 + 1]);
      var text := FileText(runs[s.files - 1][..s.entries]);
      Look(u, source, names, runs, sights[..i], listings[i], (n: string) => text, s);
    }
    assert sights[..|sights|] == sights;
    SentIsPrinted(u, source, names, runs, sights);
    return source.sent;
  }
}
