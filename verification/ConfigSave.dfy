/** Saving and checking a config file: `Config::write` and `Config::check` in `src/config/mod.rs`. */
module ConfigSave {
  import opened Basics

  /** A path: its directory, and its file name cut at the last dot. */
  datatype Path = Path(dir: string, stem: string, ext: Option<string>)

  function NameText(p: Path): string {
    if p.ext.Some? then p.stem + "." + p.ext.value else p.stem
  }

  /** `with_extension(format!("{ext}.tmp"))` */
  function TmpOf(p: Path): Path {
    Path(p.dir, p.stem + "." + (if p.ext.Some? then p.ext.value else ""), Some("tmp"))
  }

  /** The temporary file is another file than the target. */
  lemma {:induction false} TmpDiffers(p: Path)
    ensures TmpOf(p) != p && NameText(TmpOf(p)) != NameText(p)
  {
  }

  /**
   * The temporary file lies beside the target; its name is the target's with `.tmp` behind it, and
   * a dot before that when the target has no extension.
   */
  lemma {:induction false} TmpIsBeside(p: Path)
    ensures TmpOf(p).dir == p.dir
    ensures NameText(TmpOf(p)) == if p.ext.Some? then p.stem + "." + p.ext.value + ".tmp" else p.stem + "..tmp"
  {
    assert p.stem + "." + "" == p.stem + ".";
  }

  /** Contents and time of the last change. */
  datatype File = File(text: string, mtime: nat)

  type Disk = map<Path, File>

  /** Two disks have the same file, or no file, under this path. */
  predicate SameAt(a: Disk, b: Disk, p: Path) {
    (p in a <==> p in b) && (p in a ==> a[p] == b[p])
  }

  /** The disks differ under these paths only. */
  predicate OnlyAt(a: Disk, b: Disk, ps: set<Path>) {
    a - ps == b - ps
  }

  /** A change at the temporary file alone is no change at the target. */
  lemma {:induction false} OtherFileKept(a: Disk, b: Disk, p: Path, q: Path)
    requires OnlyAt(a, b, {q}) && p != q
    ensures SameAt(a, b, p) && OnlyAt(a, b, {p, q})
  {
    assert p in a <==> p in a - {q};
    assert p in b <==> p in b - {q};
    assert a - {p, q} == (a - {q}) - {p};
    assert b - {p, q} == (b - {q}) - {p};
  }

  lemma {:induction false} OthersKept(trace: seq<Disk>, from: nat, before: Disk, p: Path, q: Path)
    requires forall i | from <= i < |trace| :: OnlyAt(trace[i], before, {q})
    requires p != q
    ensures forall i | from <= i < |trace| :: SameAt(trace[i], before, p) && OnlyAt(trace[i], before, {p, q})
  {
    forall i | from <= i < |trace| ensures SameAt(trace[i], before, p) && OnlyAt(trace[i], before, {p, q}) {
      OtherFileKept(trace[i], before, p, q);
    }
  }

  lemma {:induction false} OnlyThrough(trace: seq<Disk>, from: nat, now: Disk, before: Disk, q: Path)
    requires forall i | from <= i < |trace| :: OnlyAt(trace[i], now, {q})
    requires OnlyAt(now, before, {q})
    ensures forall i | from <= i < |trace| :: OnlyAt(trace[i], before, {q})
  {
  }

  /** A rename over the target touches these two files only. */
  lemma {:induction false} RenamedOnly(a: Disk, b: Disk, p: Path, q: Path)
    requires OnlyAt(a, b, {q}) && q in a && p != q
    ensures OnlyAt(a[p := a[q]] - {q}, b, {p, q})
  {
    OtherFileKept(a, b, p, q);
    assert (a[p := a[q]] - {q}) - {p, q} == a - {p, q};
  }

  /** What `check` answers: an error without a file, and whether the data must be read again. */
  function CheckAnswer(disk: Disk, p: Path, modified: Option<nat>, checked: Option<nat>, now: nat,
                       interval: nat): Result<bool>
  {
    if !Due(checked, now, interval) then Ok(false)
    else if p !in disk then Err
    else Ok(modified.None? || disk[p].mtime > modified.value)
  }

  /** The interval since the last check has passed. */
  predicate Due(checked: Option<nat>, now: nat, interval: nat) {
    checked.None? || now - checked.value >= interval
  }

  /**
   * From `from` on the disk went through states in which the file is the old one before the step
   * `at`, and holds the new text from that step on.
   */
  ghost predicate ReplacedAt(trace: seq<Disk>, before: Disk, from: nat, at: nat, p: Path, text: string) {
    && from <= at < |trace|
    && (forall i | from <= i < at :: SameAt(trace[i], before, p))
    && (forall i | at <= i < |trace| :: p in trace[i] && trace[i][p].text == text)
  }

  /** The file is absent, or no newer than the remembered time: a check has nothing to report. */
  predicate Unchanged(disk: Disk, p: Path, modified: Option<nat>) {
    p in disk ==> modified.Some? && disk[p].mtime <= modified.value
  }

  /**
   * What checks that run beside a save can see: one at step `i` reports the save exactly when the
   * rename is done, the interval has passed, and the file is newer than the remembered time.
   */
  ghost predicate ReportedFrom(trace: seq<Disk>, from: nat, at: nat, p: Path, modified: Option<nat>)
    requires forall i | at <= i < |trace| :: p in trace[i]
  {
    forall i: nat, checked: Option<nat>, now: nat, interval: nat | from <= i < |trace| ::
      CheckAnswer(trace[i], p, modified, checked, now, interval) == Ok(true)
      <==> at <= i && Due(checked, now, interval) && (modified.Some? ==> modified.value < trace[i][p].mtime)
  }

  /** Started with nothing to report, a save is reported from its rename on, until it sets the stamp. */
  lemma {:induction false} OwnSaveReported(trace: seq<Disk>, before: Disk, from: nat, at: nat, p: Path, text: string,
                                           modified: Option<nat>)
    requires ReplacedAt(trace, before, from, at, p, text) && Unchanged(before, p, modified)
    ensures ReportedFrom(trace, from, at, p, modified)
  {
    forall i: nat, checked: Option<nat>, now: nat, interval: nat | from <= i < |trace|
      ensures CheckAnswer(trace[i], p, modified, checked, now, interval) == Ok(true)
              <==> at <= i && Due(checked, now, interval) && (modified.Some? ==> modified.value < trace[i][p].mtime)
    {
      assert i < at ==> SameAt(trace[i], before, p);
    }
  }

  /**
   * A save that falls into the window: its file was settled at time 0, is written anew at time 1
   * and renamed. A check then reports the save, and does not once the stamp is set.
   */
  lemma {:induction false} SaveIsReported(p: Path)
    ensures var was, part, now := File("old", 0), File("n", 1), File("new", 1);
            var before: Disk := map[p := was];
            var trace := [before, before[TmpOf(p) := part], before[TmpOf(p) := now], map[p := now]];
            && Unchanged(before, p, Some(0)) && ReplacedAt(trace, before, 1, 3, p, "new")
            && CheckAnswer(trace[2], p, Some(0), Some(0), 1, 1) == Ok(false)
            && CheckAnswer(trace[3], p, Some(0), Some(0), 1, 1) == Ok(true)
            && CheckAnswer(trace[3], p, Some(1), Some(0), 1, 1) == Ok(false)
  {
    TmpDiffers(p);
  }

  /** A check answers on every one of these disks what it answers on `before`. */
  ghost predicate AnswersAs(trace: seq<Disk>, from: nat, before: Disk, p: Path, modified: Option<nat>) {
    forall i: nat, checked: Option<nat>, now: nat, interval: nat | from <= i < |trace| ::
      CheckAnswer(trace[i], p, modified, checked, now, interval)
      == CheckAnswer(before, p, modified, checked, now, interval)
  }

  /** No check reports anything. */
  ghost predicate Silent(disk: Disk, p: Path, modified: Option<nat>) {
    forall checked: Option<nat>, now: nat, interval: nat ::
      CheckAnswer(disk, p, modified, checked, now, interval) == Ok(false)
  }

  /** No complete temporary file is left behind: it is as before, gone, or lacks an end. */
  ghost predicate NoWholeTmp(before: Disk, after: Disk, p: Path, contents: Option<string>) {
    var tmp := TmpOf(p);
    || SameAt(after, before, tmp)
    || tmp !in after
    || (contents.Some? && |after[tmp].text| < |contents.value|)
  }

  lemma {:induction false} TmpUntouched(disk: Disk, p: Path, contents: Option<string>)
    ensures NoWholeTmp(disk, disk, p, contents)
  {
  }

  class Config<D> {
    const cleans: bool             // when false, removing a file may fail
    const render: (Option<string>, D) -> Option<string>  // by extension; None when it is unknown or fails
    var path: Path
    var data: D
    var modified: Option<nat>
    var checked: Option<nat>
    var disk: Disk
    var clock: nat                 // never goes back
    ghost var trace: seq<Disk>     // every state the disk has been in, the present one last

    ghost predicate Valid()
      reads this
    {
      && trace != [] && trace[|trace| - 1] == disk
      && (forall p | p in disk :: disk[p].mtime <= clock)
      && (modified.Some? ==> modified.value <= clock)
    }

    constructor (render: (Option<string>, D) -> Option<string>, path: Path, data: D, cleans: bool)
      ensures Valid() && disk == map[] && this.render == render && this.path == path && this.data == data
      ensures this.cleans == cleans
    {
      this.render, this.path, this.data, this.cleans := render, path, data, cleans;
      modified, checked, disk, clock, trace := None, None, map[], 0, [map[]];
    }

    method Tick()
      modifies this`clock
      ensures clock >= old(clock)
    {
      var later: nat :| later >= clock;
      clock := later;
    }

    /** One atomic step of the file system. */
    method Become(next: Disk)
      requires Valid() && forall p | p in next :: next[p].mtime <= clock
      modifies this`disk, this`trace
      ensures Valid() && disk == next && trace == old(trace) + [next]
    {
      disk := next;
      trace := trace + [next];
    }

    /**
     * `fs::write`: the file is created or emptied, then filled piece by piece; it can fail, and
     * the process can stop, after any piece.
     */
    method WriteFile(p: Path, text: string) returns (ok: bool)
      requires Valid()
      modifies this`disk, this`trace, this`clock
      ensures Valid() && clock >= old(clock) && old(trace) <= trace
      ensures OnlyAt(disk, old(disk), {p})
      ensures forall i | |old(trace)| <= i < |trace| :: OnlyAt(trace[i], old(disk), {p})
      ensures ok ==> p in disk && disk[p].text == text && disk[p].mtime >= old(clock)
      ensures !ok ==> SameAt(disk, old(disk), p) || (p in disk && |disk[p].text| < |text|)
    {
      ok := *;
      if !ok { return; }
      Tick();
      Become(disk[p := File("", clock)]);
      var written := 0;
      while written < |text|
        invariant Valid() && written <= |text| && clock >= old(clock) && old(trace) <= trace
        invariant p in disk && disk[p].text == text[..written] && disk[p].mtime >= old(clock)
        invariant OnlyAt(disk, old(disk), {p})
        invariant forall i | |old(trace)| <= i < |trace| :: OnlyAt(trace[i], old(disk), {p})
      {
        ok := *;
        if !ok { return; }
        var more: nat :| written < more <= |text|;
        Tick();
        Become(disk[p := File(text[..more], clock)]);
        written := more;
      }
      return true;
    }

    /** `fs::rename`, which replaces the target in one step. */
    method Rename(from: Path, to: Path) returns (ok: bool)
      requires Valid() && from in disk && from != to
      modifies this`disk, this`trace
      ensures Valid()
      ensures !ok ==> disk == old(disk) && trace == old(trace)
      ensures ok ==> disk == old(disk)[to := old(disk)[from]] - {from} && trace == old(trace) + [disk]
    {
      ok := *;
      if ok {
        Become(disk[to := disk[from]] - {from});
      }
    }

    method RemoveFile(p: Path)
      requires Valid()
      modifies this`disk, this`trace
      ensures Valid() && old(trace) <= trace
      ensures OnlyAt(disk, old(disk), {p}) && (cleans ==> p !in disk)
      ensures forall i | |old(trace)| <= i < |trace| :: OnlyAt(trace[i], old(disk), {p})
    {
      var ok: bool := *;
      if ok || cleans {
        Become(disk - {p});
      }
    }

    /**
     * `write` up to the rename: at every step the target is the complete old file or the complete
     * new one; a failure leaves the old one.
     */
    method Replace(newPath: Path) returns (ok: bool, ghost at: nat)
      requires Valid()
      modifies this`path, this`disk, this`trace, this`clock
      ensures Valid() && path == newPath && clock >= old(clock) && old(trace) <= trace
      ensures forall i | |old(trace)| <= i < |trace| :: OnlyAt(trace[i], old(disk), {newPath, TmpOf(newPath)})
      ensures !ok ==> forall i | |old(trace)| <= i < |trace| :: SameAt(trace[i], old(disk), newPath)
      ensures !ok && cleans ==> NoWholeTmp(old(disk), disk, newPath, render(newPath.ext, data))
      ensures ok ==> render(newPath.ext, data).Some?
                     && ReplacedAt(trace, old(disk), |old(trace)|, at, newPath, render(newPath.ext, data).value)
      ensures ok ==> newPath in disk && old(clock) <= disk[newPath].mtime
    {
      hide OnlyAt, SameAt;
      TmpUntouched(disk, newPath, render(newPath.ext, data));
      path := newPath;
      at := 0;
      var contents := render(path.ext, data);
      if contents.None? { return false, 0; }
      var made: bool := *;
      if !made { return false, 0; }
      var tmp := TmpOf(path);
      TmpDiffers(path);
      var written := WriteFile(tmp, contents.value);
      OthersKept(trace, |old(trace)|, old(disk), newPath, tmp);
      if !written { return false, 0; }
      RenamedOnly(disk, old(disk), newPath, tmp);
      var renamed := Rename(tmp, path);
      if !renamed {
        ghost var now, from := disk, |trace|;
        RemoveFile(tmp);
        OnlyThrough(trace, from, now, old(disk), tmp);
        OthersKept(trace, |old(trace)|, old(disk), newPath, tmp);
        return false, 0;
      }
      return true, |trace| - 1;
    }

    /**
     * `write`: after the rename the time of the change is remembered. A check by a clone, which
     * shares that time, reports the save between the two and never after it.
     */
    method Write(newPath: Path) returns (ok: bool, ghost at: nat)
      requires Valid()
      modifies this`path, this`disk, this`trace, this`clock, this`modified, this`checked
      ensures Valid() && path == newPath && old(trace) <= trace
      ensures forall i | |old(trace)| <= i < |trace| :: OnlyAt(trace[i], old(disk), {newPath, TmpOf(newPath)})
      ensures !ok ==> forall i | |old(trace)| <= i < |trace| :: SameAt(trace[i], old(disk), newPath)
      ensures !ok && cleans ==> NoWholeTmp(old(disk), disk, newPath, render(newPath.ext, data))
      ensures !ok ==> modified == old(modified) && checked == old(checked)
      ensures ok ==> render(newPath.ext, data).Some?
                     && ReplacedAt(trace, old(disk), |old(trace)|, at, newPath, render(newPath.ext, data).value)
      ensures ok && Unchanged(old(disk), newPath, old(modified)) ==>
                ReportedFrom(trace, |old(trace)|, at, newPath, old(modified))
      ensures !ok ==> AnswersAs(trace, |old(trace)|, old(disk), newPath, modified)
      ensures ok ==> Settled() && Silent(disk, newPath, modified) && modified == checked == Some(clock)
    {
      ok, at := Replace(newPath);
      if ok {
        if Unchanged(old(disk), newPath, modified) {
          var text := render(newPath.ext, data).value;
          OwnSaveReported(trace, old(disk), |old(trace)|, at, newPath, text, modified);
        }
        Tick();
        modified, checked := Some(clock), Some(clock);
      }
    }

    /** The file on disk is no newer than the remembered time. */
    ghost predicate Settled()
      reads this`path, this`disk, this`modified
    {
      path in disk && modified.Some? && disk[path].mtime <= modified.value
    }

    /** `check`: the first test is made without the lock and again under it. */
    method Check(interval: nat) returns (r: Result<bool>)
      requires Valid()
      modifies this`checked
      ensures r == CheckAnswer(disk, path, modified, old(checked), clock, interval)
      ensures checked == if r == Ok(true) then Some(clock) else old(checked)
      ensures Settled() ==> r == Ok(false)
      ensures old(checked).Some? && clock - old(checked).value < interval ==> r == Ok(false)
      ensures (old(checked).Some? ==> clock - old(checked).value >= interval) ==>
                && (path !in disk ==> r == Err)
                && (path in disk && modified.Some? && disk[path].mtime <= modified.value ==> r == Ok(false))
                && (path in disk && (modified.Some? ==> disk[path].mtime > modified.value) ==> r == Ok(true))
    {
      if checked.Some? && clock - checked.value < interval { return Ok(false); }
      if path !in disk { return Err; }
      if modified.Some? && disk[path].mtime <= modified.value { return Ok(false); }
      checked := Some(clock);
      return Ok(true);
    }

    /** Another program changes the file later: from then on a check reports it once the interval has passed. */
    method ChangedOutside(text: string)
      requires Valid()
      modifies this`disk, this`trace, this`clock
      ensures Valid() && path in disk && disk[path].text == text
      ensures forall now: nat, interval: nat | Due(checked, now, interval) ::
                CheckAnswer(disk, path, modified, checked, now, interval) == Ok(true)
    {
      var later: nat :| later > clock;
      clock := later;
      Become(disk[path := File(text, clock)]);
    }
  }
}
