/** Log file names sort like time: `Logger::gen_path` and `find_latest_file`. */
module FileNames {
  import opened Basics
  import opened LogFormat

  /** The order of Rust strings and of file names in one directory. */
  predicate LexLess(s: string, t: string) {
    if t == "" then false
    else if s == "" then true
    else s[0] < t[0] || (s[0] == t[0] && LexLess(s[1..], t[1..]))
  }

  datatype Instant = Instant(civil: Civil, micro: nat)

  const WIDTHS: seq<nat> := [4, 2, 2, 2, 2, 2, 6]
  const SEPARATORS: seq<string> := ["-", "-", "_", "-", "-", ".", "_"]

  /** The fields of an instant, the most significant one first. */
  function Fields(i: Instant): seq<nat>
    requires FourDigitYear(i.civil)
  {
    [i.civil.year, i.civil.month, i.civil.day, i.civil.hour, i.civil.minute, i.civil.second, i.micro]
  }

  /** Zero-padded fields, each followed by its separator, then the rest of the name. */
  function FieldsText(vals: seq<nat>, widths: seq<nat>, seps: seq<string>, tail: string): string
    requires |vals| == |widths| == |seps|
  {
    if vals == [] then tail
    else Pad(vals[0], widths[0]) + (seps[0] + FieldsText(vals[1..], widths[1..], seps[1..], tail))
  }

  /** `%Y-%m-%d_%H-%M-%S%.6f_{pid}.log` */
  function FileName(i: Instant, pid: nat): string
    requires FourDigitYear(i.civil)
  {
    FieldsText(Fields(i), WIDTHS, SEPARATORS, Pad(pid, 1) + ".log")
  }

  predicate Before(a: seq<nat>, b: seq<nat>)
    requires |a| == |b|
  {
    a != [] && (a[0] < b[0] || (a[0] == b[0] && Before(a[1..], b[1..])))
  }

  ghost predicate FitWidths(vals: seq<nat>, widths: seq<nat>) {
    |vals| == |widths| && forall i | 0 <= i < |vals| :: vals[i] < Power10(widths[i])
  }

  predicate InName(i: Instant) {
    FourDigitYear(i.civil) && i.micro < 1000000
  }

  /** One instant is before the other: by year, month, day, hour, minute and second, and last by microsecond. */
  predicate EarlierCivil(a: Civil, b: Civil) {
    || a.year < b.year
    || (a.year == b.year && a.month < b.month)
    || (a.year == b.year && a.month == b.month && a.day < b.day)
    || (a.year == b.year && a.month == b.month && a.day == b.day && a.hour < b.hour)
    || (a.year == b.year && a.month == b.month && a.day == b.day && a.hour == b.hour && a.minute < b.minute)
    || (a.year == b.year && a.month == b.month && a.day == b.day && a.hour == b.hour && a.minute == b.minute
        && a.second < b.second)
  }

  predicate EarlierInstant(a: Instant, b: Instant) {
    EarlierCivil(a.civil, b.civil) || (a.civil == b.civil && a.micro < b.micro)
  }

  lemma {:induction false} BeforeCons(x: nat, a: seq<nat>, y: nat, b: seq<nat>)
    requires |a| == |b|
    ensures Before([x] + a, [y] + b) <==> x < y || (x == y && Before(a, b))
  {
    assert ([x] + a)[1..] == a && ([y] + b)[1..] == b;
  }

  /** The fields of a name are in the order of the calendar. */
  lemma {:induction false} EarlierIsBefore(a: Instant, b: Instant)
    requires FourDigitYear(a.civil) && FourDigitYear(b.civil)
    ensures EarlierInstant(a, b) <==> Before(Fields(a), Fields(b))
  {
    var c, d := a.civil, b.civil;
    assert Fields(a)
        == [c.year] + ([c.month] + ([c.day] + ([c.hour] + ([c.minute] + ([c.second] + ([a.micro] + []))))));
    assert Fields(b)
        == [d.year] + ([d.month] + ([d.day] + ([d.hour] + ([d.minute] + ([d.second] + ([b.micro] + []))))));
    BeforeCons(a.micro, [], b.micro, []);
    BeforeCons(c.second, [a.micro] + [], d.second, [b.micro] + []);
    BeforeCons(c.minute, [c.second] + ([a.micro] + []), d.minute, [d.second] + ([b.micro] + []));
    BeforeCons(c.hour, [c.minute] + ([c.second] + ([a.micro] + [])),
               d.hour, [d.minute] + ([d.second] + ([b.micro] + [])));
    BeforeCons(c.day, [c.hour] + ([c.minute] + ([c.second] + ([a.micro] + []))),
               d.day, [d.hour] + ([d.minute] + ([d.second] + ([b.micro] + []))));
    BeforeCons(c.month, [c.day] + ([c.hour] + ([c.minute] + ([c.second] + ([a.micro] + [])))),
               d.month, [d.day] + ([d.hour] + ([d.minute] + ([d.second] + ([b.micro] + [])))));
    BeforeCons(c.year, [c.month] + ([c.day] + ([c.hour] + ([c.minute] + ([c.second] + ([a.micro] + []))))),
               d.year, [d.month] + ([d.day] + ([d.hour] + ([d.minute] + ([d.second] + ([b.micro] + []))))));
  }

  /** The order of names: they agree up to a place where one ends or has the smaller character. */
  lemma {:induction false} LexLessIs(s: string, t: string)
    ensures LexLess(s, t) <==>
              exists k: nat :: k <= |s| && k < |t| && s[..k] == t[..k] && (k == |s| || s[k] < t[k])
  {
    if LexLess(s, t) { LexPlace(s, t); }
    if k: nat :| k <= |s| && k < |t| && s[..k] == t[..k] && (k == |s| || s[k] < t[k]) {
      assert s == s[..k] + s[k..] && t == t[..k] + t[k..];
      LexPrefix(s[..k], s[k..], t[k..]);
    }
  }

  lemma {:induction false} LexPlace(s: string, t: string)
    requires LexLess(s, t)
    ensures exists k: nat :: k <= |s| && k < |t| && s[..k] == t[..k] && (k == |s| || s[k] < t[k])
  {
    if s == "" || s[0] < t[0] {
      assert s[..0] == t[..0];
    } else {
      LexPlace(s[1..], t[1..]);
      var k: nat :| k <= |s[1..]| && k < |t[1..]| && s[1..][..k] == t[1..][..k]
                    && (k == |s[1..]| || s[1..][k] < t[1..][k]);
      assert s[..k + 1] == [s[0]] + s[1..][..k] && t[..k + 1] == [t[0]] + t[1..][..k];
    }
  }

  lemma {:induction false} LexPrefix(p: string, s: string, t: string)
    ensures LexLess(p + s, p + t) == LexLess(s, t)
  {
    if p == "" {
      assert p + s == s && p + t == t;
    } else {
      assert (p + s)[1..] == p[1..] + s && (p + t)[1..] == p[1..] + t;
      LexPrefix(p[1..], s, t);
    }
  }

  /** Of two numbers padded to the same width, the smaller sorts first whatever follows. */
  lemma {:induction false} PadMonotone(a: nat, b: nat, width: nat, x: string, y: string)
    requires a < b < Power10(width)
    ensures LexLess(Pad(a, width) + x, Pad(b, width) + y)
    decreases width
  {
    var da, db := [Digit(a % 10)], [Digit(b % 10)];
    var pa, pb := Pad(a / 10, width - 1), Pad(b / 10, width - 1);
    Regroup(pa, da, x);
    Regroup(pb, db, y);
    if a / 10 < b / 10 {
      PadMonotone(a / 10, b / 10, width - 1, da + x, db + y);
    } else {
      LexPrefix(pa, da + x, db + y);
    }
  }

  lemma {:induction false} FieldsMonotone(a: seq<nat>, b: seq<nat>, widths: seq<nat>, seps: seq<string>, x: string,
                                          y: string)
    requires FitWidths(a, widths) && FitWidths(b, widths) && |seps| == |widths|
    requires Before(a, b)
    ensures LexLess(FieldsText(a, widths, seps, x), FieldsText(b, widths, seps, y))
  {
    var ta := seps[0] + FieldsText(a[1..], widths[1..], seps[1..], x);
    var tb := seps[0] + FieldsText(b[1..], widths[1..], seps[1..], y);
    if a[0] < b[0] {
      PadMonotone(a[0], b[0], widths[0], ta, tb);
    } else {
      FieldsMonotone(a[1..], b[1..], widths[1..], seps[1..], x, y);
      LexPrefix(seps[0], FieldsText(a[1..], widths[1..], seps[1..], x), FieldsText(b[1..], widths[1..], seps[1..], y));
      LexPrefix(Pad(a[0], widths[0]), ta, tb);
    }
  }

  lemma {:induction false} NameFits(i: Instant)
    requires InName(i)
    ensures FitWidths(Fields(i), WIDTHS)
  {
  }

  /** The earlier of two log files sorts first, whatever the process numbers. */
  lemma {:induction false} NamesSortLikeTime(a: Instant, b: Instant, pidA: nat, pidB: nat)
    requires InName(a) && InName(b) && EarlierInstant(a, b)
    ensures LexLess(FileName(a, pidA), FileName(b, pidB))
  {
    EarlierIsBefore(a, b);
    NameFits(a);
    NameFits(b);
    FieldsMonotone(Fields(a), Fields(b), WIDTHS, SEPARATORS, Pad(pidA, 1) + ".log", Pad(pidB, 1) + ".log");
  }

  // ---------- the latest name of a directory ----------

  /** `files.sort(); files.pop()` */
  function Latest(names: seq<string>): (r: Option<string>)
  {
    if names == [] then None
    else match Latest(names[1..])
         case None => Some(names[0])
         case Some(m) => if LexLess(m, names[0]) then Some(names[0]) else Some(m)
  }

  lemma {:induction false} LexTransitive(s: string, t: string, v: string)
    requires LexLess(s, t) && !LexLess(v, t)
    ensures LexLess(s, v)
  {
    if s != "" && v != "" && s[0] == t[0] == v[0] {
      LexTransitive(s[1..], t[1..], v[1..]);
    }
  }

  lemma {:induction false} LexAsymmetric(s: string, t: string)
    ensures !(LexLess(s, t) && LexLess(t, s))
  {
    if s != "" && t != "" {
      LexAsymmetric(s[1..], t[1..]);
    }
  }

  /** The latest name is one of the names, and none of them sorts after it. */
  lemma {:induction false} LatestIsGreatest(names: seq<string>)
    ensures Latest(names).None? <==> names == []
    ensures names != [] ==> Latest(names).value in names
    ensures names != [] ==> forall n | n in names :: !LexLess(Latest(names).value, n)
  {
    if names != [] {
      LatestIsGreatest(names[1..]);
      var r := Latest(names).value;
      LexAsymmetric(r, r);
      forall n | n in names ensures !LexLess(r, n) {
        if n in names[1..] {
          var m := Latest(names[1..]).value;
          if LexLess(r, n) && r != m {
            LexTransitive(r, n, m);
            LexAsymmetric(r, m);
          }
        }
      }
    }
  }

  datatype Log = Log(instant: Instant, pid: nat)

  function NameOf(l: Log): string
    requires InName(l.instant)
  {
    FileName(l.instant, l.pid)
  }

  predicate Earlier(a: Log, b: Log) {
    InName(a.instant) && InName(b.instant) && EarlierInstant(a.instant, b.instant)
  }

  /**
   * In a directory of logs generated at different instants, the tracer follows the one that was
   * generated last, in whatever order the directory lists them.
   */
  lemma {:induction false} LatestIsNewest(logs: seq<Log>, newest: nat)
    requires forall k | 0 <= k < |logs| :: InName(logs[k].instant)
    requires newest < |logs|
    requires forall k | 0 <= k < |logs| && k != newest :: Earlier(logs[k], logs[newest])
    ensures Latest(seq(|logs|, k requires 0 <= k < |logs| => NameOf(logs[k]))) == Some(NameOf(logs[newest]))
  {
    var names := seq(|logs|, k requires 0 <= k < |logs| => NameOf(logs[k]));
    LatestIsGreatest(names);
    var r := Latest(names).value;
    var k :| 0 <= k < |logs| && r == names[k];
    assert names[newest] in names;
    if k != newest {
      assert Earlier(logs[k], logs[newest]);
      NamesSortLikeTime(logs[k].instant, logs[newest].instant, logs[k].pid, logs[newest].pid);
    }
  }

  // ---------- names from a clock ----------

  const MICROS: nat := 1000000

  /** The name generated at an instant, counted in microseconds from the epoch. */
  function NameAt(cal: Calendar, pid: nat, p: nat): string
    requires FourDigitYear(cal(p / MICROS))
  {
    FileName(Instant(cal(p / MICROS), p % MICROS), pid)
  }

  /** A later second has later calendar fields. */
  ghost predicate Increasing(cal: Calendar) {
    forall s, t | s < t && FourDigitYear(cal(s)) && FourDigitYear(cal(t)) :: EarlierCivil(cal(s), cal(t))
  }

  /** Names that a clock gives one after the other sort in that order. */
  lemma {:induction false} NamesIncrease(cal: Calendar, pid: nat, p: nat, q: nat)
    requires Increasing(cal) && p < q && FourDigitYear(cal(p / MICROS)) && FourDigitYear(cal(q / MICROS))
    ensures LexLess(NameAt(cal, pid, p), NameAt(cal, pid, q))
  {
    hide FourDigitYear, LexLess, EarlierCivil;
    var s, t := p / MICROS, q / MICROS;
    assert p == s * MICROS + p % MICROS && q == t * MICROS + q % MICROS;
    NamesSortLikeTime(Instant(cal(s), p % MICROS), Instant(cal(t), q % MICROS), pid, pid);
  }

  // ---------- what a name says ----------

  lemma {:induction false} FirstPart(a: string, sep: string, more: string)
    requires |sep| == 1
    ensures var s := a + (sep + more); s[..|a|] == a && s[|a|] == sep[0] && s[|a| + 1..] == more
  {
  }

  lemma {:induction false} SliceBehind(s: string, from: nat, k: nat, more: string)
    requires from <= |s| && s[from..] == more && k <= |more|
    ensures s[from..from + k] == more[..k] && s[from + k..] == more[k..] && (k < |more| ==> s[from + k] == more[k])
    ensures k < |more| ==> s[from + k + 1..] == more[k + 1..]
  {
  }

  lemma {:induction false} NestedSlices(y: string, mo: string, d: string, h: string, mi: string, sec: string,
                                        rest: string)
    requires |y| == 4 && |mo| == |d| == |h| == |mi| == |sec| == 2
    ensures var s := y + ("-" + (mo + ("-" + (d + ("_" + (h + ("-" + (mi + ("-" + (sec + rest))))))))));
            && |s| == 19 + |rest| && s[..4] == y && s[5..7] == mo && s[8..10] == d
            && s[11..13] == h && s[14..16] == mi && s[17..19] == sec && s[19..] == rest
            && s[4] == s[7] == s[13] == s[16] == '-' && s[10] == '_'
  {
    var e6 := sec + rest;
    var e5 := mi + ("-" + e6);
    var e4 := h + ("-" + e5);
    var e3 := d + ("_" + e4);
    var e2 := mo + ("-" + e3);
    var s := y + ("-" + e2);
    FirstPart(y, "-", e2);
    FirstPart(mo, "-", e3);
    FirstPart(d, "_", e4);
    FirstPart(h, "-", e5);
    FirstPart(mi, "-", e6);
    SliceBehind(s, 5, 2, e2);
    SliceBehind(s, 8, 2, e3);
    SliceBehind(s, 11, 2, e4);
    SliceBehind(s, 14, 2, e5);
    SliceBehind(s, 17, 2, e6);
  }

  lemma {:induction false} NameParts(i: Instant, pid: nat)
    requires FourDigitYear(i.civil)
    ensures var c := i.civil;
            FileName(i, pid)
            == Pad(c.year, 4) + ("-" + (Pad(c.month, 2) + ("-" + (Pad(c.day, 2) + ("_" + (Pad(c.hour, 2) + ("-"
               + (Pad(c.minute, 2) + ("-" + (Pad(c.second, 2) + ("." + (Pad(i.micro, 6) + ("_"
               + (Pad(pid, 1) + ".log"))))))))))))))
  {
    hide Pad, FourDigitYear;
    var v, w, s := Fields(i), WIDTHS, SEPARATORS;
    var tail := Pad(pid, 1) + ".log";
    assert v[6..][1..] == [];
    assert FieldsText(v[6..], w[6..], s[6..], tail) == Pad(i.micro, 6) + ("_" + tail);
    assert forall k | 0 <= k < 6 :: v[k..][1..] == v[k + 1..] && w[k..][1..] == w[k + 1..] && s[k..][1..] == s[k + 1..];
    assert FieldsText(v[5..], w[5..], s[5..], tail) == Pad(v[5], 2) + ("." + FieldsText(v[6..], w[6..], s[6..], tail));
    assert FieldsText(v[4..], w[4..], s[4..], tail) == Pad(v[4], 2) + ("-" + FieldsText(v[5..], w[5..], s[5..], tail));
    assert FieldsText(v[3..], w[3..], s[3..], tail) == Pad(v[3], 2) + ("-" + FieldsText(v[4..], w[4..], s[4..], tail));
    assert FieldsText(v[2..], w[2..], s[2..], tail) == Pad(v[2], 2) + ("_" + FieldsText(v[3..], w[3..], s[3..], tail));
    assert FieldsText(v[1..], w[1..], s[1..], tail) == Pad(v[1], 2) + ("-" + FieldsText(v[2..], w[2..], s[2..], tail));
    assert FieldsText(v, w, s, tail) == Pad(v[0], 4) + ("-" + FieldsText(v[1..], w[1..], s[1..], tail));
  }

  /** What stands at which position of a generated name. */
  lemma {:induction false} NameReads(i: Instant, pid: nat)
    requires InName(i)
    ensures var s := FileName(i, pid);
            && |s| > 31 && Decimal(s[..4]) == i.civil.year && Decimal(s[5..7]) == i.civil.month
            && Decimal(s[8..10]) == i.civil.day && Decimal(s[11..13]) == i.civil.hour
            && Decimal(s[14..16]) == i.civil.minute && Decimal(s[17..19]) == i.civil.second
            && Decimal(s[20..26]) == i.micro && Decimal(s[27..|s| - 4]) == pid
            && s[4] == s[7] == s[13] == s[16] == '-' && s[10] == s[26] == '_' && s[19] == '.' && s[|s| - 4..] == ".log"
  {
    hide Pad, Decimal, FileName;
    var c := i.civil;
    NameParts(i, pid);
    FieldWidths(c);
    FieldValues(c);
    var rest := "." + (Pad(i.micro, 6) + ("_" + (Pad(pid, 1) + ".log")));
    NestedSlices(Pad(c.year, 4), Pad(c.month, 2), Pad(c.day, 2), Pad(c.hour, 2), Pad(c.minute, 2), Pad(c.second, 2),
                 rest);
    NameRest(i.micro, pid, FileName(i, pid), rest);
  }

  lemma {:induction false} NameRest(micro: nat, pid: nat, s: string, rest: string)
    requires micro < 1000000 && rest == "." + (Pad(micro, 6) + ("_" + (Pad(pid, 1) + ".log")))
    requires |s| == 19 + |rest| && s[19..] == rest
    ensures |s| > 31 && s[19] == '.' && Decimal(s[20..26]) == micro && s[26] == '_'
    ensures Decimal(s[27..|s| - 4]) == pid && s[|s| - 4..] == ".log"
  {
    SixDigits(micro);
    PadValue(micro, 6);
    PadValue(pid, 1);
    PidHasDigits(pid);
    hide Pad, Decimal;
    assert s[20..26] == rest[1..7] == Pad(micro, 6);
    assert s[27..|s| - 4] == rest[8..|rest| - 4] == Pad(pid, 1);
    assert s[19] == rest[0] && s[26] == rest[7] && s[|s| - 4..] == rest[|rest| - 4..];
  }

  lemma {:induction false} SixDigits(micro: nat)
    requires micro < 1000000
    ensures |Pad(micro, 6)| == 6
  {
    assert Power10(2) == 10 * Power10(1);
    assert Power10(4) == 100 * Power10(2);
    assert Power10(6) == 100 * Power10(4);
    hide Pad, Power10;
    PadDigits(micro, 6, 1000000);
  }

  lemma {:induction false} PidHasDigits(pid: nat)
    ensures Pad(pid, 1) != ""
  {
  }

  /** The same of a name generated at an instant: the fields of its second, and its microseconds. */
  lemma {:induction false} NameAtReads(cal: Calendar, pid: nat, p: nat)
    requires FourDigitYear(cal(p / 1000000))
    ensures var s, c := NameAt(cal, pid, p), cal(p / 1000000);
            && |s| > 31 && Decimal(s[..4]) == c.year && Decimal(s[5..7]) == c.month && Decimal(s[8..10]) == c.day
            && Decimal(s[11..13]) == c.hour && Decimal(s[14..16]) == c.minute && Decimal(s[17..19]) == c.second
            && Decimal(s[20..26]) == p % 1000000 && Decimal(s[27..|s| - 4]) == pid
  {
    hide Decimal, FileName, FourDigitYear;
    NameReads(Instant(cal(p / 1000000), p % 1000000), pid);
  }
}
