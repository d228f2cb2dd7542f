/**
 * How the logger prints a record (`src/logger/mod.rs`) and how the tracer recognises the start of
 * one (`src/trace/mod.rs`).
 */
module LogFormat {
  import opened Basics

  // ---------- numbers and dates ----------

  function Digit(n: nat): char
    requires n < 10
  {
    '0' + n as char
  }

  /** Decimal digits, padded with zeros on the left to at least `width`. */
  function Pad(n: nat, width: nat): string
    decreases n + width
  {
    if n == 0 && width == 0 then ""
    else Pad(n / 10, if width == 0 then 0 else width - 1) + [Digit(n % 10)]
  }

  /** The number that decimal digits stand for. */
  function Decimal(s: string): nat {
    if s == "" then 0
    else
      var c := s[|s| - 1];
      10 * Decimal(s[..|s| - 1]) + (if '0' <= c <= '9' then c as nat - '0' as nat else 0)
  }

  /** Padded digits read as the number that was printed. */
  lemma {:induction false} PadValue(n: nat, width: nat)
    ensures Decimal(Pad(n, width)) == n
    decreases n + width
  {
    if n > 0 || width > 0 {
      var less := if width == 0 then 0 else width - 1;
      PadValue(n / 10, less);
      assert Pad(n, width)[..|Pad(n, width)| - 1] == Pad(n / 10, less);
    }
  }

  /** The UTC calendar fields of a second. */
  datatype Civil = Civil(year: int, month: nat, day: nat, hour: nat, minute: nat, second: nat)

  /** The calendar library: the fields of a second counted from the epoch. */
  type Calendar = int -> Civil

  datatype Date = Date(year: int, month: nat, day: nat)

  function DateOf(c: Civil): Date {
    Date(c.year, c.month, c.day)
  }

  /** Two seconds share a date exactly when year, month and day agree. */
  lemma {:induction false} SameDate(a: Civil, b: Civil)
    ensures DateOf(a) == DateOf(b) <==> a.year == b.year && a.month == b.month && a.day == b.day
  {
  }

  /** Years print in four digits, and the other fields have the ranges of a calendar. */
  predicate FourDigitYear(c: Civil) {
    && 0 <= c.year <= 9999 && c.month <= 12 && c.day <= 31
    && c.hour < 24 && c.minute < 60 && c.second <= 60
  }

  /** `%Y`: four digits, or a sign and at least four digits outside the years 0 to 9999. */
  function YearText(year: int): string {
    if 0 <= year <= 9999 then Pad(year, 4)
    else if year > 9999 then "+" + Pad(year, 4)
    else "-" + Pad(-year, 4)
  }

  /** `%Y-%m-%dT%H:%M:%SZ` */
  function Stamp(c: Civil): string {
    YearText(c.year) + "-" + Pad(c.month, 2) + "-" + Pad(c.day, 2) + "T"
    + Pad(c.hour, 2) + ":" + Pad(c.minute, 2) + ":" + Pad(c.second, 2) + "Z"
  }

  // ---------- records ----------

  datatype Level = ERROR | WARN | INFO | DEBUG | TRACE

  function LevelName(l: Level): string {
    match l
    case ERROR => "ERROR"
    case WARN => "WARN"
    case INFO => "INFO"
    case DEBUG => "DEBUG"
    case TRACE => "TRACE"
  }

  /** `{:<5}` */
  function LevelText(l: Level): string {
    if |LevelName(l)| == 4 then LevelName(l) + " " else LevelName(l)
  }

  datatype Event = Event(level: Level, seconds: int, spans: Option<string>, message: string)

  function Text(e: Event): string {
    (if e.spans.Some? then e.spans.value else "") + e.message
  }

  function Header(datetime: string, l: Level): string {
    datetime + " " + LevelText(l) + " "
  }

  /** A record without its final line end. */
  function Body(datetime: string, e: Event): string {
    Header(datetime, e.level) + Text(e)
  }

  function Record(datetime: string, e: Event): string {
    Body(datetime, e) + "\n"
  }

  lemma {:induction false} LevelReads(l: Level)
    ensures LevelText(l) == match l
                            case ERROR => "ERROR"
                            case WARN => "WARN "
                            case INFO => "INFO "
                            case DEBUG => "DEBUG"
                            case TRACE => "TRACE"
  {
  }

  /**
   * A record, slice by slice: timestamp, the level in five characters, spans if there are any,
   * message, and one line end.
   */
  lemma {:induction false} RecordReads(datetime: string, e: Event)
    ensures var level := match e.level
                         case ERROR => "ERROR"
                         case WARN => "WARN "
                         case INFO => "INFO "
                         case DEBUG => "DEBUG"
                         case TRACE => "TRACE";
            var spans := if e.spans.Some? then e.spans.value else "";
            && Record(datetime, e) == datetime + " " + level + " " + spans + e.message + "\n"
            && Body(datetime, e) == datetime + " " + level + " " + spans + e.message
  {
    hide LevelText;
    LevelReads(e.level);
    var spans := if e.spans.Some? then e.spans.value else "";
    Regroup(Header(datetime, e.level), spans, e.message);
  }

  // ---------- the cached second ----------

  datatype Cache = Cache(datetime: string, second: int)

  const NO_CACHE := Cache("", 0)

  /** How a second is printed: `cal` and `Stamp` together, or any other such function. */
  type Stamper = int -> string

  function Stamps(cal: Calendar): Stamper {
    seconds => Stamp(cal(seconds))
  }

  /** The second is formatted again only when it differs from the cached one. */
  function Touch(stamp: Stamper, c: Cache, e: Event): Cache {
    if e.seconds != c.second then Cache(stamp(e.seconds), e.seconds) else c
  }

  /** The cache after these events. */
  function CacheAfter(stamp: Stamper, events: seq<Event>): Cache
    decreases |events|
  {
    if events == [] then NO_CACHE
    else Touch(stamp, CacheAfter(stamp, events[..|events| - 1]), events[|events| - 1])
  }

  /**
   * The timestamp printed for the last event is its own second, unless all events so far fall in
   * second zero of the epoch, which the empty cache claims to hold already.
   */
  lemma {:induction false} CacheExact(stamp: Stamper, events: seq<Event>)
    requires events != [] && stamp(events[|events| - 1].seconds) != ""
    ensures CacheAfter(stamp, events).datetime == stamp(events[|events| - 1].seconds)
            <==> exists i :: 0 <= i < |events| && events[i].seconds != 0
    ensures CacheAfter(stamp, events).second == events[|events| - 1].seconds
    decreases |events|
  {
    if i :| 0 <= i < |events| && events[i].seconds != 0 {
      CacheHolds(stamp, events);
    } else {
      AllZero(stamp, events);
    }
  }

  lemma {:induction false} CacheHolds(stamp: Stamper, events: seq<Event>)
    requires exists i :: 0 <= i < |events| && events[i].seconds != 0
    ensures var e := events[|events| - 1]; CacheAfter(stamp, events) == Cache(stamp(e.seconds), e.seconds)
    decreases |events|
  {
    var n := |events| - 1;
    var before := events[..n];
    if i :| 0 <= i < n && events[i].seconds != 0 {
      assert before[i].seconds != 0;
      CacheHolds(stamp, before);
    } else {
      AllZero(stamp, before);
    }
  }

  lemma {:induction false} AllZero(stamp: Stamper, events: seq<Event>)
    requires forall i :: 0 <= i < |events| ==> events[i].seconds == 0
    ensures CacheAfter(stamp, events) == NO_CACHE
    decreases |events|
  {
    if events != [] {
      AllZero(stamp, events[..|events| - 1]);
    }
  }

  lemma {:induction false} StampNotEmpty(c: Civil)
    ensures Stamp(c) != ""
  {
    assert Stamp(c)[|Stamp(c)| - 1] == 'Z';
  }

  // ---------- the entry start pattern ----------

  /** What Unicode says about characters outside ASCII: decimal digits, white space, word characters. */
  datatype CharTables = CharTables(digit: char -> bool, space: char -> bool, word: char -> bool)

  predicate Ascii(c: char) {
    c < 128 as char
  }

  /** `\d` */
  predicate IsDigit(u: CharTables, c: char) {
    if Ascii(c) then '0' <= c <= '9' else u.digit(c)
  }

  /** `\s` */
  predicate IsSpace(u: CharTables, c: char) {
    if Ascii(c) then c == ' ' || 9 as char <= c <= 13 as char else u.space(c)
  }

  /** `\w` */
  predicate IsWord(u: CharTables, c: char) {
    if Ascii(c) then '0' <= c <= '9' || 'a' <= c <= 'z' || 'A' <= c <= 'Z' || c == '_' else u.word(c)
  }

  predicate Digits(u: CharTables, s: string, from: nat, to: nat) {
    from <= to <= |s| && forall i | from <= i < to :: IsDigit(u, s[i])
  }

  /** `\d{4}-\d{2}-\d{2}[T\s]\d{2}:\d{2}:\d{2}` at the start of the line. */
  predicate StampShape(u: CharTables, s: string) {
    && |s| >= 19
    && Digits(u, s, 0, 4) && s[4] == '-' && Digits(u, s, 5, 7) && s[7] == '-' && Digits(u, s, 8, 10)
    && (s[10] == 'T' || IsSpace(u, s[10]))
    && Digits(u, s, 11, 13) && s[13] == ':' && Digits(u, s, 14, 16) && s[16] == ':' && Digits(u, s, 17, 19)
  }

  /** `(?:\.\d+)?` from `i` to `j` */
  predicate Fraction(u: CharTables, s: string, i: nat, j: nat) {
    j == i || (i + 1 < j <= |s| && s[i] == '.' && Digits(u, s, i + 1, j))
  }

  /** `Z?` from `j` to `k` */
  predicate Zulu(s: string, j: nat, k: nat) {
    k == j || (k == j + 1 <= |s| && s[j] == 'Z')
  }

  /** `\s+` from `k` to `m` */
  predicate Spaces(u: CharTables, s: string, k: nat, m: nat) {
    k < m <= |s| && forall i | k <= i < m :: IsSpace(u, s[i])
  }

  /** `\b` at `i` */
  predicate Boundary(u: CharTables, s: string, i: nat) {
    i <= |s| && (0 < i && IsWord(u, s[i - 1])) != (i < |s| && IsWord(u, s[i]))
  }

  const LEVEL_WORDS: seq<string> := ["TRACE", "DEBUG", "INFO", "WARN", "WARNING", "ERROR", "ERR", "FATAL"]

  /** `(?:TRACE|..|FATAL)\b` at `m` */
  predicate LevelWord(u: CharTables, s: string, m: nat) {
    exists i | 0 <= i < |LEVEL_WORDS| ::
      var w := LEVEL_WORDS[i];
      m + |w| <= |s| && s[m..m + |w|] == w && Boundary(u, s, m + |w|)
  }

  /** The pattern after its fixed first 19 characters: some choice of the optional parts fits. */
  predicate EntryTail(u: CharTables, s: string) {
    exists j | 0 <= j <= |s| ::
      Fraction(u, s, 19, j) && (EntryZone(u, s, j, j) || EntryZone(u, s, j, j + 1))
  }

  predicate EntryZone(u: CharTables, s: string, j: nat, k: nat) {
    Zulu(s, j, k) && exists m | 0 <= m <= |s| :: Spaces(u, s, k, m) && LevelWord(u, s, m)
  }

  /** ENTRY_START_PATTERN as a predicate on the characters of the line. */
  predicate EntryStart(u: CharTables, s: string) {
    StampShape(u, s) && EntryTail(u, s)
  }

  // ---------- the pattern as a concatenation ----------

  /** What the classes say of ASCII characters. */
  lemma {:induction false} AsciiClasses(u: CharTables, c: char)
    requires Ascii(c)
    ensures IsDigit(u, c) <==> c in {'0', '1', '2', '3', '4', '5', '6', '7', '8', '9'}
    ensures IsSpace(u, c) <==> c in {' ', '\t', '\n', '\r', 11 as char, 12 as char}
    ensures IsWord(u, c) <==>
              var n := c as int; 48 <= n <= 57 || 65 <= n <= 90 || 97 <= n <= 122 || n == 95
  {
  }

  /** `\d{n}` */
  ghost predicate DigitsText(u: CharTables, s: string, n: nat) {
    |s| == n && forall i | 0 <= i < n :: IsDigit(u, s[i])
  }

  /** A date, `T` or white space, and a time. */
  ghost predicate StampText(u: CharTables, d: string) {
    && |d| == 19
    && d == d[..4] + "-" + d[5..7] + "-" + d[8..10] + d[10..11] + d[11..13] + ":" + d[14..16] + ":" + d[17..]
    && DigitsText(u, d[..4], 4) && DigitsText(u, d[5..7], 2) && DigitsText(u, d[8..10], 2)
    && (d[10] == 'T' || IsSpace(u, d[10]))
    && DigitsText(u, d[11..13], 2) && DigitsText(u, d[14..16], 2) && DigitsText(u, d[17..], 2)
  }

  /** Nothing, or a dot and digits. */
  ghost predicate FractionText(u: CharTables, f: string) {
    f == "" || (|f| > 1 && f == "." + f[1..] && DigitsText(u, f[1..], |f| - 1))
  }

  ghost predicate ZuluText(z: string) {
    z == "" || z == "Z"
  }

  ghost predicate GapText(u: CharTables, gap: string) {
    gap != "" && forall i | 0 <= i < |gap| :: IsSpace(u, gap[i])
  }

  ghost predicate WordText(w: string) {
    w in {"TRACE", "DEBUG", "INFO", "WARN", "WARNING", "ERROR", "ERR", "FATAL"}
  }

  ghost predicate RestText(u: CharTables, rest: string) {
    rest == "" || !IsWord(u, rest[0])
  }

  /** A timestamp, perhaps a fraction, perhaps `Z`, white space, a level word, and no word character after it. */
  ghost predicate EntryText(u: CharTables, s: string, d: string, f: string, z: string, gap: string, w: string,
                            rest: string) {
    && StampText(u, d) && FractionText(u, f) && ZuluText(z) && GapText(u, gap) && WordText(w) && RestText(u, rest)
    && s == d + f + z + gap + w + rest
  }

  /** The parts one after the other, and where they end. */
  lemma {:induction false} PartsOf(s: string, d: string, f: string, z: string, gap: string, w: string, rest: string)
    requires s == d + f + z + gap + w + rest
    ensures var i := |d|; var j := i + |f|; var k := j + |z|; var m := k + |gap|; var n := m + |w|;
            && n <= |s| && s[..i] == d && s[i..j] == f && s[j..k] == z && s[k..m] == gap && s[m..n] == w
            && s[n..] == rest
  {
  }

  lemma {:induction false} CutParts(s: string, i: nat, j: nat, k: nat, m: nat, n: nat)
    requires i <= j <= k <= m <= n <= |s|
    ensures s == s[..i] + s[i..j] + s[j..k] + s[k..m] + s[m..n] + s[n..]
  {
  }

  lemma {:induction false} StampIs(u: CharTables, s: string)
    requires |s| >= 19
    ensures StampShape(u, s) <==> StampText(u, s[..19])
  {
    var d := s[..19];
    assert forall i | 0 <= i < 19 :: d[i] == s[i];
    if StampShape(u, s) {
      assert d == d[..4] + "-" + d[5..7] + "-" + d[8..10] + d[10..11] + d[11..13] + ":" + d[14..16] + ":" + d[17..];
    }
    if StampText(u, d) {
      StampSeparators(d);
      DigitsAt(u, d, 0, 4);
      DigitsAt(u, d, 5, 7);
      DigitsAt(u, d, 8, 10);
      DigitsAt(u, d, 11, 13);
      DigitsAt(u, d, 14, 16);
      DigitsAt(u, d, 17, 19);
    }
  }

  lemma {:induction false} StampSeparators(d: string)
    requires |d| == 19
    requires d == d[..4] + "-" + d[5..7] + "-" + d[8..10] + d[10..11] + d[11..13] + ":" + d[14..16] + ":" + d[17..]
    ensures d[4] == d[7] == '-' && d[13] == d[16] == ':'
  {
  }

  lemma {:induction false} DigitsAt(u: CharTables, d: string, from: nat, to: nat)
    requires from <= to <= |d|
    ensures DigitsText(u, d[from..to], to - from) <==> Digits(u, d, from, to)
  {
    assert forall i | from <= i < to :: d[i] == d[from..to][i - from];
  }

  lemma {:induction false} LevelIs(u: CharTables, s: string, m: nat)
    ensures LevelWord(u, s, m) <==>
              exists n :: m <= n <= |s| && WordText(s[m..n]) && RestText(u, s[n..])
  {
    if LevelWord(u, s, m) {
      var i :| 0 <= i < |LEVEL_WORDS| &&
        var w := LEVEL_WORDS[i];
        m + |w| <= |s| && s[m..m + |w|] == w && Boundary(u, s, m + |w|);
      LevelHere(u, s, m, i);
      assert WordText(s[m..m + |LEVEL_WORDS[i]|]) && RestText(u, s[m + |LEVEL_WORDS[i]|..]);
    }
    if n :| m <= n <= |s| && WordText(s[m..n]) && RestText(u, s[n..]) {
      hide WordText, RestText, Boundary;
      WordIndex(s[m..n]);
      var i :| 0 <= i < |LEVEL_WORDS| && LEVEL_WORDS[i] == s[m..n];
      LevelHere(u, s, m, i);
    }
  }

  /** A level word is a word of the list, and a boundary behind it is a rest that does not continue it. */
  lemma {:induction false} LevelHere(u: CharTables, s: string, m: nat, i: nat)
    requires i < |LEVEL_WORDS|
    requires var w := LEVEL_WORDS[i]; m + |w| <= |s| && s[m..m + |w|] == w
    ensures WordText(LEVEL_WORDS[i])
    ensures var n := m + |LEVEL_WORDS[i]|; Boundary(u, s, n) <==> RestText(u, s[n..])
  {
    hide IsWord;
    var n := m + |LEVEL_WORDS[i]|;
    WordEnds(u, i);
    assert s[n - 1] == s[m..n][n - m - 1];
    assert n < |s| ==> s[n..][0] == s[n];
  }

  lemma {:induction false} WordIndex(w: string)
    requires WordText(w)
    ensures exists i :: 0 <= i < |LEVEL_WORDS| && LEVEL_WORDS[i] == w
  {
    assert LEVEL_WORDS[0] == "TRACE" && LEVEL_WORDS[1] == "DEBUG";
    assert LEVEL_WORDS[2] == "INFO" && LEVEL_WORDS[3] == "WARN";
    assert LEVEL_WORDS[4] == "WARNING" && LEVEL_WORDS[5] == "ERROR";
    assert LEVEL_WORDS[6] == "ERR" && LEVEL_WORDS[7] == "FATAL";
  }

  lemma {:induction false} FractionIs(u: CharTables, s: string, i: nat, j: nat)
    requires i <= j <= |s|
    ensures Fraction(u, s, i, j) <==> FractionText(u, s[i..j])
  {
    var f := s[i..j];
    if j > i + 1 {
      DigitsAt(u, s, i + 1, j);
      assert f[1..] == s[i + 1..j] && f[0] == s[i];
      assert f == f[..1] + f[1..];
      assert f == "." + f[1..] <==> f[0] == '.';
    }
  }

  lemma {:induction false} ZuluIs(s: string, j: nat, k: nat)
    requires j <= k <= |s|
    ensures Zulu(s, j, k) <==> ZuluText(s[j..k])
  {
    if k == j + 1 { assert s[j..k] == [s[j]]; }
  }

  lemma {:induction false} SpacesIs(u: CharTables, s: string, k: nat, m: nat)
    requires k <= m <= |s|
    ensures Spaces(u, s, k, m) <==> GapText(u, s[k..m])
  {
    assert forall i | k <= i < m :: s[i] == s[k..m][i - k];
  }

  /**
   * The pattern, both ways: a line starts an entry exactly when it is a timestamp, perhaps a
   * fraction, perhaps `Z`, white space, a level word and a rest that does not continue the word.
   */
  lemma {:induction false} EntryStartIs(u: CharTables, s: string)
    ensures EntryStart(u, s) <==> exists d, f, z, gap, w, rest :: EntryText(u, s, d, f, z, gap, w, rest)
  {
    if EntryStart(u, s) { EntryHasParts(u, s); }
    if d, f, z, gap, w, rest :| EntryText(u, s, d, f, z, gap, w, rest) { PartsAreEntry(u, s, d, f, z, gap, w, rest); }
  }

  /** Where the parts of an entry line end. */
  lemma {:induction false} EntryCuts(u: CharTables, s: string) returns (j: nat, k: nat, m: nat, n: nat)
    requires EntryStart(u, s)
    ensures 19 <= j <= k <= m <= n <= |s| && StampShape(u, s)
    ensures Fraction(u, s, 19, j) && Zulu(s, j, k) && Spaces(u, s, k, m) && WordText(s[m..n]) && RestText(u, s[n..])
  {
    hide StampShape, Fraction, Zulu, Spaces, LevelWord, WordText, RestText;
    j :| 0 <= j <= |s| && Fraction(u, s, 19, j) && (EntryZone(u, s, j, j) || EntryZone(u, s, j, j + 1));
    k := if EntryZone(u, s, j, j) then j else j + 1;
    m :| 0 <= m <= |s| && Spaces(u, s, k, m) && LevelWord(u, s, m);
    ZoneBounds(u, s, j, k, m);
    LevelIs(u, s, m);
    n :| m <= n <= |s| && WordText(s[m..n]) && RestText(u, s[n..]);
  }

  lemma {:induction false} EntryHasParts(u: CharTables, s: string)
    requires EntryStart(u, s)
    ensures exists d, f, z, gap, w, rest :: EntryText(u, s, d, f, z, gap, w, rest)
  {
    hide EntryStart, StampShape, StampText, Fraction, FractionText, Zulu, ZuluText, Spaces, GapText, LevelWord,
         WordText, RestText;
    var j, k, m, n := EntryCuts(u, s);
    StampIs(u, s);
    FractionIs(u, s, 19, j);
    ZuluIs(s, j, k);
    SpacesIs(u, s, k, m);
    CutParts(s, 19, j, k, m, n);
    assert EntryText(u, s, s[..19], s[19..j], s[j..k], s[k..m], s[m..n], s[n..]);
  }

  lemma {:induction false} ZoneBounds(u: CharTables, s: string, j: nat, k: nat, m: nat)
    requires StampShape(u, s) && Fraction(u, s, 19, j) && Zulu(s, j, k) && Spaces(u, s, k, m)
    ensures 19 <= j <= k <= m <= |s|
  {
  }

  lemma {:induction false} PartsAreEntry(u: CharTables, s: string, d: string, f: string, z: string, gap: string,
                                         w: string, rest: string)
    requires EntryText(u, s, d, f, z, gap, w, rest)
    ensures EntryStart(u, s)
  {
    PartsOf(s, d, f, z, gap, w, rest);
    assert |d| == 19;
    hide StampShape, StampText, Fraction, FractionText, Zulu, ZuluText, Spaces, GapText, LevelWord, WordText, RestText;
    var j := 19 + |f|;
    var k := j + |z|;
    var m := k + |gap|;
    var n := m + |w|;
    StampIs(u, s);
    FractionIs(u, s, 19, j);
    ZuluIs(s, j, k);
    SpacesIs(u, s, k, m);
    assert WordText(s[m..n]) && RestText(u, s[n..]);
    LevelIs(u, s, m);
    assert EntryZone(u, s, j, k) && (k == j || k == j + 1) by { ZuluLength(z); }
  }

  lemma {:induction false} ZuluLength(z: string)
    requires ZuluText(z)
    ensures |z| <= 1
  {
  }

  /** A line does not start an entry when it does not begin with a timestamp. */
  lemma {:induction false} NoStampNoEntry(u: CharTables, s: string)
    requires |s| < 19 || !StampText(u, s[..19])
    ensures !EntryStart(u, s)
  {
    if |s| >= 19 { StampIs(u, s); }
  }

  lemma {:induction false} LevelBehind(u: CharTables, s: string)
    requires EntryStart(u, s)
    ensures exists m, n :: 20 <= m <= n <= |s| && WordText(s[m..n])
  {
    EntryStartIs(u, s);
    var d, f, z, gap, w, rest :| EntryText(u, s, d, f, z, gap, w, rest);
    PartsOf(s, d, f, z, gap, w, rest);
    var m := |d| + |f| + |z| + |gap|;
    assert WordText(s[m..m + |w|]);
  }

  /** Nor when there is no level word anywhere behind the place of the timestamp. */
  lemma {:induction false} NoLevelNoEntry(u: CharTables, s: string)
    requires forall m, n | 20 <= m <= n <= |s| :: !WordText(s[m..n])
    ensures !EntryStart(u, s)
  {
    if EntryStart(u, s) { LevelBehind(u, s); }
  }

  // ---------- a printed header is recognised ----------

  /** A number that fits its width prints in exactly that many digits. */
  lemma {:induction false} PadDigits(n: nat, width: nat, limit: nat)
    requires n < limit && limit == Power10(width)
    ensures |Pad(n, width)| == width
    ensures forall i | 0 <= i < width :: '0' <= Pad(n, width)[i] <= '9'
    decreases width
  {
    if width > 0 {
      var digit := Digit(n % 10);
      var less := Power10(width - 1);
      assert limit == 10 * less;
      hide Power10;
      assert n / 10 < less;
      PadDigits(n / 10, width - 1, less);
      assert Pad(n, width) == Pad(n / 10, width - 1) + [digit];
      hide Pad;
      assert '0' <= digit <= '9';
    }
  }

  function Power10(width: nat): (p: nat)
    ensures p > 0
  {
    if width == 0 then 1 else 10 * Power10(width - 1)
  }

  lemma {:induction false} StampParts(c: Civil)
    requires FourDigitYear(c)
    ensures var s := Stamp(c);
            && |s| == 20
            && (forall i | 0 <= i < 4 || i == 5 || i == 6 || i == 8 || i == 9 || i == 11 || i == 12
                        || i == 14 || i == 15 || i == 17 || i == 18 :: '0' <= s[i] <= '9')
            && s[4] == '-' && s[7] == '-' && s[10] == 'T' && s[13] == ':' && s[16] == ':' && s[19] == 'Z'
  {
    assert Power10(2) == 10 * Power10(1);
    assert Power10(4) == 100 * Power10(2);
    PadDigits(c.year, 4, 10000);
    PadDigits(c.month, 2, 100);
    PadDigits(c.day, 2, 100);
    PadDigits(c.hour, 2, 100);
    PadDigits(c.minute, 2, 100);
    PadDigits(c.second, 2, 100);
  }

  /** Six fields between separators, the first of four digits and the others of two. */
  lemma {:induction false} FieldSlices(y: string, mo: string, d: string, h: string, mi: string, sec: string,
                                       a: string, b: string, c: string, e: string, f: string, rest: string)
    requires |y| == 4 && |mo| == |d| == |h| == |mi| == |sec| == 2
    requires |a| == |b| == |c| == |e| == |f| == 1
    ensures var s := y + a + mo + b + d + c + h + e + mi + f + sec + rest;
            && |s| == 19 + |rest| && s[..4] == y && s[4..5] == a && s[5..7] == mo && s[7..8] == b && s[8..10] == d
            && s[10..11] == c && s[11..13] == h && s[13..14] == e && s[14..16] == mi && s[16..17] == f
            && s[17..19] == sec && s[19..] == rest
  {
  }

  /** Which calendar field stands at which position of a timestamp. */
  lemma {:induction false} StampReads(c: Civil)
    requires FourDigitYear(c)
    ensures var s := Stamp(c);
            && |s| == 20
            && Decimal(s[..4]) == c.year && Decimal(s[5..7]) == c.month && Decimal(s[8..10]) == c.day
            && Decimal(s[11..13]) == c.hour && Decimal(s[14..16]) == c.minute && Decimal(s[17..19]) == c.second
            && s[4..5] == s[7..8] == "-" && s[10..11] == "T" && s[13..14] == s[16..17] == ":" && s[19..] == "Z"
  {
    FieldWidths(c);
    FieldValues(c);
    FieldSlices(Pad(c.year, 4), Pad(c.month, 2), Pad(c.day, 2), Pad(c.hour, 2), Pad(c.minute, 2), Pad(c.second, 2),
                "-", "-", "T", ":", ":", "Z");
  }

  lemma {:induction false} FieldWidths(c: Civil)
    requires FourDigitYear(c)
    ensures |Pad(c.year, 4)| == 4 && |Pad(c.month, 2)| == |Pad(c.day, 2)| == 2
    ensures |Pad(c.hour, 2)| == |Pad(c.minute, 2)| == |Pad(c.second, 2)| == 2
  {
    hide Pad;
    assert Power10(2) == 10 * Power10(1);
    assert Power10(4) == 100 * Power10(2);
    PadDigits(c.year, 4, 10000);
    PadDigits(c.month, 2, 100);
    PadDigits(c.day, 2, 100);
    PadDigits(c.hour, 2, 100);
    PadDigits(c.minute, 2, 100);
    PadDigits(c.second, 2, 100);
  }

  lemma {:induction false} FieldValues(c: Civil)
    requires FourDigitYear(c)
    ensures Decimal(Pad(c.year, 4)) == c.year && Decimal(Pad(c.month, 2)) == c.month && Decimal(Pad(c.day, 2)) == c.day
    ensures Decimal(Pad(c.hour, 2)) == c.hour && Decimal(Pad(c.minute, 2)) == c.minute
    ensures Decimal(Pad(c.second, 2)) == c.second
  {
    hide Pad, Decimal;
    PadValue(c.year, 4);
    PadValue(c.month, 2);
    PadValue(c.day, 2);
    PadValue(c.hour, 2);
    PadValue(c.minute, 2);
    PadValue(c.second, 2);
  }

  /** A year outside the four digits has a sign, and reads as the year too. */
  lemma {:induction false} YearReads(year: int)
    ensures 0 <= year <= 9999 ==> Decimal(YearText(year)) == year
    ensures year > 9999 ==> YearText(year)[..1] == "+" && Decimal(YearText(year)[1..]) == year
    ensures year < 0 ==> YearText(year)[..1] == "-" && Decimal(YearText(year)[1..]) == -year
  {
    PadValue(if year < 0 then -year else year, 4);
  }

  lemma {:induction false} WordFits(u: CharTables, before: string, i: nat, tail: string)
    requires i < |LEVEL_WORDS| && tail != "" && tail[0] == ' '
    ensures LevelWord(u, before + (LEVEL_WORDS[i] + tail), |before|)
  {
    hide IsWord;
    var w := LEVEL_WORDS[i];
    var s := before + (w + tail);
    var m := |before|;
    assert s[m..m + |w|] == w && s[m + |w|] == ' ';
    assert s[m + |w| - 1] == w[|w| - 1];
    WordEnds(u, i);
    assert Boundary(u, s, m + |w|);
  }

  lemma {:induction false} WordEnds(u: CharTables, i: nat)
    requires i < |LEVEL_WORDS|
    ensures LEVEL_WORDS[i] != "" && IsWord(u, LEVEL_WORDS[i][|LEVEL_WORDS[i]| - 1]) && !IsWord(u, ' ')
  {
  }

  lemma {:induction false} LevelFits(u: CharTables, before: string, l: Level, more: string)
    ensures LevelWord(u, before + (LevelText(l) + " " + more), |before|)
  {
    hide LevelWord;
    var tail := if |LevelName(l)| == 4 then "  " + more else " " + more;
    assert LevelText(l) + " " + more == LevelName(l) + tail;
    WordFits(u, before, match l case ERROR => 5 case WARN => 3 case INFO => 2 case DEBUG => 1 case TRACE => 0, tail);
  }

  /** Whatever follows it on its line, a printed header starts an entry. */
  lemma {:induction false} HeaderStartsEntry(u: CharTables, c: Civil, l: Level, more: string)
    requires FourDigitYear(c)
    ensures EntryStart(u, Header(Stamp(c), l) + more)
  {
    hide Stamp, LevelText, LevelWord, FourDigitYear;
    var s := Header(Stamp(c), l) + more;
    var before := Stamp(c) + " ";
    StampParts(c);
    assert s == before + (LevelText(l) + " " + more);
    assert forall i | 0 <= i < 20 :: s[i] == Stamp(c)[i];
    LevelFits(u, before, l, more);
    assert Fraction(u, s, 19, 19) && Zulu(s, 19, 20) && Spaces(u, s, 20, 21);
    assert EntryZone(u, s, 19, 20);
  }

  /** A header without a timestamp, as the empty cache prints it, does not start an entry. */
  lemma {:induction false} EmptyStampNoEntry(u: CharTables, l: Level, more: string)
    ensures !EntryStart(u, Header("", l) + more)
  {
  }
}
