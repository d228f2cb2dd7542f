/** The buffered file reader: `src/file/file.rs` over tokio's `BufReader`. */
module BufferedFile {
  import opened Basics
  import opened PatternSearch

  newtype byte = b: int | 0 <= b < 256

  const NEWLINE: byte := 10
  const CHUNK: nat := 1024
  const CAPACITY: nat := 8192

  class File {
    var data: seq<byte>       // the contents of the file
    var inner: nat            // the position of the unbuffered file
    var remainder: seq<byte>  // bytes read from the file and not handed out yet
    const reliable: bool      // when false, any operation on the file may fail

    ghost predicate Valid()
      reads this
    {
      && |remainder| <= inner
      && (remainder != [] ==> inner <= |data| && remainder == data[inner - |remainder|..inner])
    }

    /** The position the user of the file sees. */
    function Cursor(): nat
      requires |remainder| <= inner
      reads this
    {
      inner - |remainder|
    }

    /** The contents from the cursor on. */
    function Rest(): seq<byte>
      requires |remainder| <= inner
      reads this
    {
      if Cursor() <= |data| then data[Cursor()..] else []
    }

    constructor (contents: seq<byte>, reliable: bool)
      ensures Valid() && data == contents && Cursor() == 0 && this.reliable == reliable
    {
      data, inner, remainder, this.reliable := contents, 0, [], reliable;
    }

    /** Refills the buffer when it is empty; the file returns as many bytes as it likes. */
    method FillBuf() returns (r: Result<seq<byte>>)
      requires Valid()
      modifies this`inner, this`remainder
      ensures Valid() && Cursor() == old(Cursor()) && Rest() == old(Rest())
      ensures reliable ==> r.Ok?
      ensures r.Ok? ==> r.value == remainder <= Rest() && (remainder == [] <==> Rest() == [])
    {
      if remainder == [] && inner < |data| {
        var ok: bool := *;
        if !ok && !reliable { return Err; }
        var n: nat :| 1 <= n <= CAPACITY && inner + n <= |data|;
        remainder := data[inner..inner + n];
        inner := inner + n;
      }
      return Ok(remainder);
    }

    /** `AsyncBufRead::consume`, returning the bytes it takes off the buffer. */
    method Consume(n: nat) returns (taken: seq<byte>)
      requires Valid() && n <= |remainder|
      modifies this`remainder
      ensures Valid()
      ensures taken == old(remainder)[..n] && taken + Rest() == old(Rest())
      ensures Cursor() == old(Cursor()) + n
    {
      taken := remainder[..n];
      remainder := remainder[n..];
    }

    /** `AsyncRead::read` into a chunk of `max` bytes. */
    method Read(max: nat) returns (r: Result<seq<byte>>)
      requires Valid() && 0 < max < CAPACITY
      modifies this`inner, this`remainder
      ensures Valid()
      ensures reliable ==> r.Ok?
      ensures r.Err? ==> Cursor() == old(Cursor())
      ensures r.Ok? ==> r.value + Rest() == old(Rest()) && |r.value| <= max
      ensures r.Ok? ==> Cursor() == old(Cursor()) + |r.value|
      ensures r.Ok? ==> (r.value == [] <==> old(Rest()) == [])
    {
      var filled := FillBuf();
      if filled.Err? { return Err; }
      var n := if |remainder| < max then |remainder| else max;
      var bytes := Consume(n);
      return Ok(bytes);
    }

    /**
     * `seek(SeekFrom::Current(offset))`: the buffered reader corrects the offset by what it holds
     * and drops its buffer.
     */
    method SeekCurrent(offset: int) returns (r: Result<nat>)
      requires Valid()
      modifies this`inner, this`remainder
      ensures Valid()
      ensures reliable && 0 <= old(Cursor()) + offset ==> r.Ok?
      ensures r.Err? ==> Cursor() == old(Cursor())
      ensures r.Ok? ==> r.value == Cursor() == old(Cursor()) + offset
    {
      var ok: bool := *;
      var target := inner + (offset - |remainder|);
      if target < 0 || (!ok && !reliable) { return Err; }
      inner, remainder := target, [];
      return Ok(inner);
    }

    method SeekStart(position: nat) returns (r: Result<nat>)
      requires Valid()
      modifies this`inner, this`remainder
      ensures Valid()
      ensures reliable ==> r.Ok?
      ensures r.Ok? ==> r.value == Cursor() == position && remainder == []
      ensures r.Err? ==> Cursor() == old(Cursor())
    {
      var ok: bool := *;
      if !ok && !reliable { return Err; }
      inner, remainder := position, [];
      return Ok(position);
    }

    /** Returns bytes that were read too far to the stream. */
    method PushBack(count: nat) returns (r: Result<()>)
      requires Valid() && count <= Cursor()
      modifies this`inner, this`remainder
      ensures Valid()
      ensures reliable ==> r.Ok?
      ensures r.Ok? ==> Cursor() == old(Cursor()) - count
    {
      if count > 0 {
        var offset: int := 0 - count;
        var seek := SeekCurrent(offset);
        if seek.Err? { return Err; }
      }
      return Ok(());
    }

    /**
     * Reads until a byte pattern is found. Result and new cursor are those of `Until` on the rest
     * of the file, whatever the sizes of the chunks the file returns.
     */
    method ReadUntilPattern(stop: seq<byte>, captEof: bool) returns (r: Result<Option<seq<byte>>>)
      requires Valid() && stop != []
      modifies this`inner, this`remainder
      ensures Valid()
      ensures reliable ==> r.Ok?
      ensures r.Ok? ==> r.value == Until(old(Rest()), stop, captEof).piece
      ensures r.Ok? ==> Cursor() == old(Cursor()) + Until(old(Rest()), stop, captEof).used
      ensures r.Ok? ==> ReadsUpTo(old(Rest()), stop, captEof, r.value, Rest())
      ensures r == Ok(None) ==> Cursor() == old(Cursor())
    {
      hide Until, Find, MatchAt, ReadsUpTo;
      ghost var rest := Rest();
      ghost var start := Cursor();
      var buffer: seq<byte> := [];
      UntilIs(rest, stop, captEof);
      NotThere([], stop);
      while true
        invariant Valid() && Cursor() == start + |buffer|
        invariant buffer + Rest() == rest
        invariant Find(buffer, stop, 0).None?
        decreases |Rest()|
      {
        var got := Read(CHUNK);
        if got.Err? { return Err; }
        var chunk := got.value;
        var n := |chunk|;
        if n == 0 {
          assert buffer == rest;
          UntilNone(rest, stop, captEof);
          if captEof && buffer != [] { return Ok(Some(buffer)); }
          var back := PushBack(|buffer|);
          return if back.Ok? then Ok(None) else Err;
        }
        SearchTailIsFind(buffer, chunk, stop);
        Regroup(buffer, chunk, Rest());
        buffer := buffer + chunk;
        var position := SearchTail(buffer, n, stop);
        if position.Some? {
          var matchEnd := position.value + |stop|;
          var overRead := |buffer| - matchEnd;
          assert overRead < n;
          UntilFound(rest, buffer, stop, captEof);
          var back := PushBack(overRead);
          return if back.Ok? then Ok(Some(buffer[..position.value])) else Err;
        }
      }
    }

    /** `AsyncBufReadExt::read_until`: collects bytes, refill by refill, up to the stop byte and with it. */
    method Collect(stop: byte) returns (r: Result<seq<byte>>)
      requires Valid()
      modifies this`inner, this`remainder
      ensures Valid()
      ensures reliable ==> r.Ok?
      ensures r.Ok? ==> r.value + Rest() == old(Rest()) && Cursor() == old(Cursor()) + |r.value|
      ensures r.Ok? ==> Rest() == [] || Find(r.value, [stop], 0).Some?
      ensures r.Ok? && Find(r.value, [stop], 0).Some? ==> Find(r.value, [stop], 0) == Some(|r.value| - 1)
    {
      hide Find, MatchAt;
      ghost var rest := Rest();
      ghost var start := Cursor();
      var buffer: seq<byte> := [];
      var found := false;
      NotThere(buffer, [stop]);
      while !found
        invariant Valid() && Cursor() == start + |buffer|
        invariant buffer + Rest() == rest
        invariant Find(buffer, [stop], 0) == if found then Some(|buffer| - 1) else None
        decreases |Rest()|, !found
      {
        var filled := FillBuf();
        if filled.Err? { return Err; }
        var available := filled.value;
        if available == [] { break; }
        var at := Find(available, [stop], 0);
        var used := if at.Some? then at.value + 1 else |available|;
        var taken := Consume(used);
        CollectMore(buffer, available, taken, stop);
        Regroup(buffer, taken, Rest());
        buffer := buffer + taken;
        found := at.Some?;
      }
      return Ok(buffer);
    }

    /** Reads until a byte is found. */
    method ReadUntil(stop: byte) returns (r: Result<Option<seq<byte>>>)
      requires Valid()
      modifies this`inner, this`remainder
      ensures Valid()
      ensures reliable ==> r.Ok?
      ensures r.Ok? ==> r.value == Until(old(Rest()), [stop], true).piece
      ensures r.Ok? ==> Cursor() == old(Cursor()) + Until(old(Rest()), [stop], true).used
      ensures r.Ok? ==> Rest() == old(Rest())[Until(old(Rest()), [stop], true).used..]
      ensures r.Ok? ==> ByteRead(old(Rest()), stop, r.value, Rest())
    {
      hide Until, Find, MatchAt, ByteRead;
      ghost var rest := Rest();
      UntilByteIs(rest, stop);
      var collected := Collect(stop);
      if collected.Err? { return Err; }
      var buffer := collected.value;
      UntilByte(rest, buffer, Rest(), stop);
      if buffer == [] { return Ok(None); }
      if buffer[|buffer| - 1] == stop { buffer := buffer[..|buffer| - 1]; }
      return Ok(Some(buffer));
    }

    method ReadLine() returns (r: Result<Option<seq<byte>>>)
      requires Valid()
      modifies this`inner, this`remainder
      ensures Valid()
      ensures reliable ==> r.Ok?
      ensures r.Ok? ==> r.value == Until(old(Rest()), [NEWLINE], true).piece
      ensures r.Ok? ==> Cursor() == old(Cursor()) + Until(old(Rest()), [NEWLINE], true).used
      ensures r.Ok? ==> Rest() == old(Rest())[Until(old(Rest()), [NEWLINE], true).used..]
    {
      r := ReadUntil(NEWLINE);
    }

    /** Reads all the remaining lines; `JoinSplit` says how they rebuild the file. */
    method ReadLines() returns (r: Result<seq<seq<byte>>>)
      requires Valid()
      modifies this`inner, this`remainder
      ensures Valid()
      ensures reliable ==> r.Ok?
      ensures r.Ok? ==> r.value == Split(old(Rest()), [NEWLINE]) && Rest() == []
    {
      hide Until, Split, Find, MatchAt;
      var lines: seq<seq<byte>> := [];
      ghost var rest := Rest();
      while true
        invariant Valid()
        invariant lines + Split(Rest(), [NEWLINE]) == Split(rest, [NEWLINE])
        decreases |Rest()|
      {
        NextPiece(Rest(), NEWLINE);
        var line := ReadLine();
        if line.Err? { return Err; }
        if line.value.None? { return Ok(lines); }
        Regroup(lines, [line.value.value], Split(Rest(), [NEWLINE]));
        lines := lines + [line.value.value];
      }
    }

    /** Replaces the contents; a failure leaves the old contents or a prefix of the new ones. */
    method RewriteAll(contents: seq<byte>) returns (r: Result<()>)
      requires Valid()
      modifies this`data, this`inner, this`remainder
      ensures Valid()
      ensures reliable ==> r.Ok?
      ensures r.Ok? ==> data == contents && Cursor() == |contents|
      ensures r.Err? ==> data == old(data) || data <= contents
    {
      var seek := SeekStart(0);
      if seek.Err? { return Err; }
      var truncated: bool := *;
      if !truncated && !reliable { return Err; }
      data := [];
      var written: nat :| written <= |contents| && (reliable ==> written == |contents|);
      data, inner := contents[..written], written;
      if written < |contents| { return Err; }
      var flushed: bool := *;
      return if flushed || reliable then Ok(()) else Err;
    }
  }

  /** The search of the last `n + |stop| - 1` bytes of the buffer, as a position in the buffer. */
  function SearchTail(buffer: seq<byte>, n: nat, stop: seq<byte>): Option<nat>
    requires n <= |buffer| && stop != []
  {
    var searchStart := if |buffer| > n + |stop| - 1 then |buffer| - (n + |stop| - 1) else 0;
    Shift(Find(buffer[searchStart..], stop, 0), searchStart)
  }

  lemma {:induction false} SearchTailIsFind(buffer: seq<byte>, chunk: seq<byte>, stop: seq<byte>)
    requires stop != [] && Find(buffer, stop, 0).None?
    ensures var r := SearchTail(buffer + chunk, |chunk|, stop);
            r == Find(buffer + chunk, stop, 0) && (r.Some? ==> |buffer| < r.value + |stop|)
  {
    OverlapSuffices(buffer, chunk, stop, if |buffer| >= |stop| - 1 then |buffer| - (|stop| - 1) else 0);
  }

  /** A read up to one byte, without a search. */
  ghost predicate ByteRead(rest: seq<byte>, x: byte, piece: Option<seq<byte>>, ahead: seq<byte>) {
    && (rest == [] ==> piece.None? && ahead == [])
    && (x !in rest && rest != [] ==> piece == Some(rest) && ahead == [])
    && (x in rest ==> piece.Some? && x !in piece.value && piece.value + [x] + ahead == rest)
  }

  lemma {:induction false} OccursByte(rest: seq<byte>, x: byte)
    ensures Occurs(rest, [x]) <==> x in rest
  {
    if i: nat :| i < |rest| && rest[i] == x {
      assert rest[i..i + 1] == [x];
      assert MatchAt(rest, [x], i);
    }
    if i: nat :| MatchAt(rest, [x], i) {
      assert rest[i..i + 1][0] == rest[i];
    }
  }

  lemma {:induction false} UntilByteIs(rest: seq<byte>, x: byte)
    ensures var c := Until(rest, [x], true); ByteRead(rest, x, c.piece, rest[c.used..])
  {
    UntilIs(rest, [x], true);
    OccursByte(rest, x);
    hide Until;
    if x in rest {
      var piece := Until(rest, [x], true).piece.value;
      forall j: nat | j < |piece| ensures piece[j] != x {
        assert !MatchAt(rest, [x], j);
        assert rest[j..j + 1] == [rest[j]];
        assert rest[j] == piece[j];
      }
    }
  }

  /** A read that yields nothing is at the end; any other takes the first piece off and makes progress. */
  lemma {:induction false} NextPiece(rest: seq<byte>, x: byte)
    ensures var c := Until(rest, [x], true);
            if c.piece.None? then rest == [] && Split(rest, [x]) == []
            else && |rest[c.used..]| < |rest|
                 && Split(rest, [x]) == [c.piece.value] + Split(rest[c.used..], [x])
  {
    var c := Until(rest, [x], true);
    if rest != [] {
      SplitStep(rest, [x], c.piece.value, rest[c.used..]);
    }
  }

  /** Taking the refilled bytes up to the stop byte, or all of them, keeps the search exact. */
  lemma {:induction false} CollectMore(buffer: seq<byte>, available: seq<byte>, taken: seq<byte>, x: byte)
    requires Find(buffer, [x], 0).None?
    requires taken == match Find(available, [x], 0) case Some(i) => available[..i + 1] case None => available
    ensures Find(buffer + taken, [x], 0) ==
            if Find(available, [x], 0).Some? then Some(|buffer + taken| - 1) else None
  {
    OverlapSuffices(buffer, taken, [x], |buffer|);
    assert (buffer + taken)[|buffer|..] == taken;
    if Find(available, [x], 0).Some? {
      var i := Find(available, [x], 0).value;
      FindIsFirst(available, [x], 0);
      assert available == taken + available[i + 1..];
      forall j: nat | j <= i ensures MatchAt(taken, [x], j) <==> MatchAt(available, [x], j) {
        MatchInPrefix(taken, available[i + 1..], [x], j);
      }
      FindIs(taken, [x], i);
    }
  }

  /** The bytes collected up to the stop byte, or up to the end of the file, are what `Until` yields. */
  lemma {:induction false} UntilByte(rest: seq<byte>, buffer: seq<byte>, ahead: seq<byte>, x: byte)
    requires rest == buffer + ahead
    requires ahead == [] || Find(buffer, [x], 0).Some?
    requires Find(buffer, [x], 0).Some? ==> Find(buffer, [x], 0) == Some(|buffer| - 1)
    ensures var ended := buffer != [] && buffer[|buffer| - 1] == x;
            Until(rest, [x], true) ==
              if ended then Cut(Some(buffer[..|buffer| - 1]), |buffer|)
              else if buffer == [] then Cut(None, 0) else Cut(Some(buffer), |buffer|)
    ensures rest[Until(rest, [x], true).used..] == ahead
  {
    FindIsFirst(buffer, [x], 0);
    if buffer != [] {
      var last := |buffer| - 1;
      assert buffer[last..last + 1] == [buffer[last]];
      assert MatchAt(buffer, [x], last) <==> buffer[last] == x;
    }
    if Find(buffer, [x], 0).Some? {
      UntilFound(rest, buffer, [x], true);
    } else {
      assert rest == buffer;
    }
  }
}
