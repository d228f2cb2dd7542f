/** First-match search, and splitting a text at the matches of a pattern. */
module PatternSearch {
  import opened Basics

  predicate MatchAt<T(==)>(s: seq<T>, p: seq<T>, i: nat) {
    i + |p| <= |s| && s[i..i + |p|] == p
  }

  ghost predicate Occurs<T>(s: seq<T>, p: seq<T>) {
    exists i: nat :: MatchAt(s, p, i)
  }

  /** `windows(|p|).position(..)` on `s`, skipping the first `from` windows. */
  function Find<T(==)>(s: seq<T>, p: seq<T>, from: nat): (r: Option<nat>)
    ensures r.Some? ==> from <= r.value && r.value + |p| <= |s|
    decreases |s| - from
  {
    if from + |p| > |s| then None
    else if MatchAt(s, p, from) then Some(from)
    else Find(s, p, from + 1)
  }

  /** `Find` returns the first match at or after `from`, or None when there is none. */
  lemma {:induction false} FindIsFirst<T>(s: seq<T>, p: seq<T>, from: nat)
    ensures var r := Find(s, p, from);
            && (r.Some? ==> MatchAt(s, p, r.value) && forall j: nat | from <= j < r.value :: !MatchAt(s, p, j))
            && (r.None? ==> forall j: nat | from <= j :: !MatchAt(s, p, j))
    decreases |s| - from
  {
    if from + |p| <= |s| {
      FindIsFirst(s, p, from + 1);
    }
  }

  /** What one read up to a pattern yields, and how far it moves the cursor. */
  datatype Cut<T> = Cut(piece: Option<seq<T>>, used: nat)

  /** The read up to `p` as a function of the rest of the file alone. */
  function Until<T(==)>(rest: seq<T>, p: seq<T>, captEof: bool): (c: Cut<T>)
    requires p != []
    ensures c.used <= |rest|
  {
    match Find(rest, p, 0)
    case Some(i) => Cut(Some(rest[..i]), i + |p|)
    case None => if captEof && rest != [] then Cut(Some(rest), |rest|) else Cut(None, 0)
  }

  /** Reading up to `p` again and again until nothing is left. */
  function Split<T(==)>(rest: seq<T>, p: seq<T>): seq<seq<T>>
    requires p != []
    decreases |rest|
  {
    var c := Until(rest, p, true);
    if c.piece.None? then [] else [c.piece.value] + Split(rest[c.used..], p)
  }

  /** The last piece of `Split` was ended by a match and not by the end of the file. */
  predicate Terminated<T(==)>(rest: seq<T>, p: seq<T>)
    requires p != []
    decreases |rest|
  {
    var c := Until(rest, p, true);
    if Find(rest, p, 0).None? then false
    else c.used == |rest| || Terminated(rest[c.used..], p)
  }

  lemma {:induction false} FindIs<T>(s: seq<T>, p: seq<T>, i: nat)
    requires MatchAt(s, p, i)
    requires forall j: nat | j < i :: !MatchAt(s, p, j)
    ensures Find(s, p, 0) == Some(i)
  {
    FindIsFirst(s, p, 0);
  }

  /** Windows that lie in the old buffer are windows of the grown buffer, and back. */
  lemma {:induction false} MatchInPrefix<T>(a: seq<T>, b: seq<T>, p: seq<T>, i: nat)
    requires i + |p| <= |a|
    ensures MatchAt(a + b, p, i) <==> MatchAt(a, p, i)
  {
  }

  /** A match of the grown buffer lies in the re-scanned tail and ends inside the new chunk. */
  lemma {:induction false} MatchReachesChunk<T>(buffer: seq<T>, chunk: seq<T>, p: seq<T>, start: nat, j: nat)
    requires !Occurs(buffer, p)
    requires start <= |buffer| && (start == 0 || start == |buffer| - (|p| - 1))
    requires MatchAt(buffer + chunk, p, j)
    ensures |buffer| < j + |p| && start <= j
    ensures MatchAt((buffer + chunk)[start..], p, j - start)
  {
    if j + |p| <= |buffer| {
      MatchInPrefix(buffer, chunk, p, j);
    }
    var grown := buffer + chunk;
    assert grown[start..][j - start..j - start + |p|] == grown[j..j + |p|];
  }

  lemma {:induction false} MatchInTail<T>(s: seq<T>, p: seq<T>, start: nat, r: nat)
    requires start <= |s|
    ensures MatchAt(s[start..], p, r) <==> MatchAt(s, p, start + r)
  {
  }

  function Shift(r: Option<nat>, offset: nat): Option<nat> {
    if r.None? then None else Some(offset + r.value)
  }

  /** Searching a tail is searching the whole from where the tail starts. */
  lemma {:induction false} FindInTail<T>(s: seq<T>, p: seq<T>, start: nat, k: nat)
    requires start <= |s|
    ensures Shift(Find(s[start..], p, k), start) == Find(s, p, start + k)
    decreases |s| - k
  {
    MatchInTail(s, p, start, k);
    if start + k + |p| <= |s| {
      FindInTail(s, p, start, k + 1);
    }
  }

  lemma {:induction false} FindSkips<T>(s: seq<T>, p: seq<T>, from: nat, start: nat)
    requires from <= start
    requires forall j: nat | j < start :: !MatchAt(s, p, j)
    ensures Find(s, p, from) == Find(s, p, start)
    decreases start - from
  {
    if from < start {
      FindSkips(s, p, from + 1, start);
    }
  }

  /**
   * The overlap argument. A buffer without a match grows by a chunk; scanning only the last
   * |p| - 1 old elements and the chunk finds the first match of the whole, and its end lies
   * inside the chunk, so fewer elements than the chunk are read too far.
   */
  lemma {:induction false} OverlapSuffices<T>(buffer: seq<T>, chunk: seq<T>, p: seq<T>, start: nat)
    requires p != []
    requires Find(buffer, p, 0).None?
    requires start == if |buffer| >= |p| - 1 then |buffer| - (|p| - 1) else 0
    ensures Shift(Find((buffer + chunk)[start..], p, 0), start) == Find(buffer + chunk, p, 0)
    ensures var r := Find(buffer + chunk, p, 0); r.Some? ==> |buffer| < r.value + |p|
  {
    var grown := buffer + chunk;
    FindIsFirst(buffer, p, 0);
    FindIsFirst(grown, p, 0);
    forall j: nat | MatchAt(grown, p, j) ensures |buffer| < j + |p| && start <= j {
      MatchReachesChunk(buffer, chunk, p, start, j);
    }
    FindInTail(grown, p, start, 0);
    FindSkips(grown, p, 0, start);
  }

  /** One round of splitting: what is cut off, what is left. */
  lemma {:induction false} SplitStep<T>(rest: seq<T>, p: seq<T>, piece: seq<T>, tail: seq<T>)
    requires p != [] && rest != []
    requires piece == Until(rest, p, true).piece.value && tail == rest[Until(rest, p, true).used..]
    ensures Split(rest, p) == [piece] + Split(tail, p)
    ensures Find(rest, p, 0).Some? ==>
              rest == piece + p + tail && Terminated(rest, p) == (tail == [] || Terminated(tail, p))
    ensures Find(rest, p, 0).None? ==> piece == rest && tail == [] && !Terminated(rest, p)
    ensures !Occurs(piece, p) && |tail| < |rest|
  {
    FindIsFirst(rest, p, 0);
    assert rest == piece + rest[|piece|..];
    forall i: nat ensures !MatchAt(piece, p, i) {
      if i + |p| <= |piece| { MatchInPrefix(piece, rest[|piece|..], p, i); }
    }
    if Find(rest, p, 0).Some? {
      var i := |piece|;
      assert rest == rest[..i] + rest[i..i + |p|] + rest[i + |p|..];
    }
  }

  lemma {:induction false} JoinCons<T>(piece: seq<T>, pieces: seq<seq<T>>, p: seq<T>, end: seq<T>)
    ensures pieces == [] ==> Join([piece] + pieces, p) == piece
    ensures pieces != [] ==> Join([piece] + pieces, p) + end == piece + p + (Join(pieces, p) + end)
  {
  }

  lemma {:induction false} SplitEmpty<T>(rest: seq<T>, p: seq<T>)
    requires p != []
    ensures Split(rest, p) == [] <==> rest == []
  {
  }

  /** What the end of the file leaves unwritten by `Join`. */
  function Trailing<T(==)>(rest: seq<T>, p: seq<T>): seq<T>
    requires p != []
  {
    if Terminated(rest, p) then p else []
  }

  /** Joining the pieces rebuilds the text, up to one trailing pattern. */
  lemma {:induction false} JoinSplit<T>(rest: seq<T>, p: seq<T>)
    requires p != []
    ensures Join(Split(rest, p), p) + Trailing(rest, p) == rest
    decreases |rest|
  {
    if rest != [] {
      var c := Until(rest, p, true);
      var piece, tail := c.piece.value, rest[c.used..];
      SplitStep(rest, p, piece, tail);
      JoinSplit(tail, p);
      SplitEmpty(tail, p);
      JoinCons(piece, Split(tail, p), p, Trailing(tail, p));
    }
  }

  /** No piece contains the pattern. */
  lemma {:induction false} PiecesAreFree<T>(rest: seq<T>, p: seq<T>)
    requires p != []
    ensures forall piece :: piece in Split(rest, p) ==> !Occurs(piece, p)
    decreases |rest|
  {
    if rest != [] {
      var c := Until(rest, p, true);
      var tail := rest[c.used..];
      SplitStep(rest, p, c.piece.value, tail);
      PiecesAreFree(tail, p);
    }
  }

  /** Splitting undoes terminating, for pieces whose first match is the one put after them. */
  lemma {:induction false} SplitTerminate<T>(pieces: seq<seq<T>>, p: seq<T>)
    requires p != []
    requires forall k | 0 <= k < |pieces| :: Find(pieces[k] + p, p, 0) == Some(|pieces[k]|)
    ensures Split(Terminate(pieces, p), p) == pieces
  {
    if pieces != [] {
      hide Split;
      var tail := Terminate(pieces[1..], p);
      SplitTerminate(pieces[1..], p);
      FirstPiece(pieces[0], p, tail);
    }
  }

  lemma {:induction false} FirstPiece<T>(piece: seq<T>, p: seq<T>, tail: seq<T>)
    requires p != [] && Find(piece + p, p, 0) == Some(|piece|)
    ensures Split(piece + p + tail, p) == [piece] + Split(tail, p)
  {
    var text, n := piece + p + tail, |piece|;
    FindIsFirst(piece + p, p, 0);
    assert MatchAt(text, p, n) by { assert text[n..n + |p|] == p; }
    forall j: nat | j < n ensures !MatchAt(text, p, j) {
      MatchInPrefix(piece + p, tail, p, j);
    }
    FindIs(text, p, n);
    assert text[..n] == piece && text[n + |p|..] == tail;
  }

  /** For a one-element pattern the side condition of SplitTerminate is: no piece contains it. */
  lemma {:induction false} SingleSeparator<T>(piece: seq<T>, x: T)
    requires x !in piece
    ensures Find(piece + [x], [x], 0) == Some(|piece|)
  {
    var s := piece + [x];
    assert MatchAt(s, [x], |piece|);
    forall j: nat | j < |piece| ensures !MatchAt(s, [x], j) {
      assert s[j..j + 1] == [piece[j]];
    }
    FindIs(s, [x], |piece|);
  }

  /** With a one-element pattern, the text ends in a match exactly when it ends in that element. */
  lemma {:induction false} TerminatedSingle<T>(rest: seq<T>, x: T)
    ensures Terminated(rest, [x]) <==> rest != [] && rest[|rest| - 1] == x
    decreases |rest|
  {
    var f := Find(rest, [x], 0);
    FindIsFirst(rest, [x], 0);
    if f.Some? {
      var tail := rest[f.value + 1..];
      TerminatedSingle(tail, x);
      assert rest[f.value..f.value + 1] == [x];
    } else if rest != [] && rest[|rest| - 1] == x {
      assert rest[|rest| - 1..|rest| - 1 + 1] == [x];
      assert MatchAt(rest, [x], |rest| - 1);
    }
  }

  lemma {:induction false} NotThere<T>(s: seq<T>, p: seq<T>)
    ensures Find(s, p, 0).None? <==> !Occurs(s, p)
    ensures p != [] && s == [] ==> Find(s, p, 0).None?
  {
    FindIsFirst(s, p, 0);
  }

  lemma {:induction false} UntilNone<T>(rest: seq<T>, p: seq<T>, captEof: bool)
    requires p != [] && Find(rest, p, 0).None?
    ensures Until(rest, p, captEof) == if captEof && rest != [] then Cut(Some(rest), |rest|) else Cut(None, 0)
  {
  }

  /**
   * A read up to a pattern, without a search: nothing and no move when the pattern is not there and
   * the end is not wanted or reached already; all that is left when the end is wanted; and else
   * what is before the first match, which is skipped.
   */
  ghost predicate ReadsUpTo<T>(rest: seq<T>, p: seq<T>, captEof: bool, piece: Option<seq<T>>, ahead: seq<T>) {
    && (!Occurs(rest, p) && (!captEof || rest == []) ==> piece.None? && ahead == rest)
    && (!Occurs(rest, p) && captEof && rest != [] ==> piece == Some(rest) && ahead == [])
    && (Occurs(rest, p) ==>
          && piece.Some? && piece.value + p + ahead == rest
          && forall j: nat | j < |piece.value| :: !MatchAt(rest, p, j))
  }

  lemma {:induction false} UntilIs<T>(rest: seq<T>, p: seq<T>, captEof: bool)
    requires p != []
    ensures var c := Until(rest, p, captEof); ReadsUpTo(rest, p, captEof, c.piece, rest[c.used..])
    ensures Until(rest, p, captEof).piece.None? ==> Until(rest, p, captEof).used == 0
  {
    FindIsFirst(rest, p, 0);
    if Find(rest, p, 0).Some? {
      var i := Find(rest, p, 0).value;
      assert rest == rest[..i] + rest[i..i + |p|] + rest[i + |p|..];
    }
  }

  /** A match found in what has been read so far is the first match of the whole rest. */
  lemma {:induction false} UntilFound<T>(rest: seq<T>, buffer: seq<T>, p: seq<T>, captEof: bool)
    requires p != [] && buffer <= rest && Find(buffer, p, 0).Some?
    ensures var i := Find(buffer, p, 0).value;
            Until(rest, p, captEof) == Cut(Some(buffer[..i]), i + |p|)
  {
    var i := Find(buffer, p, 0).value;
    FindIsFirst(buffer, p, 0);
    assert rest == buffer + rest[|buffer|..];
    forall j: nat | j <= i ensures MatchAt(rest, p, j) <==> MatchAt(buffer, p, j) {
      MatchInPrefix(buffer, rest[|buffer|..], p, j);
    }
    FindIs(rest, p, i);
    assert rest[..i] == buffer[..i];
  }
}
