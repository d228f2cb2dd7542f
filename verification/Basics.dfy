/** Datatypes and sequence functions shared by the other modules. */
module Basics {

  datatype Option<+T> = None | Some(value: T)

  /** An I/O outcome; the error value itself is not modelled. */
  datatype Result<+T> = Ok(value: T) | Err

  /** The parts one after the other. */
  function Flatten<T>(parts: seq<seq<T>>): seq<T> {
    if parts == [] then [] else parts[0] + Flatten(parts[1..])
  }

  /** The parts one after the other with `sep` between neighbours. */
  function Join<T>(parts: seq<seq<T>>, sep: seq<T>): seq<T> {
    if parts == [] then []
    else if |parts| == 1 then parts[0]
    else parts[0] + sep + Join(parts[1..], sep)
  }

  /** The parts one after the other, each followed by `sep`. */
  function Terminate<T>(parts: seq<seq<T>>, sep: seq<T>): seq<T> {
    if parts == [] then [] else parts[0] + sep + Terminate(parts[1..], sep)
  }

  lemma {:induction false} Regroup<T>(a: seq<T>, b: seq<T>, c: seq<T>)
    ensures (a + b) + c == a + (b + c)
  {
  }

  lemma {:induction false} FlattenAppend<T>(a: seq<seq<T>>, b: seq<seq<T>>)
    ensures Flatten(a + b) == Flatten(a) + Flatten(b)
  {
    if a == [] {
      assert a + b == b;
    } else {
      assert (a + b)[1..] == a[1..] + b;
      FlattenAppend(a[1..], b);
    }
  }

  /** Joining two non-empty lists separately and then together is joining their concatenation. */
  lemma {:induction false} JoinAppend<T>(a: seq<seq<T>>, b: seq<seq<T>>, sep: seq<T>)
    requires a != [] && b != []
    ensures Join(a + b, sep) == Join(a, sep) + sep + Join(b, sep)
  {
    assert (a + b)[1..] == a[1..] + b;
    if |a| == 1 {
      assert (a + b)[1..] == b;
    } else {
      JoinAppend(a[1..], b, sep);
    }
  }
}
