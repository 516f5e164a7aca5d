/** Shared vocabulary: bytes, optional values, results, and the two readings
    of code whose literal behaviour differs from its evident intent. */
module Common {

  /** An unsigned octet, as held by a Node.js Buffer. */
  type byte = x: int | 0 <= x < 256

  type Bytes = seq<byte>

  datatype Option<+T> = None | Some(value: T)

  /** A computation that either produces a value or throws. */
  datatype Result<+T, +E> = Ok(value: T) | Err(error: E)

  /** Several checks in the ledger read differently from what the surrounding
      code evidently intends (a Promise or an object taken as a truth
      value, a missing tuple element). Members that contain such a check
      take a Reading: AsWritten follows the JavaScript literally, Intended
      follows the evident intent. */
  datatype Reading = AsWritten | Intended

  /** The five difficulty categories (the keys of DIFFICULTY_COEFS in
      src/constants.ts). */
  datatype DifficultyType = MAIN | SIDE | TRANSACTION | PADDING_BIG | PADDING_SMALL

  /** Concatenation of a sequence of sequences, in order. */
  function Flatten<T>(ss: seq<seq<T>>): (r: seq<T>)
  {
    if ss == [] then [] else Flatten(ss[..|ss| - 1]) + ss[|ss| - 1]
  }

  /** Adding a sequence at the end adds its elements at the end. */
  lemma FlattenPush<T>(ss: seq<seq<T>>, s: seq<T>)
    ensures Flatten(ss + [s]) == Flatten(ss) + s
  {
    assert (ss + [s])[..|ss|] == ss;
  }

  /** Extending the last sequence extends the concatenation. */
  lemma FlattenExtendLast<T>(ss: seq<seq<T>>, x: T)
    requires ss != []
    ensures Flatten(ss[..|ss| - 1] + [ss[|ss| - 1] + [x]]) == Flatten(ss) + [x]
  {
    FlattenPush(ss[..|ss| - 1], ss[|ss| - 1] + [x]);
  }

  /** The elements `done` followed by those of a later result. */
  function Prepend<T, E>(done: seq<T>, later: Result<seq<T>, E>): Result<seq<T>, E>
  {
    match later
    case Err(e) => Err(e)
    case Ok(xs) => Ok(done + xs)
  }

  lemma PrependStep<T, E>(done: seq<T>, x: T, later: Result<seq<T>, E>)
    ensures Prepend(done, Prepend([x], later)) == Prepend(done + [x], later)
    ensures Prepend([], later) == later
  {
    if later.Ok? {
      assert done + ([x] + later.value) == (done + [x]) + later.value;
      assert [] + later.value == later.value;
    }
  }

  lemma PrependConcat<T, E>(done: seq<T>, xs: seq<T>, later: Result<seq<T>, E>)
    ensures Prepend(done, Prepend(xs, later)) == Prepend(done + xs, later)
    ensures Prepend([], later) == later
    ensures Prepend<T, E>(done, Ok([])) == Ok(done)
  {
    if later.Ok? {
      assert done + (xs + later.value) == (done + xs) + later.value;
      assert [] + later.value == later.value;
    }
    assert done + [] == done;
  }
}
