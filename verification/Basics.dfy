/** Notions that several modules share. */
module Basics {

  datatype Option<+T> = None | Some(value: T)

  function Min(a: nat, b: nat): nat
  {
    if a < b then a else b
  }

  function Max(a: nat, b: nat): nat
  {
    if a < b then b else a
  }

  ghost predicate Increasing(s: seq<nat>)
  {
    forall i, j :: 0 <= i < j < |s| ==> s[i] < s[j]
  }

  /** A mark for predicates of the form `forall key :: Open(key) ==> P`.  Such a predicate is the same as P, but the
      solver keeps it as one fact until a proof says `assert Open(0)`. */
  ghost predicate Open(key: int)
  {
    true
  }
}
