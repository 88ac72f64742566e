/** Notions that several components share. */
module Basics {

  datatype Option<+T> = None | Some(value: T)

  /** Two regions, given by address and size, share no byte. */
  predicate Apart(a: int, n: int, b: int, m: int) {
    a + n <= b || b + m <= a
  }

  predicate NoRepeats(s: seq<int>) {
    forall i, j :: 0 <= i < j < |s| ==> s[i] != s[j]
  }
}
