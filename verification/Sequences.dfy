/** Values that may be absent, sequences without repetitions, and two laws of concatenation that
    proofs keep asking for. */
module Sequences {

  datatype Option<T> = None | Some(value: T)

  lemma Assoc<T>(a: seq<T>, b: seq<T>, c: seq<T>)
    ensures a + (b + c) == (a + b) + c
  {
  }

  lemma AppendedAndCut<T>(a: seq<T>, x: T)
    ensures (a + [x])[..|a|] + (a + [x])[|a| + 1..] == a
  {
  }

  predicate NoRepeats<T(==)>(s: seq<T>) {
    forall i, j | 0 <= i < j < |s| :: s[i] != s[j]
  }
}
