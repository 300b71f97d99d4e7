/** Nullable values: a C pointer that may be NULL; and a fact about sequences. */
module Wrappers {
  datatype Option<T> = None | Some(value: T)

  /** Concatenation regroups freely; the solver often needs to be told. */
  lemma AppendAssoc<T>(a: seq<T>, b: seq<T>, c: seq<T>)
    ensures (a + b) + c == a + (b + c)
  {
  }
}
