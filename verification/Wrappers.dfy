/** What several components share: an optional value, the outcome of a remote write, and the
    associativity of concatenation for proofs that need one instance of it. */
module Wrappers {
  datatype Option<T> = None | Some(value: T)

  /** A write that goes over the network can fail before or after it took effect. */
  datatype Write = Applied | AppliedButFailed | NotApplied

  lemma Regroup<T>(a: seq<T>, b: seq<T>, c: seq<T>)
    ensures a + (b + c) == a + b + c
  {
  }
}
