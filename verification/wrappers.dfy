/** Failure-compatible wrappers, and a sequence fact, shared by every module of the model. */
module Wrappers {

  /** A value that may be absent; stands for Python's `None`. */
  datatype Option<+T> = None | Some(value: T)

  /** The outcome of an operation that may raise: a value or the raised error. */
  datatype Result<+T, +E> = Ok(value: T) | Err(error: E)

  /** Concatenation regrouped, for the proofs that read a list back part by part. */
  lemma AppendAssoc<T>(a: seq<T>, b: seq<T>, c: seq<T>)
    ensures (a + b) + c == a + (b + c)
  {
  }
}
