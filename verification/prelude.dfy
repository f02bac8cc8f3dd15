/** Small shared value types used across the model. */
module Prelude {
  /** An optional value: JavaScript's `undefined`/`null` versus a present value. */
  datatype Option<T> = None | Some(value: T)

  /** The outcome of an operation that can throw: the thrown error is a value here. */
  datatype Outcome<T, E> = Ok(value: T) | Fail(error: E)

  /** A non-empty sequence is its head before its tail, also when something follows. */
  lemma HeadTail<T>(a: seq<T>, b: seq<T>)
    requires a != []
    ensures a == [a[0]] + a[1..] && a + b == [a[0]] + (a[1..] + b)
  {
  }

  lemma AppendAssoc<T>(x: seq<T>, y: seq<T>, z: seq<T>)
    ensures x + (y + z) == (x + y) + z
  {
  }
}
