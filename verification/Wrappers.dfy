/** Optional values, results of code that may throw, and the law that regroups three sequences. */
module Wrappers {
  datatype Option<+T> = None | Some(value: T)

  datatype Outcome<+T> = Value(value: T) | Throw(message: string) {
    predicate IsFailure() { Throw? }
    function PropagateFailure<U>(): Outcome<U> requires Throw? { Throw(message) }
    function Extract(): T requires Value? { value }
  }

  lemma Regroup<T>(a: seq<T>, b: seq<T>, c: seq<T>)
    ensures a + (b + c) == (a + b) + c
  {
  }
}
