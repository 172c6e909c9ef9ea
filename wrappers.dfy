/**
 * Failure-carrying results used wherever the Java code throws or returns null,
 * and the element-wise image of a sequence.
 */
module Wrappers {

  datatype Option<+T> = None | Some(value: T)

  /** A value, or the exception the Java code would raise instead. */
  datatype Result<+R, +E> = Success(value: R) | Failure(error: E)

  /** The outcome of a check that either passes or raises. */
  datatype Outcome<+E> = Pass | Fail(error: E)

  /** `f` applied to each element, in order (the states' hash codes, a rule's spelled words). */
  function Mapped<A, B>(xs: seq<A>, f: A -> B): (ys: seq<B>)
    ensures |ys| == |xs|
  {
    seq(|xs|, k requires 0 <= k < |xs| => f(xs[k]))
  }
}
