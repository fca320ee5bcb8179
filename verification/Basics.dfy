/** Definitions shared by several models. */
module Basics {

  datatype Option<+T> = None | Some(value: T)

  datatype Result<+T, +E> = Ok(value: T) | Err(error: E)

  /** nvinfer1::Dims::MAX_DIMS. */
  const MAX_DIMS: nat := 8

  /** The numbers below n, in order. */
  function UpTo(n: nat): (r: seq<nat>)
    ensures |r| == n && forall i :: 0 <= i < n ==> r[i] == i
  {
    seq(n, i => i)
  }

  /** A position of v in s. */
  ghost function IndexOf(s: seq<nat>, v: nat): (i: nat)
    requires v in s
    ensures i < |s| && s[i] == v
  {
    var i :| 0 <= i < |s| && s[i] == v;
    i
  }

  /** Equality of whole states, kept from being expanded elementwise. */
  ghost predicate Same<T>(a: T, b: T) {
    a == b
  }
}
