/** Option and Result values for the model's partial operations and error
    returns, and n copies of a value. */
module Wrappers {

  datatype Option<+T> = None | Some(value: T)

  datatype Result<+T, +E> = Ok(value: T) | Err(error: E)

  /** n copies of x. */
  function Repeat<T>(x: T, n: nat): (r: seq<T>)
    ensures |r| == n && forall i :: 0 <= i < n ==> r[i] == x
  {
    seq(n, _ => x)
  }

  lemma RepeatCons<T>(x: T, n: nat)
    ensures Repeat(x, n + 1) == [x] + Repeat(x, n)
  {
  }
}
