/** Option and Outcome (value or error) values for the error paths of the model. */
module Wrappers {

  datatype Option<+T> = None | Some(value: T)

  datatype Outcome<+T, +E> = Ok(value: T) | Err(error: E)

  /** The value of `m` at `k`, or zero when `k` is absent: what Go's map index yields. */
  function Lookup<K>(m: map<K, real>, k: K): (r: real)
    ensures k in m ==> r == m[k]
    ensures k !in m ==> r == 0.0
  {
    if k in m then m[k] else 0.0
  }
}
