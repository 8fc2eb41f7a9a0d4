/** Bytes and optional values. */
module Bytes {
  type Byte = x: nat | x < 256

  datatype Option<T> = None | Some(value: T)

  /** n times x. */
  function Repeat<T>(x: T, n: nat): (s: seq<T>)
    ensures |s| == n && forall i :: 0 <= i < n ==> s[i] == x
  {
    seq(n, _ => x)
  }
}
