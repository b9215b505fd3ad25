/** Values shared by every part of the model: Go bytes, optional and failing results,
    and Go's integer division. */
module Basics {

  /** A Go `byte` (uint8). Go strings are sequences of these. */
  type byte = b: int | 0 <= b < 256

  datatype Option<+T> = None | Some(value: T)

  datatype Result<+T, +E> = Ok(value: T) | Err(error: E)

  /** The bytes of an ASCII string literal. */
  function Ascii(s: string): (r: seq<byte>)
    ensures |r| == |s|
    ensures forall i :: 0 <= i < |s| && s[i] as int < 256 ==> r[i] == s[i] as int
  {
    seq(|s|, i requires 0 <= i < |s| => (s[i] as int) % 256)
  }

  /** Go's `a / b` on `int`, which truncates toward zero (Dafny's `/` is Euclidean).
      The source only divides by positive constants. */
  function Quo(a: int, b: int): (q: int)
    requires b > 0
    ensures a - b * q < b && -b < a - b * q
    ensures 0 <= a ==> 0 <= a - b * q
    ensures a <= 0 ==> a - b * q <= 0
  {
    if a >= 0 then a / b else -((-a) / b)
  }
}
