/** Values shared by the modules of this model: Go's `uint8`, an optional
    value, and the dynamically typed `any` values that the database driver
    hands to the Scan methods or that a caller stores in a query. */
module Common {

  /** Go's `uint8`. */
  newtype byte = x: int | 0 <= x < 256

  datatype Option<T> = None | Some(value: T)

  /** A Go `any` value. Only the dynamic types that some Scan or query
      builder of the model inspects are told apart: `string`, `int` and
      `int64` (a type assertion `value.(int)` fails on an `int64`). */
  datatype Any = Nil | Str(s: string) | Int(i: int) | Int64(i: int) | Other

  /** Go's conversion `uint8(v)` of a signed integer: two's-complement
      truncation, which keeps the value modulo 256. */
  function ToByte(v: int): (b: byte)
    ensures (v - b as int) % 256 == 0
    ensures 0 <= v < 256 ==> b as int == v
  {
    (v % 256) as byte
  }

  /** `strings.Repeat(string(c), n)`: `n` copies of `c`. */
  function Repeat(c: char, n: nat): (r: string)
    ensures |r| == n && forall i :: 0 <= i < n ==> r[i] == c
  {
    if n == 0 then [] else Repeat(c, n - 1) + [c]
  }
}
