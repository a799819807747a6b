/** Value types shared by every part of the model: Go's fixed-width integers and its error returns. */
module Common {

  /** One byte of encoded image data. */
  newtype byte = b: int | 0 <= b < 0x100

  /** Go's `int64` (and `int` on the 64-bit platforms the server runs on). */
  newtype int64 = x: int | -0x8000_0000_0000_0000 <= x < 0x8000_0000_0000_0000

  const MinInt64: int := -0x8000_0000_0000_0000
  const MaxInt64: int := 0x7FFF_FFFF_FFFF_FFFF

  /** Go's `x++` on a 64-bit integer: two's-complement wrap-around at the top of the range. */
  function WrappingIncrement(x: int64): (r: int64)
    ensures x as int < MaxInt64 ==> r as int == x as int + 1
    ensures x as int == MaxInt64 ==> r as int == MinInt64
  {
    if x as int == MaxInt64 then MinInt64 as int64 else x + 1
  }

  datatype Option<+T> = None | Some(value: T) {
    predicate IsFailure() { None? }
    function PropagateFailure<U>(): Option<U> requires None? { None }
    function Extract(): T requires Some? { value }
  }

  datatype Result<+T, +E> = Ok(value: T) | Err(error: E)

  /**
   * A Go `error` produced outside the model (the network, the file system, a decoder,
   * the font loader or the PNG encoder); only its identity is carried.
   */
  datatype Error = Error(message: string)
}
