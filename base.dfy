/** Values shared by every part of the model: Go's `uint64` with its
    wrap-around arithmetic, and the shapes in which Go calls end. */
module Base {

  const UINT64_MODULUS: int := 0x1_0000_0000_0000_0000
  const MAX_UINT64: int := 0xFFFF_FFFF_FFFF_FFFF

  /** Go's `uint64`. */
  type uint64 = x: int | 0 <= x < 0x1_0000_0000_0000_0000

  datatype Option<+T> = None | Some(value: T)

  /** A Go call returning a pointer (or interface) and an error, where the
      pointer is nil exactly when the error is not. */
  datatype Result<+T> = Ok(value: T) | Err(error: string)

  /** The ways a Go call ends: it returns a value together with an error
      (`None` stands for nil), or it panics and unwinds to its caller. */
  datatype Outcome<+T> = Returned(value: T, err: Option<string>) | Panicked(reason: string)

  /** `a + b` on `uint64`: the sum wraps modulo 2^64. */
  function Add64(a: uint64, b: uint64): (r: uint64)
    ensures a + b < UINT64_MODULUS ==> r == a + b
    ensures a + b >= UINT64_MODULUS ==> r == a + b - UINT64_MODULUS
  {
    (a + b) % UINT64_MODULUS
  }

  /** `a - b` on `uint64`: a negative difference wraps to `2^64 + (a - b)`,
      it is never clamped. */
  function Sub64(a: uint64, b: uint64): (r: uint64)
    ensures b <= a ==> r == a - b
    ensures a < b ==> r == UINT64_MODULUS + a - b
  {
    (a - b) % UINT64_MODULUS
  }

  /** Adding the wrapped difference back to the subtrahend recovers the
      minuend: a delta always reconstructs the current counter. */
  lemma SubThenAdd(a: uint64, b: uint64)
    ensures Add64(Sub64(a, b), b) == a
  {
  }
}
