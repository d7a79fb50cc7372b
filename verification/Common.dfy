/** Shared vocabulary: bytes, machine bounds, Option and Result. */
module Common {
  newtype byte = x: int | 0 <= x < 256

  const U32_MAX: nat := 0xFFFF_FFFF
  const U64_MAX: nat := 0xFFFF_FFFF_FFFF_FFFF

  /** A 32-byte device id, read as the number its big-endian bytes spell; the byte order is the same
      order (LayoutCodec.IdOrderIsNumeric). */
  type DeviceId = nat

  datatype Option<+T> = None | Some(value: T)

  datatype Result<+T, +E> = Ok(value: T) | Err(error: E)
  {
    predicate IsFailure() { Err? }
    function PropagateFailure<U>(): Result<U, E> requires Err? { Err(error) }
    function Extract(): T requires Ok? { value }
  }

  function Min(a: int, b: int): int { if a <= b then a else b }

  function Max(a: int, b: int): int { if a >= b then a else b }

  /** `u64::saturating_add`. */
  function SatAdd64(a: nat, b: nat): nat { Min(a + b, U64_MAX) }

  /** `u64::saturating_sub`. */
  function SatSub(a: nat, b: nat): nat { if a >= b then a - b else 0 }

  /** The number that big-endian bytes spell. */
  function BigEndian(b: seq<byte>): nat {
    if b == [] then 0 else BigEndian(b[..|b| - 1]) * 256 + b[|b| - 1] as nat
  }
}
