/** Carrying a position from one display axis to another as a preserved fraction. */
module AxisMap {
  import opened Common

  const I32_MIN: int := -0x8000_0000
  const I32_MAX: int := 0x7FFF_FFFF

  predicate InI32(x: int) { I32_MIN <= x <= I32_MAX }

  function Clamp(v: int, lo: int, hi: int): int { Min(Max(v, lo), Max(hi, lo)) }

  function SatAdd32(a: int, b: int): int { Clamp(a + b, I32_MIN, I32_MAX) }

  function SatSub32(a: int, b: int): int { Clamp(a - b, I32_MIN, I32_MAX) }

  /** Two's-complement wrap-around of an i32 result. */
  function Wrap32(x: int): int { (x + 0x8000_0000) % 0x1_0000_0000 - 0x8000_0000 }

  /** Last pixel of an axis of length `len`. */
  function AxisMax(len: int): int { Max(SatSub32(len, 1), 0) }

  /** p on [0, s] carried to [0, d], rounded half up. */
  function Scale(p: nat, s: nat, d: nat): nat
    requires s > 0
  {
    (p * d + s / 2) / s
  }

  function MapAxis(pos: int, srcLen: int, dstLen: int): int {
    var s := Max(SatSub32(srcLen, 1), 1);
    Scale(Clamp(pos, 0, s), s, AxisMax(dstLen))
  }

  // ---- Arithmetic ------------------------------------------------------------------

  /** Division by s brackets its dividend. */
  lemma {:induction false} Quotient(x: nat, s: nat)
    requires s > 0
    ensures x / s * s <= x < x / s * s + s
  {
  }

  lemma {:induction false} MulMono(a: nat, b: nat, c: nat)
    requires a <= b
    ensures a * c <= b * c && c * a <= c * b
  {
  }

  /** The error of one carry, in units of 1/s of a destination pixel: at most half either way. */
  lemma {:induction false} ScaleError(p: nat, s: nat, d: nat)
    requires s > 0
    ensures var e := Scale(p, s, d) * s - p * d;
            -((s + 1) / 2 - 1) <= e <= s / 2
  {
    Quotient(p * d + s / 2, s);
  }

  /** A quotient is pinned by bracketing. */
  lemma {:induction false} QuotientIs(x: int, s: nat, q: nat)
    requires s > 0 && q * s <= x < q * s + s
    ensures x / s == q
  {
    Quotient(x, s);
    var r := x / s;
    if r < q { MulMono(r + 1, q, s); }
    if q < r { MulMono(q + 1, r, s); }
  }

  lemma {:induction false} ScaleInRange(p: nat, s: nat, d: nat)
    requires 0 < s && p <= s
    ensures Scale(p, s, d) <= d
  {
    MulMono(p, s, d);
    Quotient(p * d + s / 2, s);
    var q := Scale(p, s, d);
    if q > d { MulMono(d + 1, q, s); }
  }

  lemma {:induction false} QuotientMonotone(x: nat, y: nat, s: nat)
    requires s > 0 && x <= y
    ensures x / s <= y / s
  {
    Quotient(x, s);
    Quotient(y, s);
    if y / s < x / s { MulMono(y / s + 1, x / s, s); }
  }

  lemma {:induction false} ScaleMonotone(p: nat, q: nat, s: nat, d: nat)
    requires s > 0 && p <= q
    ensures Scale(p, s, d) <= Scale(q, s, d)
  {
    MulMono(p, q, d);
    QuotientMonotone(p * d + s / 2, q * d + s / 2, s);
  }

  lemma {:induction false} ScaleEnds(s: nat, d: nat)
    requires s > 0
    ensures Scale(0, s, d) == 0 && Scale(s, s, d) == d
  {
    assert 0 * d == 0;
    QuotientIs(s / 2, s, 0);
    assert s * d == d * s;
    QuotientIs(s * d + s / 2, s, d);
  }

  // ---- Carrying out and back -------------------------------------------------------

  /** 2*d*|q-p| <= s + d for the position q that comes back. */
  lemma {:induction false} RoundTripError(p: nat, s: nat, d: nat)
    requires s > 0 && d > 0
    ensures var q := Scale(Scale(p, s, d), d, s);
            -(s + d) <= 2 * d * (q - p) <= s + d
  {
    var m := Scale(p, s, d);
    var q := Scale(m, d, s);
    ScaleError(p, s, d);
    ScaleError(m, d, s);
    assert d * (q - p) == (q * d - m * s) + (m * s - p * d);
    assert 2 * d * (q - p) == 2 * (d * (q - p));
  }

  lemma {:induction false} RoundTripExact(p: nat, s: nat, d: nat)
    requires 0 < s <= d
    ensures Scale(Scale(p, s, d), d, s) == p
  {
    var m := Scale(p, s, d);
    ScaleError(p, s, d);
    if s == d { QuotientIs(p * d + s / 2, s, p); assert m == p; }
    QuotientIs(m * s + d / 2, d, p);
  }

  // ---- On display axes ---------------------------------------------------------------

  lemma {:induction false} HalfStep(p: nat, s: nat, d: nat)
    requires s > 0
    ensures 2 * (Scale(p, s, d) * s - p * d) <= s && 2 * (p * d - Scale(p, s, d) * s) <= s
  {
    ScaleError(p, s, d);
  }

  lemma {:induction false} MapAxisInRange(pos: int, srcLen: int, dstLen: int)
    ensures 0 <= MapAxis(pos, srcLen, dstLen) <= AxisMax(dstLen)
  {
    var s := Max(SatSub32(srcLen, 1), 1);
    ScaleInRange(Clamp(pos, 0, s), s, AxisMax(dstLen));
  }

  /** Every position lands on the destination display, in the same order. */
  lemma {:induction false} MapAxisInOrder(pos: int, pos': int, srcLen: int, dstLen: int)
    ensures 0 <= MapAxis(pos, srcLen, dstLen) <= AxisMax(dstLen)
    ensures pos <= pos' ==> MapAxis(pos, srcLen, dstLen) <= MapAxis(pos', srcLen, dstLen)
  {
    var s, d := Max(SatSub32(srcLen, 1), 1), AxisMax(dstLen);
    ScaleInRange(Clamp(pos, 0, s), s, d);
    if pos <= pos' { ScaleMonotone(Clamp(pos, 0, s), Clamp(pos', 0, s), s, d); }
  }

  /** Both ends map exactly, and everything between to within half a destination step. */
  lemma {:induction false} MapAxisExact(pos: int, srcLen: int, d: nat)
    requires 2 <= srcLen <= I32_MAX && 0 <= pos < srcLen && d < I32_MAX
    ensures MapAxis(0, srcLen, d + 1) == 0 && MapAxis(srcLen - 1, srcLen, d + 1) == d
    ensures -(srcLen - 1) <= 2 * (MapAxis(pos, srcLen, d + 1) * (srcLen - 1) - pos * d) <= srcLen - 1
  {
    var s := srcLen - 1;
    assert AxisMax(d + 1) == d && MapAxis(pos, srcLen, d + 1) == Scale(pos, s, d);
    ScaleEnds(s, d);
    HalfStep(pos, s, d);
  }

  /** Out and back: the identity on a destination at least as long, and a bounded drift otherwise. */
  lemma {:induction false} MapAxisRoundTrip(pos: int, srcLen: int, dstLen: int)
    requires InI32(srcLen) && InI32(dstLen) && srcLen >= 2 && dstLen >= 2 && 0 <= pos < srcLen
    ensures var back := MapAxis(MapAxis(pos, srcLen, dstLen), dstLen, srcLen);
            var s, d := srcLen - 1, dstLen - 1;
            && (dstLen >= srcLen ==> back == pos)
            && -(s + d) <= 2 * d * (back - pos) <= s + d
  {
    var s, d := srcLen - 1, dstLen - 1;
    ScaleInRange(pos, s, d);
    RoundTripError(pos, s, d);
    if dstLen >= srcLen { RoundTripExact(pos, s, d); }
  }
}
