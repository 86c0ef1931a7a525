/**
 * The Rust 32-bit integer primitives the grid library is built on:
 * `i32` and `u32`, the `as` casts between them, truncating division and
 * remainder, and the `checked_*` / `saturating_*` families.
 *
 * Overflow that Rust reports by panicking (in a debug build) is a
 * precondition of the model; the checked forms return `None` instead.
 */
module RustInt {
  import opened Wrappers

  const I32_MIN: int := -0x8000_0000
  const I32_MAX: int := 0x7FFF_FFFF
  const U32_MAX: int := 0xFFFF_FFFF
  const TWO_32: int := 0x1_0000_0000

  type int32 = v: int | -0x8000_0000 <= v <= 0x7FFF_FFFF
  type uint32 = v: int | 0 <= v <= 0xFFFF_FFFF

  predicate InI32(v: int) { I32_MIN <= v <= I32_MAX }

  function Abs(v: int): nat { if v < 0 then -v else v }

  /** `v as i32` for a `u32`: the same 32 bits read in two's complement. */
  function U32AsI32(v: uint32): (r: int32)
    ensures (r - v) % TWO_32 == 0
    ensures r == v <==> v <= I32_MAX
  {
    if v <= I32_MAX then v else v - TWO_32
  }

  /** `v as u32` for an `i32`: the same 32 bits read as unsigned. */
  function I32AsU32(v: int32): (r: uint32)
    ensures (r - v) % TWO_32 == 0
    ensures r == v <==> 0 <= v
  {
    if 0 <= v then v else v + TWO_32
  }

  /** `i32::abs`, which overflows (panics) on `i32::MIN`. */
  function I32Abs(v: int32): (r: int32)
    requires v != I32_MIN
    ensures r >= 0 && (r == v || r == -v)
  {
    if v < 0 then -v else v
  }

  /** Division of naturals, rounding down. */
  function NatDiv(m: nat, n: nat): nat
    requires n > 0
  {
    m / n
  }

  /** Division rounding toward zero, as Rust's `/` on signed integers. */
  function TruncDiv(a: int, b: int): (q: int)
    requires b != 0
    ensures Abs(q) == NatDiv(Abs(a), Abs(b))
    ensures q != 0 ==> (q < 0 <==> (a < 0) != (b < 0))
  {
    var quotient: int := NatDiv(Abs(a), Abs(b));
    if (a < 0) == (b < 0) then quotient else -quotient
  }

  /** Remainder whose sign follows the dividend, as Rust's `%` on signed integers. */
  function TruncRem(a: int, b: int): (r: int)
    requires b != 0
    ensures a == TruncDiv(a, b) * b + r
    ensures Abs(r) < Abs(b)
    ensures r != 0 ==> (r < 0 <==> a < 0)
  {
    var m, n := Abs(a), Abs(b);
    assert m == (m / n) * n + m % n;
    if a < 0 then -(m % n) else m % n
  }

  /** Quotient and remainder are unique: any such decomposition is Dafny's `/` and `%`. */
  lemma DivModUnique(v: int, d: int, q: int, t: int)
    requires d > 0 && 0 <= t < d && v == q * d + t
    ensures v / d == q && v % d == t
  {
    var q', t' := v / d, v % d;
    assert v == q' * d + t';
    var e := q - q';
    assert e * d == q * d - q' * d;
    assert e * d == t' - t;
    if e >= 1 {
      MulAtLeast(e, d);
    } else if e <= -1 {
      MulAtLeast(-e, d);
    }
  }

  lemma MulAtLeast(e: int, d: int)
    requires e >= 1 && d > 0
    ensures e * d >= d
  {
    assert e * d == (e - 1) * d + d;
  }

  lemma MulMonotone(a: int, b: int, w: nat)
    requires a <= b
    ensures a * w <= b * w
  {
    assert b * w == a * w + (b - a) * w;
  }

  /** Adding a multiple of the divisor does not change the floored modulo. */
  lemma ModShift(v: int, d: int, k: int)
    requires d > 0
    ensures (v + k * d) % d == v % d
  {
    var q, t := v / d, v % d;
    assert v == q * d + t;
    assert v + k * d == (q + k) * d + t;
    DivModUnique(v + k * d, d, q + k, t);
  }

  function I32CheckedAdd(a: int32, b: int32): Option<int32> {
    if InI32(a + b) then Some(a + b) else None
  }

  function I32CheckedSub(a: int32, b: int32): Option<int32> {
    if InI32(a - b) then Some(a - b) else None
  }

  function I32CheckedMul(a: int32, b: int32): Option<int32> {
    if InI32(a * b) then Some(a * b) else None
  }

  /** `i32::checked_div`: `None` on a zero divisor and on `i32::MIN / -1`. */
  function I32CheckedDiv(a: int32, b: int32): (r: Option<int32>)
    ensures r.None? <==> b == 0 || (a == I32_MIN && b == -1)
    ensures r.Some? ==> r.value == TruncDiv(a, b)
  {
    if b == 0 || (a == I32_MIN && b == -1) then None
    else
      QuotientBound(Abs(a), Abs(b));
      Some(TruncDiv(a, b))
  }

  /** Dividing by 2 or more at least halves a natural number. */
  lemma QuotientBound(m: nat, n: nat)
    requires n >= 1
    ensures n == 1 ==> m / n == m
    ensures n >= 2 ==> m / n <= m / 2
  {
    if n >= 2 {
      var q := m / n;
      assert q * n <= m;
      assert q * 2 <= q * n;
    }
  }

  function U32CheckedSub(a: uint32, b: uint32): Option<uint32> {
    if a >= b then Some(a - b) else None
  }

  function U32SaturatingSub(a: uint32, b: uint32): uint32 {
    if a >= b then a - b else 0
  }

  function Min(a: int, b: int): int { if a <= b then a else b }

  function Max(a: int, b: int): int { if a <= b then b else a }
}
