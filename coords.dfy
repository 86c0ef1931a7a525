/**
 * The operations of `Coord`: per-axis access, conversion to `Size`,
 * wrap-around (`normalize`), validity and clamping against a `Size`,
 * checked arithmetic, squared and Manhattan distances, the exact integer
 * rotations, and component-wise minimum and maximum. `Axis::new_coord`
 * lives here too, since it only builds a `Coord`.
 */
module Coords {
  import opened Wrappers
  import opened RustInt
  import opened Grid

  // ---------------------------------------------------------------------
  // Per-axis access

  /** `Axis::new_coord`: `thisAxis` on `axis`, `otherAxis` on the other one. */
  function NewCoord(axis: Axis, thisAxis: int32, otherAxis: int32): (r: Coord)
    ensures Get(r, axis) == thisAxis && Get(r, Other(axis)) == otherAxis
  {
    match axis
    case X => Coord(thisAxis, otherAxis)
    case Y => Coord(otherAxis, thisAxis)
  }

  /** `Coord::get`: the component that lies along `axis`. */
  function Get(c: Coord, axis: Axis): (r: int32)
    ensures axis == X ==> r == c.x
    ensures axis == Y ==> r == c.y
  {
    match axis
    case X => c.x
    case Y => c.y
  }

  /** `Coord::with_axis`, with a pure function in place of the closure. */
  function WithAxis(c: Coord, axis: Axis, f: int32 -> int32): (r: Coord)
    ensures Get(r, axis) == f(Get(c, axis))
    ensures Get(r, Other(axis)) == Get(c, Other(axis))
  {
    match axis
    case X => c.(x := f(c.x))
    case Y => c.(y := f(c.y))
  }

  /** `Coord::set`: replaces the component along `axis` and keeps the other. */
  function Set(c: Coord, axis: Axis, value: int32): (r: Coord)
    ensures Get(r, axis) == value && Get(r, Other(axis)) == Get(c, Other(axis))
  {
    match axis
    case X => Coord(value, c.y)
    case Y => Coord(c.x, value)
  }

  /** `Coord::new_axis`: `Axis::new_coord` with the axis given last. */
  function NewAxis(thisAxis: int32, otherAxis: int32, axis: Axis): (r: Coord)
    ensures Get(r, axis) == thisAxis && Get(r, Other(axis)) == otherAxis
  {
    NewCoord(axis, thisAxis, otherAxis)
  }

  /** `Coord::set_x`. */
  function SetX(c: Coord, x: int32): (r: Coord)
    ensures r == Set(c, X, x)
  {
    c.(x := x)
  }

  /** `Coord::set_y`. */
  function SetY(c: Coord, y: int32): (r: Coord)
    ensures r == Set(c, Y, y)
  {
    c.(y := y)
  }

  /** Every coordinate is rebuilt by `new_coord` from its two per-axis values. */
  lemma NewCoordOfGet(c: Coord, axis: Axis)
    ensures NewCoord(axis, Get(c, axis), Get(c, Other(axis))) == c
  {
  }

  /** Setting a component to its current value changes nothing; `with_axis` is a `set`. */
  lemma SetGet(c: Coord, axis: Axis, f: int32 -> int32)
    ensures Set(c, axis, Get(c, axis)) == c
    ensures WithAxis(c, axis, f) == Set(c, axis, f(Get(c, axis)))
  {
  }

  // ---------------------------------------------------------------------
  // Conversion to Size

  /** `Coord::to_size` (also `Size::from_coord`). */
  function ToSize(c: Coord): (r: Result<Size, NegativeDimension>)
    ensures r.Err? <==> c.x < 0 || c.y < 0
    ensures r.Ok? ==> Addressable(r.value) && Width(r.value) == c.x && Height(r.value) == c.y
  {
    if c.x < 0 || c.y < 0 then Err(NegativeDimension)
    else Ok(New(I32AsU32(c.x), I32AsU32(c.y)))
  }

  // ---------------------------------------------------------------------
  // Validity, wrap-around and clamping

  /** `Coord::is_valid`: the coordinate names a cell of a grid of `size`. */
  function IsValid(c: Coord, size: Size): (r: bool)
    ensures r <==> 0 <= c.x < Width(size) && 0 <= c.y < Height(size)
  {
    if c.x < 0 || c.y < 0 then false
    else
      var x := I32AsU32(c.x);
      var y := I32AsU32(c.y);
      x < Width(size) && y < Height(size)
  }

  /**
   * `Coord::normalize_part`: the truncating remainder by `size as i32`,
   * moved up by the divisor when negative. A zero `size` is a division
   * fault; `size == 2^31` casts to `i32::MIN`, which is harmless for a
   * non-negative value and for `i32::MIN` itself (remainder 0), and
   * overflows the addition for any other negative value.
   */
  function NormalizePart(value: int32, size: uint32): (r: int32)
    requires 0 < size <= MAX_SIZE_FIELD && (size <= I32_MAX || value >= 0 || value == I32_MIN)
    ensures 0 <= r < size
  {
    var divisor := U32AsI32(size);
    var rem := TruncRem(value, divisor);
    if rem < 0 then rem + divisor else rem
  }

  /** `normalize_part` is the floored modulo (Dafny's `%` for a positive divisor). */
  lemma NormalizePartIsFlooredMod(value: int32, size: uint32)
    requires 0 < size <= MAX_SIZE_FIELD && (size <= I32_MAX || value >= 0 || value == I32_MIN)
    ensures NormalizePart(value, size) == value % size
  {
    if size <= I32_MAX {
      assert U32AsI32(size) == size;
      RemainderMovedUp(value, size);
    } else if value >= 0 {
      assert U32AsI32(size) == I32_MIN;
      assert TruncRem(value, I32_MIN) == value;
      DivModUnique(value, size, 0, value);
    } else {
      assert U32AsI32(size) == I32_MIN;
      assert TruncRem(I32_MIN, I32_MIN) == 0;
      DivModUnique(value, size, -1, 0);
    }
  }

  /** A truncating remainder by a positive divisor, moved up when negative, is the floored modulo. */
  lemma RemainderMovedUp(value: int, size: int)
    requires size > 0
    ensures var rem := TruncRem(value, size); (if rem < 0 then rem + size else rem) == value % size
  {
    var m := Abs(value);
    var k, t := m / size, m % size;
    assert m == k * size + t;
    assert TruncRem(value, size) == if value < 0 then -t else t;
    if value >= 0 {
      DivModUnique(value, size, k, t);
    } else if t == 0 {
      assert (-k) * size == -(k * size);
      DivModUnique(value, size, -k, 0);
    } else {
      assert (-k - 1) * size == -(k * size) - size;
      DivModUnique(value, size, -k - 1, size - t);
    }
  }

  /** `Coord::normalize`: wraps each component into the grid of `size`. */
  function Normalize(c: Coord, size: Size): (r: Coord)
    requires Addressable(size)
    requires 0 < Width(size) && (Width(size) <= I32_MAX || c.x >= 0 || c.x == I32_MIN)
    requires 0 < Height(size) && (Height(size) <= I32_MAX || c.y >= 0 || c.y == I32_MIN)
    ensures IsValid(r, size)
    ensures r.x == c.x % Width(size) && r.y == c.y % Height(size)
  {
    NormalizePartIsFlooredMod(c.x, Width(size));
    NormalizePartIsFlooredMod(c.y, Height(size));
    Coord(NormalizePart(c.x, Width(size)), NormalizePart(c.y, Height(size)))
  }

  /** A coordinate already inside the grid is left where it is, so `normalize` is idempotent. */
  lemma NormalizeFixesValid(c: Coord, size: Size)
    requires Addressable(size)
    requires 0 < Width(size) && (Width(size) <= I32_MAX || c.x >= 0 || c.x == I32_MIN)
    requires 0 < Height(size) && (Height(size) <= I32_MAX || c.y >= 0 || c.y == I32_MIN)
    ensures IsValid(c, size) ==> Normalize(c, size) == c
    ensures Normalize(Normalize(c, size), size) == Normalize(c, size)
  {
    var w, h := Width(size), Height(size);
    var n := Normalize(c, size);
    DivModUnique(n.x, w, 0, n.x);
    DivModUnique(n.y, h, 0, n.y);
    if IsValid(c, size) {
      DivModUnique(c.x, w, 0, c.x);
      DivModUnique(c.y, h, 0, c.y);
    }
  }

  /** Coordinates a whole number of grid widths and heights apart normalize alike. */
  lemma {:induction false} NormalizePeriodic(c: Coord, size: Size, i: int, j: int)
    requires 0 < Width(size) <= I32_MAX && 0 < Height(size) <= I32_MAX
    requires InI32(c.x + i * Width(size)) && InI32(c.y + j * Height(size))
    ensures Normalize(Coord(c.x + i * Width(size), c.y + j * Height(size)), size) == Normalize(c, size)
  {
    var w, h := Width(size), Height(size);
    ModShift(c.x, w, i);
    ModShift(c.y, h, j);
  }

  /** The values the tests give. */
  lemma NormalizeExamples()
    ensures Normalize(Coord(5, 2), Size(2, 3)) == Coord(1, 2)
    ensures Normalize(Coord(-4, 3), Size(3, 1)) == Coord(2, 0)
  {
  }

  /** The value one axis of `constrain` produces for a non-empty dimension. */
  function Clamp(v: int, dim: nat): int
    requires dim > 0
  {
    if v < 0 then 0 else if v >= dim then dim - 1 else v
  }

  /**
   * `Coord::constrain`: raises negative components to 0, then lowers
   * components past the last cell to `dimension - 1`; a zero dimension
   * (whose `checked_sub(1)` fails) gives `None`. On a dimension above the
   * bound, `(dimension - 1) as i32` wraps to a negative number, which
   * becomes that component of the result.
   */
  method Constrain(c: Coord, size: Size) returns (r: Option<Coord>)
    ensures r.None? <==> Width(size) == 0 || Height(size) == 0
    ensures r.Some? && Addressable(size) ==> IsValid(r.value, size)
    ensures r.Some? && Addressable(size) ==>
      r.value.x == Clamp(c.x, Width(size)) && r.value.y == Clamp(c.y, Height(size))
    ensures Addressable(size) && IsValid(c, size) ==> r == Some(c)
    ensures r.Some? && Width(size) > MAX_SIZE_FIELD ==> r.value.x < 0
    ensures r.Some? && Height(size) > MAX_SIZE_FIELD ==> r.value.y < 0
  {
    var cur := c;
    if cur.x < 0 {
      cur := cur.(x := 0);
    }
    if cur.y < 0 {
      cur := cur.(y := 0);
    }
    var lastX := U32CheckedSub(Width(size), 1);
    if lastX.None? {
      return None;
    }
    var maxX := U32AsI32(lastX.value);
    if cur.x > maxX {
      cur := cur.(x := maxX);
    }
    var lastY := U32CheckedSub(Height(size), 1);
    if lastY.None? {
      return None;
    }
    var maxY := U32AsI32(lastY.value);
    if cur.y > maxY {
      cur := cur.(y := maxY);
    }
    r := Some(cur);
  }

  /** Clamping moves a component no further than to any other cell of the dimension. */
  lemma ClampIsNearest(v: int, dim: nat, t: int)
    requires dim > 0 && 0 <= t < dim
    ensures Abs(v - Clamp(v, dim)) <= Abs(v - t)
  {
  }

  // ---------------------------------------------------------------------
  // Checked arithmetic

  /** `Coord::checked_add`. */
  function CheckedAdd(a: Coord, b: Coord): (r: Option<Coord>)
    ensures r.None? <==> !InI32(a.x + b.x) || !InI32(a.y + b.y)
    ensures r.Some? ==> r.value == Coord(a.x + b.x, a.y + b.y)
  {
    var x :- I32CheckedAdd(a.x, b.x);
    var y :- I32CheckedAdd(a.y, b.y);
    Some(Coord(x, y))
  }

  /** `Coord::checked_sub`. */
  function CheckedSub(a: Coord, b: Coord): (r: Option<Coord>)
    ensures r.None? <==> !InI32(a.x - b.x) || !InI32(a.y - b.y)
    ensures r.Some? ==> r.value == Coord(a.x - b.x, a.y - b.y)
  {
    var x :- I32CheckedSub(a.x, b.x);
    var y :- I32CheckedSub(a.y, b.y);
    Some(Coord(x, y))
  }

  /** `Coord::checked_mul` by a scalar. */
  function CheckedMul(c: Coord, k: int32): (r: Option<Coord>)
    ensures r.None? <==> !InI32(c.x * k) || !InI32(c.y * k)
    ensures r.Some? ==> r.value == Coord(c.x * k, c.y * k)
  {
    var x :- I32CheckedMul(c.x, k);
    var y :- I32CheckedMul(c.y, k);
    Some(Coord(x, y))
  }

  /** `Coord::checked_div` by a scalar, rounding toward zero. */
  function CheckedDiv(c: Coord, k: int32): (r: Option<Coord>)
    ensures r.None? <==> k == 0 || (k == -1 && (c.x == I32_MIN || c.y == I32_MIN))
    ensures r.Some? ==> r.value == Coord(TruncDiv(c.x, k), TruncDiv(c.y, k))
  {
    var x :- I32CheckedDiv(c.x, k);
    var y :- I32CheckedDiv(c.y, k);
    Some(Coord(x, y))
  }

  /** A successful `checked_sub` undoes `checked_add`, and the other way round. */
  lemma CheckedSubUndoesAdd(a: Coord, b: Coord)
    ensures CheckedAdd(a, b).Some? ==> CheckedSub(CheckedAdd(a, b).value, b) == Some(a)
    ensures CheckedSub(a, b).Some? ==> CheckedAdd(CheckedSub(a, b).value, b) == Some(a)
  {
  }

  /** Dividing an exact multiple by its non-zero factor gives the multiplicand back. */
  lemma {:induction false} CheckedDivUndoesMul(c: Coord, k: int32)
    requires k != 0 && CheckedMul(c, k).Some?
    ensures CheckedDiv(CheckedMul(c, k).value, k) == Some(c)
  {
    TruncDivOfMultiple(c.x, k);
    TruncDivOfMultiple(c.y, k);
    if k == -1 {
      assert c.x * k != I32_MIN && c.y * k != I32_MIN;
    }
  }

  /** Rounding toward zero is exact on a multiple of the divisor. */
  lemma TruncDivOfMultiple(v: int, k: int)
    requires k != 0
    ensures TruncDiv(v * k, k) == v
  {
    var n := Abs(k);
    if v == 0 {
      assert v * k == 0;
    } else if v > 0 && k > 0 {
      DivModUnique(v * k, n, v, 0);
    } else if v > 0 {
      assert v * k == -(v * n);
      DivModUnique(v * n, n, v, 0);
    } else if k > 0 {
      assert v * k == -((-v) * n);
      DivModUnique((-v) * n, n, -v, 0);
    } else {
      assert v * k == (-v) * n;
      DivModUnique((-v) * n, n, -v, 0);
    }
  }

  // ---------------------------------------------------------------------
  // Distances (computed in i32 and u32, without widening)

  /** `Coord::magnitude2`: the squares are `i32` products, summed as `u32`. */
  function Magnitude2(c: Coord): (r: uint32)
    requires c.x * c.x <= I32_MAX && c.y * c.y <= I32_MAX
    ensures r == c.x * c.x + c.y * c.y
  {
    I32AsU32(c.x * c.x) + I32AsU32(c.y * c.y)
  }

  /** `Coord::distance2`: `magnitude2` of the `i32` difference. */
  function Distance2(a: Coord, b: Coord): (r: uint32)
    requires InI32(a.x - b.x) && InI32(a.y - b.y)
    requires (a.x - b.x) * (a.x - b.x) <= I32_MAX && (a.y - b.y) * (a.y - b.y) <= I32_MAX
    ensures r == (a.x - b.x) * (a.x - b.x) + (a.y - b.y) * (a.y - b.y)
  {
    Magnitude2(Coord(a.x - b.x, a.y - b.y))
  }

  /** `Coord::manhattan_magnitude`: `i32::abs` of each component, summed as `u32`. */
  function ManhattanMagnitude(c: Coord): (r: uint32)
    requires c.x != I32_MIN && c.y != I32_MIN
    ensures r == Abs(c.x) + Abs(c.y)
  {
    I32AsU32(I32Abs(c.x)) + I32AsU32(I32Abs(c.y))
  }

  /** `Coord::manhattan_distance`: `manhattan_magnitude` of the `i32` difference. */
  function ManhattanDistance(a: Coord, b: Coord): (r: uint32)
    requires Abs(a.x - b.x) <= I32_MAX && Abs(a.y - b.y) <= I32_MAX
    ensures r == Abs(a.x - b.x) + Abs(a.y - b.y)
  {
    ManhattanMagnitude(Coord(a.x - b.x, a.y - b.y))
  }

  /** Squared distance is symmetric: where it is defined one way it is defined the other, and equal. */
  lemma Distance2Symmetric(a: Coord, b: Coord)
    requires InI32(a.x - b.x) && InI32(a.y - b.y)
    requires (a.x - b.x) * (a.x - b.x) <= I32_MAX && (a.y - b.y) * (a.y - b.y) <= I32_MAX
    ensures InI32(b.x - a.x) && InI32(b.y - a.y)
    ensures (b.x - a.x) * (b.x - a.x) <= I32_MAX && (b.y - a.y) * (b.y - a.y) <= I32_MAX
    ensures Distance2(a, b) == Distance2(b, a)
  {
    assert (b.x - a.x) * (b.x - a.x) == (a.x - b.x) * (a.x - b.x);
    assert (b.y - a.y) * (b.y - a.y) == (a.y - b.y) * (a.y - b.y);
  }

  /** Manhattan distance is a metric: zero only between equal points, symmetric, triangle inequality. */
  lemma ManhattanIsMetric(a: Coord, b: Coord, c: Coord)
    requires Abs(a.x - b.x) <= I32_MAX && Abs(a.y - b.y) <= I32_MAX
    requires Abs(b.x - c.x) <= I32_MAX && Abs(b.y - c.y) <= I32_MAX
    requires Abs(a.x - c.x) <= I32_MAX && Abs(a.y - c.y) <= I32_MAX
    ensures ManhattanDistance(a, b) == 0 <==> a == b
    ensures ManhattanDistance(a, b) == ManhattanDistance(b, a)
    ensures ManhattanDistance(a, c) <= ManhattanDistance(a, b) + ManhattanDistance(b, c)
  {
  }

  /** The value the tests give. */
  lemma ManhattanExample()
    ensures ManhattanDistance(Coord(-2, 4), Coord(5, -2)) == 13
  {
  }

  // ---------------------------------------------------------------------
  // Rotations: exact integer maps, each defined where its i32 arithmetic does not overflow.
  // Each one's geometry lemma gives the dot and cross product of the result with the
  // input and the result's squared length, which fix the result (`RotationIsDetermined`).
  // With x growing to the right and y growing downward, as on a screen, a turn to the
  // left has a negative cross product.

  /** Dot product of two coordinates, as unbounded integers. */
  function Dot(a: Coord, b: Coord): int {
    a.x * b.x + a.y * b.y
  }

  /** Cross product of two coordinates, as an unbounded integer. */
  function Cross(a: Coord, b: Coord): int {
    a.x * b.y - a.y * b.x
  }

  /** Squared length of a coordinate, as an unbounded integer. */
  function Norm2(c: Coord): int {
    c.x * c.x + c.y * c.y
  }

  /** `Coord::opposite`: (-x, -y). */
  function Opposite(c: Coord): Coord
    requires c.x != I32_MIN && c.y != I32_MIN
  {
    Coord(-c.x, -c.y)
  }

  /** `Coord::left90`: (y, -x). */
  function Left90(c: Coord): Coord
    requires c.x != I32_MIN
  {
    Coord(c.y, -c.x)
  }

  /** `Coord::right90`: (-y, x). */
  function Right90(c: Coord): Coord
    requires c.y != I32_MIN
  {
    Coord(-c.y, c.x)
  }

  /** `Coord::cardinal_left45`: (y + x, y - x). */
  function CardinalLeft45(c: Coord): Coord
    requires InI32(c.y + c.x) && InI32(c.y - c.x)
  {
    Coord(c.y + c.x, c.y - c.x)
  }

  /** `Coord::cardinal_right45`: (x - y, y + x). */
  function CardinalRight45(c: Coord): Coord
    requires InI32(c.x - c.y) && InI32(c.y + c.x)
  {
    Coord(c.x - c.y, c.y + c.x)
  }

  /** `Coord::cardinal_left135`: (y - x, -x - y). */
  function CardinalLeft135(c: Coord): Coord
    requires c.x != I32_MIN && InI32(c.y - c.x) && InI32(-c.x - c.y)
  {
    Coord(c.y - c.x, -c.x - c.y)
  }

  /** `Coord::cardinal_right135`: (-y - x, x - y). */
  function CardinalRight135(c: Coord): Coord
    requires c.y != I32_MIN && InI32(-c.y - c.x) && InI32(c.x - c.y)
  {
    Coord(-c.y - c.x, c.x - c.y)
  }

  /**
   * A coordinate is fixed by its dot and cross product with a non-zero
   * input; at the origin, only the zero coordinate has squared length 0.
   */
  lemma {:induction false} RotationIsDetermined(c: Coord, r: Coord, s: Coord)
    requires Dot(c, r) == Dot(c, s) && Cross(c, r) == Cross(c, s)
    requires c == Coord(0, 0) ==> Norm2(r) == 0 && Norm2(s) == 0
    ensures r == s
  {
    if c == Coord(0, 0) {
      ZeroNorm(r);
      ZeroNorm(s);
    } else {
      var n := Norm2(c);
      ZeroNorm(c);
      assert r.x * n == c.x * Dot(c, r) - c.y * Cross(c, r);
      assert s.x * n == c.x * Dot(c, s) - c.y * Cross(c, s);
      assert r.y * n == c.y * Dot(c, r) + c.x * Cross(c, r);
      assert s.y * n == c.y * Dot(c, s) + c.x * Cross(c, s);
      CancelPositive(r.x, s.x, n);
      CancelPositive(r.y, s.y, n);
    }
  }

  lemma ZeroNorm(c: Coord)
    ensures Norm2(c) >= 0
    ensures Norm2(c) == 0 <==> c == Coord(0, 0)
  {
    if c.x != 0 {
      assert c.x * c.x > 0;
    }
    if c.y != 0 {
      assert c.y * c.y > 0;
    }
  }

  lemma CancelPositive(a: int, b: int, n: int)
    requires n > 0 && a * n == b * n
    ensures a == b
  {
  }

  /** `opposite` is the half turn: anti-parallel to the input, with the same length. */
  lemma OppositeGeometry(c: Coord)
    requires c.x != I32_MIN && c.y != I32_MIN
    ensures Dot(c, Opposite(c)) == -Norm2(c) && Cross(c, Opposite(c)) == 0
    ensures Norm2(Opposite(c)) == Norm2(c)
  {
  }

  /** `left90` is the quarter turn to the left, with the same length. */
  lemma Left90Geometry(c: Coord)
    requires c.x != I32_MIN
    ensures Dot(c, Left90(c)) == 0 && Cross(c, Left90(c)) == -Norm2(c)
    ensures Norm2(Left90(c)) == Norm2(c)
  {
  }

  /** `right90` is the quarter turn to the right, with the same length. */
  lemma Right90Geometry(c: Coord)
    requires c.y != I32_MIN
    ensures Dot(c, Right90(c)) == 0 && Cross(c, Right90(c)) == Norm2(c)
    ensures Norm2(Right90(c)) == Norm2(c)
  {
  }

  /** `cardinal_left45` turns 45 degrees left and scales the length by the square root of 2. */
  lemma CardinalLeft45Geometry(c: Coord)
    requires InI32(c.y + c.x) && InI32(c.y - c.x)
    ensures Dot(c, CardinalLeft45(c)) == Norm2(c) && Cross(c, CardinalLeft45(c)) == -Norm2(c)
    ensures Norm2(CardinalLeft45(c)) == 2 * Norm2(c)
  {
  }

  /** `cardinal_right45` turns 45 degrees right and scales the length by the square root of 2. */
  lemma CardinalRight45Geometry(c: Coord)
    requires InI32(c.x - c.y) && InI32(c.y + c.x)
    ensures Dot(c, CardinalRight45(c)) == Norm2(c) && Cross(c, CardinalRight45(c)) == Norm2(c)
    ensures Norm2(CardinalRight45(c)) == 2 * Norm2(c)
  {
  }

  /** `cardinal_left135` turns 135 degrees left and scales the length by the square root of 2. */
  lemma CardinalLeft135Geometry(c: Coord)
    requires c.x != I32_MIN && InI32(c.y - c.x) && InI32(-c.x - c.y)
    ensures Dot(c, CardinalLeft135(c)) == -Norm2(c) && Cross(c, CardinalLeft135(c)) == -Norm2(c)
    ensures Norm2(CardinalLeft135(c)) == 2 * Norm2(c)
  {
  }

  /** `cardinal_right135` turns 135 degrees right and scales the length by the square root of 2. */
  lemma CardinalRight135Geometry(c: Coord)
    requires c.y != I32_MIN && InI32(-c.y - c.x) && InI32(c.x - c.y)
    ensures Dot(c, CardinalRight135(c)) == -Norm2(c) && Cross(c, CardinalRight135(c)) == Norm2(c)
    ensures Norm2(CardinalRight135(c)) == 2 * Norm2(c)
  {
  }

  /** `opposite` is an involution; two quarter turns either way are `opposite`. */
  lemma OppositeInvolution(c: Coord)
    requires c.x != I32_MIN && c.y != I32_MIN
    ensures Opposite(Opposite(c)) == c
    ensures Left90(Left90(c)) == Opposite(c)
    ensures Right90(Right90(c)) == Opposite(c)
  {
  }

  /** `left90` and `right90` are inverse to each other. */
  lemma QuarterTurnsInverse(c: Coord)
    requires c.x != I32_MIN && c.y != I32_MIN
    ensures Left90(Right90(c)) == c
    ensures Right90(Left90(c)) == c
  {
  }

  /** The 135-degree steps are a 45-degree step followed by a quarter turn. */
  lemma Cardinal135IsQuarterAfter45(c: Coord)
    requires c.x != I32_MIN && c.y != I32_MIN
    requires InI32(c.y + c.x) && InI32(c.y - c.x) && InI32(c.x - c.y)
    requires c.x + c.y != I32_MIN
    ensures CardinalLeft135(c) == Left90(CardinalLeft45(c))
    ensures CardinalRight135(c) == Right90(CardinalRight45(c))
  {
  }

  /** A left 45 step followed by a right 45 step doubles the coordinate: not a true rotation. */
  lemma Cardinal45RoundTripDoubles(c: Coord)
    requires InI32(c.y + c.x) && InI32(c.y - c.x)
    requires InI32(2 * c.x) && InI32(2 * c.y)
    ensures CardinalRight45(CardinalLeft45(c)) == Coord(2 * c.x, 2 * c.y)
  {
  }

  /** Quarter turns and `opposite` keep both magnitudes; a 45-degree step doubles the squared one. */
  lemma {:induction false} RotationMagnitudes(c: Coord)
    requires c.x != I32_MIN && c.y != I32_MIN
    requires c.x * c.x <= I32_MAX && c.y * c.y <= I32_MAX
    requires InI32(c.y + c.x) && InI32(c.y - c.x)
    requires (c.y + c.x) * (c.y + c.x) <= I32_MAX && (c.y - c.x) * (c.y - c.x) <= I32_MAX
    ensures Magnitude2(Left90(c)) == Magnitude2(c) == Magnitude2(Right90(c)) == Magnitude2(Opposite(c))
    ensures ManhattanMagnitude(Left90(c)) == ManhattanMagnitude(c) == ManhattanMagnitude(Right90(c))
    ensures ManhattanMagnitude(Opposite(c)) == ManhattanMagnitude(c)
    ensures Magnitude2(CardinalLeft45(c)) == 2 * Magnitude2(c)
  {
    assert (-c.x) * (-c.x) == c.x * c.x;
    assert (-c.y) * (-c.y) == c.y * c.y;
    assert (c.y + c.x) * (c.y + c.x) + (c.y - c.x) * (c.y - c.x) == 2 * (c.x * c.x + c.y * c.y);
  }

  /** The values the tests give. */
  lemma RotationExamples()
    ensures Opposite(Coord(2, -3)) == Coord(-2, 3)
    ensures Left90(Coord(2, -3)) == Coord(-3, -2)
    ensures Right90(Coord(2, -3)) == Coord(3, 2)
    ensures CardinalLeft135(Coord(0, -1)) == Coord(-1, 1)
    ensures CardinalRight135(Coord(0, -1)) == Coord(1, 1)
    ensures CardinalLeft135(Coord(-1, 0)) == Coord(1, 1)
    ensures CardinalRight135(Coord(-1, 0)) == Coord(1, -1)
  {
  }

  // ---------------------------------------------------------------------
  // Miscellaneous

  /** `Coord::is_zero`. */
  function IsZero(c: Coord): (r: bool)
    ensures r <==> c == Coord(0, 0)
  {
    c.x == 0 && c.y == 0
  }

  /** `Coord::pairwise_max`: the least coordinate at or above both on each axis. */
  function PairwiseMax(a: Coord, b: Coord): (r: Coord)
    ensures a.x <= r.x && b.x <= r.x && (r.x == a.x || r.x == b.x)
    ensures a.y <= r.y && b.y <= r.y && (r.y == a.y || r.y == b.y)
  {
    Coord(Max(a.x, b.x), Max(a.y, b.y))
  }

  /** `Coord::pairwise_min`: the greatest coordinate at or below both on each axis. */
  function PairwiseMin(a: Coord, b: Coord): (r: Coord)
    ensures r.x <= a.x && r.x <= b.x && (r.x == a.x || r.x == b.x)
    ensures r.y <= a.y && r.y <= b.y && (r.y == a.y || r.y == b.y)
  {
    Coord(Min(a.x, b.x), Min(a.y, b.y))
  }

  /** Only the origin has Manhattan magnitude zero. */
  lemma ManhattanZeroIffZero(c: Coord)
    requires c.x != I32_MIN && c.y != I32_MIN
    ensures ManhattanMagnitude(c) == 0 <==> IsZero(c)
  {
  }
}
