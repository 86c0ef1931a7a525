/**
 * The operations of `Size`: per-axis access and checked setters, the
 * conversions to and from `Coord`, the cell count, component-wise
 * subtraction, minimum and maximum, and the `is_valid` / `constrain`
 * forms that delegate to `Coord`. `Axis::try_new_size` and
 * `Axis::new_size` live here too, since they only build a `Size`.
 */
module Sizes {
  import opened Wrappers
  import opened RustInt
  import opened Grid
  import Coords

  /** `Size::get`: the dimension that lies along `axis`. */
  function Get(s: Size, axis: Axis): (r: uint32)
    ensures axis == X ==> r == s.x
    ensures axis == Y ==> r == s.y
  {
    match axis
    case X => s.x
    case Y => s.y
  }

  /** `width` (and its alias `x`) is the X dimension; `height` (alias `y`) is the Y dimension. */
  lemma WidthAndHeight(s: Size)
    ensures Width(s) == Get(s, X) && Height(s) == Get(s, Y)
    ensures Get(s, Other(X)) == Height(s) && Get(s, Other(Y)) == Width(s)
  {
  }

  /** `Axis::try_new_size`: `try_new` with `thisAxis` placed on `axis`. */
  function TryNewSize(axis: Axis, thisAxis: uint32, otherAxis: uint32): (r: Result<Size, DimensionTooLargeForSize>)
    ensures r.Ok? <==> thisAxis <= MAX_SIZE_FIELD && otherAxis <= MAX_SIZE_FIELD
    ensures r.Ok? ==> Addressable(r.value)
    ensures r.Ok? ==> Get(r.value, axis) == thisAxis && Get(r.value, Other(axis)) == otherAxis
  {
    match axis
    case X => TryNew(thisAxis, otherAxis)
    case Y => TryNew(otherAxis, thisAxis)
  }

  /** `Axis::new_size`: the panicking form of `try_new_size`. */
  function NewSize(axis: Axis, thisAxis: uint32, otherAxis: uint32): (r: Size)
    requires thisAxis <= MAX_SIZE_FIELD && otherAxis <= MAX_SIZE_FIELD
    ensures TryNewSize(axis, thisAxis, otherAxis) == Ok(r)
  {
    match axis
    case X => New(thisAxis, otherAxis)
    case Y => New(otherAxis, thisAxis)
  }

  /** `Size::try_new_axis`: `Axis::try_new_size` with the axis given last. */
  function TryNewAxis(thisAxis: uint32, otherAxis: uint32, axis: Axis): (r: Result<Size, DimensionTooLargeForSize>)
    ensures r.Ok? <==> thisAxis <= MAX_SIZE_FIELD && otherAxis <= MAX_SIZE_FIELD
    ensures r.Ok? ==> Get(r.value, axis) == thisAxis && Get(r.value, Other(axis)) == otherAxis
  {
    TryNewSize(axis, thisAxis, otherAxis)
  }

  /** `Size::new_axis`: `Axis::new_size` with the axis given last. */
  function NewAxis(thisAxis: uint32, otherAxis: uint32, axis: Axis): (r: Size)
    requires thisAxis <= MAX_SIZE_FIELD && otherAxis <= MAX_SIZE_FIELD
    ensures Addressable(r) && Get(r, axis) == thisAxis && Get(r, Other(axis)) == otherAxis
  {
    NewSize(axis, thisAxis, otherAxis)
  }

  /** `Size::try_set`: checks the value, then replaces the selected field. */
  function TrySet(s: Size, axis: Axis, value: uint32): (r: Result<Size, DimensionTooLargeForSize>)
    ensures r.Ok? <==> value <= MAX_SIZE_FIELD
    ensures r.Ok? ==> Get(r.value, axis) == value && Get(r.value, Other(axis)) == Get(s, Other(axis))
    ensures r.Ok? && Addressable(s) ==> Addressable(r.value)
  {
    var _ :- CheckSizeLimit(value);
    Ok(match axis
       case X => Size(value, s.y)
       case Y => Size(s.x, value))
  }

  /** `Size::set`: the panicking form of `try_set`. */
  function Set(s: Size, axis: Axis, value: uint32): (r: Size)
    requires value <= MAX_SIZE_FIELD
    ensures TrySet(s, axis, value) == Ok(r)
  {
    TrySet(s, axis, value).value
  }

  /**
   * `Size::with_axis`, with a pure function in place of the closure. As
   * written it stores `f`'s result without the bounds check.
   */
  function WithAxis(s: Size, axis: Axis, f: uint32 -> uint32): (r: Size)
    ensures Get(r, axis) == f(Get(s, axis))
    ensures Get(r, Other(axis)) == Get(s, Other(axis))
  {
    match axis
    case X => s.(x := f(s.x))
    case Y => s.(y := f(s.y))
  }

  /** `with_axis` can leave the bound: the result need not be an addressable size. */
  lemma WithAxisEscapesBound()
    ensures Addressable(Size(1, 1))
    ensures !Addressable(WithAxis(Size(1, 1), X, (v: uint32) => U32_MAX as uint32))
  {
  }

  /** `with_axis` routed through `check_size_limit`, as every other setter is. */
  function TryWithAxis(s: Size, axis: Axis, f: uint32 -> uint32): (r: Result<Size, DimensionTooLargeForSize>)
    ensures r.Ok? <==> f(Get(s, axis)) <= MAX_SIZE_FIELD
    ensures r.Ok? ==> Get(r.value, axis) == f(Get(s, axis)) && Get(r.value, Other(axis)) == Get(s, Other(axis))
    ensures r.Ok? && Addressable(s) ==> Addressable(r.value)
  {
    TrySet(s, axis, f(Get(s, axis)))
  }

  /** A successful `try_set` agrees with the unchecked `with_axis`. */
  lemma TryWithAxisAgrees(s: Size, axis: Axis, f: uint32 -> uint32)
    ensures TryWithAxis(s, axis, f).Ok? ==> TryWithAxis(s, axis, f).value == WithAxis(s, axis, f)
  {
  }

  /** `set` writes the selected field; writing back the current field of an addressable size changes nothing. */
  lemma SetThenGet(s: Size, axis: Axis, value: uint32)
    requires Addressable(s) && value <= MAX_SIZE_FIELD
    ensures Get(Set(s, axis, value), axis) == value
    ensures Set(s, axis, Get(s, axis)) == s
  {
  }

  // ---------------------------------------------------------------------
  // Conversions

  /** `Size::to_coord` (also `Coord::from_size`). */
  function ToCoord(s: Size): (r: Result<Coord, DimensionTooLargeForCoord>)
    ensures r.Err? <==> Width(s) > I32_MAX || Height(s) > I32_MAX
    ensures r.Ok? ==> r.value.x == Width(s) && r.value.y == Height(s)
  {
    if s.x > I32_MAX || s.y > I32_MAX then Err(DimensionTooLargeForCoord)
    else Ok(Coord(U32AsI32(s.x), U32AsI32(s.y)))
  }

  /** `Size::from_coord`: forwards to `Coord::to_size`. */
  function FromCoord(c: Coord): (r: Result<Size, NegativeDimension>)
    ensures r.Err? <==> c.x < 0 || c.y < 0
    ensures r.Ok? ==> Addressable(r.value) && Width(r.value) == c.x && Height(r.value) == c.y
  {
    Coords.ToSize(c)
  }

  /** Converting a size to a coordinate and back gives the size again. */
  lemma ToCoordRoundTrip(s: Size)
    ensures ToCoord(s).Ok? ==> Coords.ToSize(ToCoord(s).value) == Ok(s)
  {
  }

  /** Converting a coordinate to a size and back gives the coordinate again. */
  lemma ToSizeRoundTrip(c: Coord)
    ensures Coords.ToSize(c).Ok? ==> ToCoord(Coords.ToSize(c).value) == Ok(c)
  {
  }

  /** The one field value a size can hold and a coordinate cannot is `MAX_SIZE_FIELD`. */
  lemma OnlyMaxFieldFailsToCoord(s: Size)
    requires Addressable(s)
    ensures ToCoord(s).Err? <==> Width(s) == MAX_SIZE_FIELD || Height(s) == MAX_SIZE_FIELD
    ensures ToCoord(MAX_SIZE).Err?
  {
  }

  // ---------------------------------------------------------------------
  // Arithmetic

  /** `Size::count`: the `u32` product of the fields, which must not overflow. */
  function Count(s: Size): (r: nat)
    requires Width(s) * Height(s) <= U32_MAX
    ensures r == Width(s) * Height(s)
  {
    s.x * s.y
  }

  /**
   * `Size::checked_sub`: `u32::checked_sub` per field, rebuilt with
   * `Size::new`, which panics unless both differences are within the bound.
   */
  function CheckedSub(a: Size, b: Size): (r: Option<Size>)
    requires Width(b) <= Width(a) && Height(b) <= Height(a) ==>
      Width(a) - Width(b) <= MAX_SIZE_FIELD && Height(a) - Height(b) <= MAX_SIZE_FIELD
    ensures r.None? <==> Width(a) < Width(b) || Height(a) < Height(b)
    ensures r.Some? ==> Addressable(r.value)
    ensures r.Some? ==> Width(r.value) + Width(b) == Width(a) && Height(r.value) + Height(b) == Height(a)
  {
    var x :- U32CheckedSub(a.x, b.x);
    var y :- U32CheckedSub(a.y, b.y);
    Some(New(x, y))
  }

  /**
   * `Size::saturating_sub`: each field is `a - b`, or 0 where that would be
   * negative, rebuilt with `Size::new`.
   */
  function SaturatingSub(a: Size, b: Size): (r: Size)
    requires Width(a) - Width(b) <= MAX_SIZE_FIELD && Height(a) - Height(b) <= MAX_SIZE_FIELD
    ensures Addressable(r)
    ensures Width(r) == Max(Width(a) - Width(b), 0) && Height(r) == Max(Height(a) - Height(b), 0)
  {
    var x := U32SaturatingSub(a.x, b.x);
    var y := U32SaturatingSub(a.y, b.y);
    New(x, y)
  }

  /** `saturating_sub` agrees with `checked_sub` where that succeeds, and clamps a field to 0 where it fails. */
  lemma SaturatingSubAgrees(a: Size, b: Size)
    requires Width(a) - Width(b) <= MAX_SIZE_FIELD && Height(a) - Height(b) <= MAX_SIZE_FIELD
    ensures CheckedSub(a, b).Some? ==> SaturatingSub(a, b) == CheckedSub(a, b).value
    ensures CheckedSub(a, b).None? ==> Width(SaturatingSub(a, b)) == 0 || Height(SaturatingSub(a, b)) == 0
  {
  }

  /** `Size::is_zero`. */
  function IsZero(s: Size): (r: bool)
    ensures r <==> s == Size(0, 0)
  {
    s.x == 0 && s.y == 0
  }

  /** `Size::pairwise_max`: the least size at or above both; stays addressable. */
  function PairwiseMax(a: Size, b: Size): (r: Size)
    ensures Width(a) <= Width(r) && Width(b) <= Width(r) && (Width(r) == Width(a) || Width(r) == Width(b))
    ensures Height(a) <= Height(r) && Height(b) <= Height(r) && (Height(r) == Height(a) || Height(r) == Height(b))
    ensures Addressable(a) && Addressable(b) ==> Addressable(r)
  {
    Size(Max(a.x, b.x), Max(a.y, b.y))
  }

  /** `Size::pairwise_min`: the greatest size at or below both; stays addressable. */
  function PairwiseMin(a: Size, b: Size): (r: Size)
    ensures Width(r) <= Width(a) && Width(r) <= Width(b) && (Width(r) == Width(a) || Width(r) == Width(b))
    ensures Height(r) <= Height(a) && Height(r) <= Height(b) && (Height(r) == Height(a) || Height(r) == Height(b))
    ensures Addressable(a) || Addressable(b) ==> Addressable(r)
  {
    Size(Min(a.x, b.x), Min(a.y, b.y))
  }

  // ---------------------------------------------------------------------
  // Delegations to Coord

  /** `Size::is_valid`: forwards to `Coord::is_valid`. */
  function IsValid(s: Size, c: Coord): (r: bool)
    ensures r <==> 0 <= c.x < Width(s) && 0 <= c.y < Height(s)
  {
    Coords.IsValid(c, s)
  }

  /** `Size::constrain`: forwards to `Coord::constrain`. */
  method Constrain(s: Size, c: Coord) returns (r: Option<Coord>)
    ensures r.None? <==> Width(s) == 0 || Height(s) == 0
    ensures r.Some? && Addressable(s) ==> IsValid(s, r.value)
    ensures r.Some? && Addressable(s) ==>
      r.value.x == Coords.Clamp(c.x, Width(s)) && r.value.y == Coords.Clamp(c.y, Height(s))
    ensures Addressable(s) && IsValid(s, c) ==> r == Some(c)
    ensures r.Some? && Width(s) > MAX_SIZE_FIELD ==> r.value.x < 0
    ensures r.Some? && Height(s) > MAX_SIZE_FIELD ==> r.value.y < 0
  {
    r := Coords.Constrain(c, s);
  }
}
