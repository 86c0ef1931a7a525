/**
 * The value types of the grid library: the runtime `Axis` tag, the signed
 * `Coord`, the unsigned `Size` with its bound `MAX_SIZE_FIELD`, the three
 * error markers, and the bounds check that every `Size` constructor and
 * setter goes through.
 */
module Grid {
  import opened Wrappers
  import opened RustInt

  /** One of the two grid dimensions. */
  datatype Axis = X | Y

  /** A grid position; it may be negative or lie outside any `Size`. */
  datatype Coord = Coord(x: int32, y: int32)

  /** A grid extent (width `x`, height `y`); see `Addressable` for its documented bound. */
  datatype Size = Size(x: uint32, y: uint32)

  /** A `Coord` to `Size` conversion saw a negative component. */
  datatype NegativeDimension = NegativeDimension

  /** A `Size` field would exceed `MAX_SIZE_FIELD`. */
  datatype DimensionTooLargeForSize = DimensionTooLargeForSize

  /** A `Size` to `Coord` conversion would leave the signed range. */
  datatype DimensionTooLargeForCoord = DimensionTooLargeForCoord

  /** One more than `i32::MAX`: every cell of a grid this wide is addressable by an `i32`. */
  const MAX_SIZE_FIELD: uint32 := I32_MAX + 1

  /** The largest size (`Size::max`); `MAX_SIZE_FIELD` is `Size::max_field`. */
  const MAX_SIZE: Size := Size(MAX_SIZE_FIELD, MAX_SIZE_FIELD)

  /** The documented bound on a `Size`; `with_axis` and `get_mut` can break it. */
  predicate Addressable(s: Size) {
    s.x <= MAX_SIZE_FIELD && s.y <= MAX_SIZE_FIELD
  }

  /** `check_size_limit`: the bounds check shared by all constructors and setters. */
  function CheckSizeLimit(value: uint32): (r: Result<(), DimensionTooLargeForSize>)
    ensures r.Ok? <==> value <= MAX_SIZE_FIELD
  {
    if value > MAX_SIZE_FIELD then Err(DimensionTooLargeForSize) else Ok(())
  }

  /** `Size::width` (alias `Size::x`). */
  function Width(s: Size): uint32 { s.x }

  /** `Size::height` (alias `Size::y`). */
  function Height(s: Size): uint32 { s.y }

  /** `Size::try_new`: checks the width, then the height. */
  function TryNew(width: uint32, height: uint32): (r: Result<Size, DimensionTooLargeForSize>)
    ensures r.Ok? <==> width <= MAX_SIZE_FIELD && height <= MAX_SIZE_FIELD
    ensures r.Ok? ==> Addressable(r.value) && Width(r.value) == width && Height(r.value) == height
  {
    var _ :- CheckSizeLimit(width);
    var _ :- CheckSizeLimit(height);
    Ok(Size(width, height))
  }

  /** `Size::new`: the panicking form of `try_new`; it may only be called where that succeeds. */
  function New(width: uint32, height: uint32): (r: Size)
    requires width <= MAX_SIZE_FIELD && height <= MAX_SIZE_FIELD
    ensures TryNew(width, height) == Ok(r)
  {
    TryNew(width, height).value
  }

  /** `Size::new_u16`: unchecked, because no 16-bit value exceeds the bound. */
  function NewU16(width: nat, height: nat): (r: Size)
    requires width < 0x1_0000 && height < 0x1_0000
    ensures TryNew(width, height) == Ok(r)
  {
    Size(width, height)
  }

  /** `Axis::other`. */
  function Other(axis: Axis): (r: Axis)
    ensures r != axis
  {
    match axis
    case X => Y
    case Y => X
  }

  /** `other` swaps the two axes, so applying it twice is the identity. */
  lemma OtherInvolution(axis: Axis)
    ensures Other(Other(axis)) == axis
  {
  }

  /** The bound is attained: `MAX_SIZE` is a legal size and one more is not. */
  lemma MaxSizeIsLargest()
    ensures TryNew(MAX_SIZE_FIELD, MAX_SIZE_FIELD) == Ok(MAX_SIZE)
    ensures TryNew(MAX_SIZE_FIELD + 1, 0).Err? && TryNew(0, MAX_SIZE_FIELD + 1).Err?
  {
  }
}
