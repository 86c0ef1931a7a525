/**
 * The `StaticAxis` dispatch: the two marker types `static_axis::X` and
 * `static_axis::Y`, modelled as the values of a closed datatype (the
 * sealed trait admits no other implementor). Each trait function is
 * defined by the marker's own implementation and its contract states that
 * it agrees with the runtime-`Axis` operation at `AxisOf(marker)`, so the
 * two dispatch paths cannot diverge. The `Size` setters for width and
 * height, which go through the static path, are here as well.
 */
module StaticAxes {
  import opened Wrappers
  import opened RustInt
  import opened Grid
  import Coords
  import Sizes

  /** The marker types `static_axis::X` and `static_axis::Y`. */
  datatype StaticAxis = StaticX | StaticY

  /** `StaticAxis::axis`. */
  function AxisOf(m: StaticAxis): (r: Axis)
    ensures m == StaticX <==> r == X
  {
    match m
    case StaticX => X
    case StaticY => Y
  }

  /** The associated type `StaticAxis::Other`. */
  function OtherOf(m: StaticAxis): (r: StaticAxis)
    ensures AxisOf(r) == Other(AxisOf(m))
  {
    match m
    case StaticX => StaticY
    case StaticY => StaticX
  }

  /** `StaticAxis::new_coord`. */
  function NewCoord(m: StaticAxis, thisAxis: int32, otherAxis: int32): (r: Coord)
    ensures r == Coords.NewCoord(AxisOf(m), thisAxis, otherAxis)
  {
    match m
    case StaticX => Coord(thisAxis, otherAxis)
    case StaticY => Coord(otherAxis, thisAxis)
  }

  /** `StaticAxis::coord_get`. */
  function CoordGet(m: StaticAxis, c: Coord): (r: int32)
    ensures r == Coords.Get(c, AxisOf(m))
  {
    match m
    case StaticX => c.x
    case StaticY => c.y
  }

  /** `StaticAxis::coord_with_axis`, with a pure function in place of the closure. */
  function CoordWithAxis(m: StaticAxis, c: Coord, f: int32 -> int32): (r: Coord)
    ensures r == Coords.WithAxis(c, AxisOf(m), f)
  {
    match m
    case StaticX => c.(x := f(c.x))
    case StaticY => c.(y := f(c.y))
  }

  /** `StaticAxis::coord_set`. */
  function CoordSet(m: StaticAxis, c: Coord, value: int32): (r: Coord)
    ensures r == Coords.Set(c, AxisOf(m), value)
  {
    match m
    case StaticX => c.(x := value)
    case StaticY => c.(y := value)
  }

  /** `StaticAxis::try_new_size`. */
  function TryNewSize(m: StaticAxis, thisAxis: uint32, otherAxis: uint32): (r: Result<Size, DimensionTooLargeForSize>)
    ensures r == Sizes.TryNewSize(AxisOf(m), thisAxis, otherAxis)
  {
    match m
    case StaticX => TryNew(thisAxis, otherAxis)
    case StaticY => TryNew(otherAxis, thisAxis)
  }

  /** `StaticAxis::new_size`, the trait's default panicking wrapper. */
  function NewSize(m: StaticAxis, thisAxis: uint32, otherAxis: uint32): (r: Size)
    requires thisAxis <= MAX_SIZE_FIELD && otherAxis <= MAX_SIZE_FIELD
    ensures TryNewSize(m, thisAxis, otherAxis) == Ok(r)
    ensures r == Sizes.NewSize(AxisOf(m), thisAxis, otherAxis)
  {
    TryNewSize(m, thisAxis, otherAxis).value
  }

  /** `StaticAxis::size_get`. */
  function SizeGet(m: StaticAxis, s: Size): (r: uint32)
    ensures r == Sizes.Get(s, AxisOf(m))
  {
    match m
    case StaticX => s.x
    case StaticY => s.y
  }

  /** `StaticAxis::size_with_axis`: like `Size::with_axis`, unchecked. */
  function SizeWithAxis(m: StaticAxis, s: Size, f: uint32 -> uint32): (r: Size)
    ensures r == Sizes.WithAxis(s, AxisOf(m), f)
  {
    match m
    case StaticX => s.(x := f(s.x))
    case StaticY => s.(y := f(s.y))
  }

  /** `StaticAxis::try_size_set`: the bounds check, then the marker's field. */
  function TrySizeSet(m: StaticAxis, s: Size, value: uint32): (r: Result<Size, DimensionTooLargeForSize>)
    ensures r == Sizes.TrySet(s, AxisOf(m), value)
  {
    var _ :- CheckSizeLimit(value);
    match m
    case StaticX => Ok(s.(x := value))
    case StaticY => Ok(s.(y := value))
  }

  /** `StaticAxis::size_set`, the trait's default panicking wrapper. */
  function SizeSet(m: StaticAxis, s: Size, value: uint32): (r: Size)
    requires value <= MAX_SIZE_FIELD
    ensures TrySizeSet(m, s, value) == Ok(r)
    ensures r == Sizes.Set(s, AxisOf(m), value)
  {
    TrySizeSet(m, s, value).value
  }

  /** Reading back what the static `new_coord` placed, through the marker and its `Other`. */
  lemma StaticGetNewCoord(m: StaticAxis, thisAxis: int32, otherAxis: int32)
    ensures CoordGet(m, NewCoord(m, thisAxis, otherAxis)) == thisAxis
    ensures CoordGet(OtherOf(m), NewCoord(m, thisAxis, otherAxis)) == otherAxis
    ensures OtherOf(OtherOf(m)) == m
  {
  }

  // ---------------------------------------------------------------------
  // Size setters that go through the static markers

  /** `Size::try_set_width`. */
  function TrySetWidth(s: Size, width: uint32): (r: Result<Size, DimensionTooLargeForSize>)
    ensures r.Ok? <==> width <= MAX_SIZE_FIELD
    ensures r.Ok? ==> Width(r.value) == width && Height(r.value) == Height(s)
  {
    TrySizeSet(StaticX, s, width)
  }

  /** `Size::try_set_height`. */
  function TrySetHeight(s: Size, height: uint32): (r: Result<Size, DimensionTooLargeForSize>)
    ensures r.Ok? <==> height <= MAX_SIZE_FIELD
    ensures r.Ok? ==> Height(r.value) == height && Width(r.value) == Width(s)
  {
    TrySizeSet(StaticY, s, height)
  }

  /** `Size::set_width`: panics where `try_set_width` fails. */
  function SetWidth(s: Size, width: uint32): (r: Size)
    requires width <= MAX_SIZE_FIELD
    ensures TrySetWidth(s, width) == Ok(r)
  {
    SizeSet(StaticX, s, width)
  }

  /** `Size::set_height`: panics where `try_set_height` fails. */
  function SetHeight(s: Size, height: uint32): (r: Size)
    requires height <= MAX_SIZE_FIELD
    ensures TrySetHeight(s, height) == Ok(r)
  {
    SizeSet(StaticY, s, height)
  }
}
