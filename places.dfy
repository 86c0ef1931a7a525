/**
 * The in-place mutators, which take `&mut self`: a `CoordPlace` or
 * `SizePlace` is a mutable location holding a `Coord` or a `Size`, and
 * each method assigns its fields as the source does. Every contract ties
 * the new value to the pure operation of the same name applied to the old
 * value, and says that a failed check leaves the location unchanged.
 */
module Places {
  import opened Wrappers
  import opened RustInt
  import opened Grid
  import Coords
  import Sizes
  import StaticAxes

  /** A `&mut Coord`. */
  class CoordPlace {
    var x: int32
    var y: int32

    function Value(): Coord
      reads this
    {
      Coord(x, y)
    }

    constructor (c: Coord)
      ensures Value() == c
    {
      x, y := c.x, c.y;
    }

    /** `Coord::set_in_place`. */
    method SetInPlace(axis: Axis, value: int32)
      modifies this
      ensures Value() == Coords.Set(old(Value()), axis, value)
      ensures Coords.Get(Value(), axis) == value
      ensures Coords.Get(Value(), Other(axis)) == Coords.Get(old(Value()), Other(axis))
    {
      match axis
      case X => x := value;
      case Y => y := value;
    }

    /** `Coord::set_x_in_place`. */
    method SetXInPlace(value: int32)
      modifies this
      ensures Value() == Coords.SetX(old(Value()), value)
      ensures x == value && y == old(y)
    {
      x := value;
    }

    /** `Coord::set_y_in_place`. */
    method SetYInPlace(value: int32)
      modifies this
      ensures Value() == Coords.SetY(old(Value()), value)
      ensures y == value && x == old(x)
    {
      y := value;
    }

    /** `StaticAxis::coord_set_in_place` (and `Coord::set_static_in_place`, which forwards to it). */
    method StaticSetInPlace(m: StaticAxes.StaticAxis, value: int32)
      modifies this
      ensures Value() == StaticAxes.CoordSet(m, old(Value()), value)
      ensures Value() == Coords.Set(old(Value()), StaticAxes.AxisOf(m), value)
    {
      match m
      case StaticX => x := value;
      case StaticY => y := value;
    }
  }

  /** A `&mut Size`; `Valid` is the `Size` invariant, which every method keeps. */
  class SizePlace {
    var x: uint32
    var y: uint32

    function Value(): Size
      reads this
    {
      Size(x, y)
    }

    ghost predicate Valid()
      reads this
    {
      Addressable(Value())
    }

    constructor (s: Size)
      requires Addressable(s)
      ensures Valid() && Value() == s
    {
      x, y := s.x, s.y;
    }

    /** `Size::try_set_in_place`: on success the value `try_set` returns; on failure no change. */
    method TrySetInPlace(axis: Axis, value: uint32) returns (r: Result<(), DimensionTooLargeForSize>)
      requires Valid()
      modifies this
      ensures Valid()
      ensures r.Ok? <==> value <= MAX_SIZE_FIELD
      ensures r.Ok? ==> Sizes.TrySet(old(Value()), axis, value) == Ok(Value())
      ensures r.Err? ==> Value() == old(Value())
    {
      var check := CheckSizeLimit(value);
      if check.Err? {
        return Err(check.error);
      }
      match axis {
        case X => x := value;
        case Y => y := value;
      }
      r := Ok(());
    }

    /** `Size::set_in_place`: panics where `try_set_in_place` fails. */
    method SetInPlace(axis: Axis, value: uint32)
      requires Valid() && value <= MAX_SIZE_FIELD
      modifies this
      ensures Valid()
      ensures Value() == Sizes.Set(old(Value()), axis, value)
    {
      var r := TrySetInPlace(axis, value);
    }

    /** `StaticAxis::try_size_set_in_place` (and `Size::try_set_static_in_place`, which forwards to it). */
    method TryStaticSetInPlace(m: StaticAxes.StaticAxis, value: uint32) returns (r: Result<(), DimensionTooLargeForSize>)
      requires Valid()
      modifies this
      ensures Valid()
      ensures r.Ok? <==> value <= MAX_SIZE_FIELD
      ensures r.Ok? ==> StaticAxes.TrySizeSet(m, old(Value()), value) == Ok(Value())
      ensures r.Err? ==> Value() == old(Value())
    {
      var check := CheckSizeLimit(value);
      if check.Err? {
        return Err(check.error);
      }
      match m {
        case StaticX => x := value;
        case StaticY => y := value;
      }
      r := Ok(());
    }

    /** `StaticAxis::size_set_in_place`, the trait's default panicking wrapper. */
    method StaticSetInPlace(m: StaticAxes.StaticAxis, value: uint32)
      requires Valid() && value <= MAX_SIZE_FIELD
      modifies this
      ensures Valid()
      ensures Value() == StaticAxes.SizeSet(m, old(Value()), value)
    {
      var r := TryStaticSetInPlace(m, value);
    }

    /** `Size::try_set_width_in_place`. */
    method TrySetWidthInPlace(width: uint32) returns (r: Result<(), DimensionTooLargeForSize>)
      requires Valid()
      modifies this
      ensures Valid()
      ensures r.Ok? <==> width <= MAX_SIZE_FIELD
      ensures r.Ok? ==> StaticAxes.TrySetWidth(old(Value()), width) == Ok(Value())
      ensures r.Err? ==> Value() == old(Value())
    {
      r := TryStaticSetInPlace(StaticAxes.StaticX, width);
    }

    /** `Size::try_set_height_in_place`. */
    method TrySetHeightInPlace(height: uint32) returns (r: Result<(), DimensionTooLargeForSize>)
      requires Valid()
      modifies this
      ensures Valid()
      ensures r.Ok? <==> height <= MAX_SIZE_FIELD
      ensures r.Ok? ==> StaticAxes.TrySetHeight(old(Value()), height) == Ok(Value())
      ensures r.Err? ==> Value() == old(Value())
    {
      r := TryStaticSetInPlace(StaticAxes.StaticY, height);
    }

    /** `Size::set_width_in_place`. */
    method SetWidthInPlace(width: uint32)
      requires Valid() && width <= MAX_SIZE_FIELD
      modifies this
      ensures Valid()
      ensures Value() == StaticAxes.SetWidth(old(Value()), width)
    {
      StaticSetInPlace(StaticAxes.StaticX, width);
    }

    /** `Size::set_height_in_place`. */
    method SetHeightInPlace(height: uint32)
      requires Valid() && height <= MAX_SIZE_FIELD
      modifies this
      ensures Valid()
      ensures Value() == StaticAxes.SetHeight(old(Value()), height)
    {
      StaticSetInPlace(StaticAxes.StaticY, height);
    }
  }
}
