# coord-2d grid geometry, modelled in Dafny

This project models `src/coord.rs` of the `coord-2d` Rust crate. The crate is a small value library for grid-based programs. It has four parts:

- `Axis`, a runtime tag for the X or Y dimension, and `StaticAxis`, the same operations dispatched at compile time through the marker types `static_axis::X` and `static_axis::Y`.
- `Size`, an unsigned (width, height) pair whose fields are documented never to exceed `MAX_SIZE_FIELD` = 2^31. With that bound, every cell of a grid is addressable by an `i32` coordinate. The checked constructors and setters keep the bound, but `with_axis` and `get_mut` can break it (see Findings).
- `Coord`, a signed (x, y) position. It supports wrap-around, validity and clamping against a `Size`, checked arithmetic, distances and the exact integer rotations.
- `CoordIterRowMajor`, which lists every cell of a `Size` in row-major order.

Modules, one file each:

- `Wrappers` (`wrappers.dfy`): `Option` and `Result`, named after Rust's.
- `RustInt` (`rust_int.dfy`): the Rust primitives the library relies on. This covers the `i32`/`u32` ranges, the `as` casts, truncating `/` and `%`, `checked_*`, `saturating_sub` and `abs`, plus the division facts the proofs need.
- `Grid` (`grid.dfy`): the data model. It holds `Axis`, `Coord`, `Size`, the three error markers, `MAX_SIZE_FIELD`, `MAX_SIZE` and `check_size_limit`. It also holds the `Size` invariant `Addressable`, the `Size` constructors and `Axis::other`.
- `Coords` (`coords.dfy`): every `Coord` method, and `Axis::new_coord`.
- `Sizes` (`sizes.dfy`): every `Size` method, and `Axis::try_new_size`/`new_size`.
- `StaticAxes` (`static_axes.dfy`): the marker types as the datatype `StaticAxis = StaticX | StaticY`, one function per trait item, and the `Size` width/height setters. Each trait function's contract states that it equals the runtime-`Axis` operation at `AxisOf(marker)`.
- `Places` (`places.dfy`): the `&mut self` mutators. The classes `CoordPlace` and `SizePlace` hold the fields the source assigns. Each method's contract ties the new value to the pure operation applied to the old value. A failed check leaves a `SizePlace` unchanged.
- `Iteration` (`iteration.dfy`): the row-major order `RowMajor(size)` as a sequence, one call of `next` on values (`Step`), and the iterator class. Its `Next` yields the head of the cells still to come.

Modelling choices:

- Integers are Dafny's unbounded `int`, restricted to the subset types `int32` and `uint32`.
- In a debug build, Rust panics on `i32`/`u32` overflow. Every such overflow, and every division fault, is a precondition of the model. Release-build wrapping is not modelled.
- Each panicking wrapper (`Size::new`, `set`, `set_width`, `StaticAxis::size_set`, …) requires its fallible form to succeed. Its contract says it returns what the fallible form returns in `Ok`.
- `Addressable` is the documented bound on a `Size`. `normalize` and the iterator's order assume it: they are stated only for sizes within the bound. `checked_sub` and `saturating_sub` require instead that the fields they pass to `Size::new` are within the bound, since that is where `Size::new` panics. `constrain` never panics and requires nothing. On a size within the bound, its result is the clamped valid cell; on a dimension above the bound, the `as i32` cast wraps and that component of the result is negative.
- Closures passed to `with_axis` are pure functions.

The code does the following, and the model follows it:

- `magnitude2`, `distance2`, `manhattan_magnitude` and `manhattan_distance` compute in `i32` and `u32` with no widening (coord.rs:375-394). The model's preconditions keep every intermediate in range.
- `count` multiplies two `u32` values (coord.rs:715). The model requires the product to fit in a `u32`.
- The iterator stops only when `y == height as i32` (coord.rs:798). A grid with zero width and positive height does not yield an empty sequence. Instead it yields the non-cells `(0, 0)`, `(1, 0)`, … (`Iteration.ZeroWidthKeepsYielding`) until `x += 1` overflows at `i32::MAX`, where a debug build panics (`Iteration.ZeroWidthOverflows`). The iterator class therefore requires `Iterable(size)`: height 0, or 0 < width ≤ `i32::MAX` and height ≤ `i32::MAX`.
- `normalize_part` divides by `size as i32` (coord.rs:248). A zero dimension is a division fault. A dimension of 2^31 becomes `i32::MIN`. That is correct for a non-negative component and for `i32::MIN` itself (whose remainder is 0); for any other negative component the addition overflows. For a dimension up to 2^31, the model's precondition allows exactly the cases that do not fault.
- `Size::with_axis` bypasses the bound (see Findings).

## Model

| member | source | states |
|---|---|---|
| `Grid.CheckSizeLimit` | src/coord.rs:91-97 | succeeds exactly when the value is at most `MAX_SIZE_FIELD` |
| `Grid.TryNew` | src/coord.rs:486-493 | `Ok` exactly when both fields are within the bound; the result is addressable and has the given width and height |
| `Grid.New` | src/coord.rs:497-507 | callable only where `try_new` succeeds, and returns that size |
| `Grid.NewU16` | src/coord.rs:510-515 | any pair of 16-bit values gives the size `try_new` would build (it never needs the check) |
| `Grid.Other` | src/coord.rs:12-17 | `other` never returns its argument |
| `Grid.OtherInvolution` | src/coord.rs:12-17 | `other(other(a)) == a` |
| `Grid.MaxSizeIsLargest` | src/coord.rs:478-483 | `MAX_SIZE` is a legal size, and one more than `MAX_SIZE_FIELD` on either field is rejected |
| `Coords.NewCoord` | src/coord.rs:18-23 | `get` on the axis reads back `this_axis`, and `get` on the other axis reads back `other_axis` |
| `Coords.Get` | src/coord.rs:286-291 | the x component for `Axis::X`, the y component for `Axis::Y` |
| `Coords.NewCoordOfGet` | src/coord.rs:286-291 | every coordinate is `new_coord(axis, get(axis), get(other(axis)))`, so `new_coord` and `get` are inverse |
| `Coords.WithAxis` | src/coord.rs:298-309 | applies the function to the selected component and leaves the other unchanged |
| `Coords.Set` | src/coord.rs:310-315 | `get` on the axis reads back the new value, and the other component is unchanged |
| `Coords.SetGet` | src/coord.rs:298-315 | writing back the current component is the identity; `with_axis(f)` is `set(f(get))` |
| `Coords.NewAxis` | src/coord.rs:322-324 | places `this_axis` on the given axis and `other_axis` on the other |
| `Coords.SetX` | src/coord.rs:343-345 | equals `set(Axis::X, x)` |
| `Coords.SetY` | src/coord.rs:346-348 | equals `set(Axis::Y, y)` |
| `Coords.ToSize` | src/coord.rs:240-246 | fails with `NegativeDimension` exactly when a component is negative; otherwise an addressable size with the same fields |
| `Coords.IsValid` | src/coord.rs:261-268 | true exactly when 0 ≤ x < width and 0 ≤ y < height |
| `Coords.NormalizePart` | src/coord.rs:247-254 | for a dimension up to 2^31, defined exactly where `normalize_part` does not fault, including dimension 2^31 with a non-negative value or `i32::MIN`; the result lies in [0, dimension) |
| `Coords.NormalizePartIsFlooredMod` | src/coord.rs:247-254 | truncating remainder plus correction is the floored modulo, including at dimension 2^31 |
| `Coords.Normalize` | src/coord.rs:255-260 | the result is valid in the size and each component is congruent to the input modulo its dimension |
| `Coords.NormalizeFixesValid` | src/coord.rs:255-260 | on the whole domain of `normalize`, including dimension 2^31, it is the identity on valid coordinates and idempotent |
| `Coords.NormalizePeriodic` | src/coord.rs:255-260 | shifting by whole widths and heights does not change the result |
| `Coords.NormalizeExamples` | src/coord.rs:816-825 | (5,2) in (2,3) gives (1,2); (-4,3) in (3,1) gives (2,0) |
| `Coords.Constrain` | src/coord.rs:269-285 | for any size, `None` exactly for a zero dimension; within the bound, the valid coordinate clamped per axis, equal to the input when that is valid; a dimension above the bound gives a negative component |
| `Coords.ClampIsNearest` | src/coord.rs:269-285 | each clamped component is at least as close to the input as any cell of that dimension |
| `Coords.CheckedAdd` | src/coord.rs:355-359 | `None` exactly when a component sum leaves `i32`; otherwise the component-wise sum |
| `Coords.CheckedSub` | src/coord.rs:360-364 | `None` exactly when a component difference leaves `i32`; otherwise the difference |
| `Coords.CheckedMul` | src/coord.rs:365-369 | `None` exactly when a component product leaves `i32`; otherwise the scaled coordinate |
| `Coords.CheckedDiv` | src/coord.rs:370-374 | `None` exactly for divisor 0, or divisor -1 with an `i32::MIN` component; otherwise division rounding toward zero |
| `Coords.CheckedSubUndoesAdd` | src/coord.rs:355-364 | a successful `checked_add` is undone by `checked_sub`, and vice versa |
| `Coords.CheckedDivUndoesMul` | src/coord.rs:365-374 | dividing a successful `checked_mul` by the same non-zero factor returns the original coordinate |
| `Coords.Magnitude2` | src/coord.rs:375-377 | where the `i32` squares do not overflow, the squared Euclidean length |
| `Coords.Distance2` | src/coord.rs:378-384 | where the `i32` differences and squares do not overflow, the squared Euclidean distance |
| `Coords.ManhattanMagnitude` | src/coord.rs:385-387 | for components other than `i32::MIN`, the sum of absolute values |
| `Coords.ManhattanDistance` | src/coord.rs:388-394 | where the differences have an `i32` absolute value, the Manhattan distance |
| `Coords.Distance2Symmetric` | src/coord.rs:378-384 | squared distance is defined in both directions when defined in one, and equal |
| `Coords.ManhattanIsMetric` | src/coord.rs:388-394 | zero exactly between equal points, symmetric, and satisfies the triangle inequality |
| `Coords.ManhattanExample` | src/coord.rs:828-830 | distance from (-2,4) to (5,-2) is 13 |
| `Coords.OppositeInvolution` | src/coord.rs:395-412 | `opposite` is an involution and equals two quarter turns either way |
| `Coords.QuarterTurnsInverse` | src/coord.rs:401-412 | `left90(right90(c)) == c` and `right90(left90(c)) == c` |
| `Coords.Cardinal135IsQuarterAfter45` | src/coord.rs:413-436 | `cardinal_left135` is `left90` after `cardinal_left45`; likewise on the right |
| `Coords.Cardinal45RoundTripDoubles` | src/coord.rs:413-424 | `cardinal_right45(cardinal_left45(c)) == 2c`: the 45-degree steps are scaled, not true rotations |
| `Coords.RotationMagnitudes` | src/coord.rs:375-412 | quarter turns and `opposite` keep both magnitudes; `cardinal_left45` doubles the squared magnitude |
| `Coords.RotationExamples` | src/coord.rs:833-841 | the rotation values the tests give |
| `Coords.OppositeGeometry` | src/coord.rs:395-400 | `opposite` is the half turn: dot product with the input −‖c‖², cross product 0, same squared length |
| `Coords.Left90Geometry` | src/coord.rs:401-406 | `left90` is the quarter turn to the left: dot product 0, cross product −‖c‖², same squared length |
| `Coords.Right90Geometry` | src/coord.rs:407-412 | `right90` is the quarter turn to the right: dot product 0, cross product ‖c‖², same squared length |
| `Coords.CardinalLeft45Geometry` | src/coord.rs:413-418 | `cardinal_left45` turns 45 degrees left: dot product ‖c‖², cross product −‖c‖², squared length doubled |
| `Coords.CardinalRight45Geometry` | src/coord.rs:419-424 | `cardinal_right45` turns 45 degrees right: dot product ‖c‖², cross product ‖c‖², squared length doubled |
| `Coords.CardinalLeft135Geometry` | src/coord.rs:425-430 | `cardinal_left135` turns 135 degrees left: dot product −‖c‖², cross product −‖c‖², squared length doubled |
| `Coords.CardinalRight135Geometry` | src/coord.rs:431-436 | `cardinal_right135` turns 135 degrees right: dot product −‖c‖², cross product ‖c‖², squared length doubled |
| `Coords.RotationIsDetermined` | src/coord.rs:395-436 | the dot and cross product with a non-zero input fix a coordinate, and only (0,0) has squared length 0, so each geometry lemma pins down its rotation's result |
| `Coords.IsZero` | src/coord.rs:438-440 | true exactly for (0,0) |
| `Coords.ManhattanZeroIffZero` | src/coord.rs:438-440 | Manhattan magnitude is 0 exactly for the zero coordinate |
| `Coords.PairwiseMax` | src/coord.rs:442-447 | each component is the larger of the two: an upper bound attained by one input |
| `Coords.PairwiseMin` | src/coord.rs:449-454 | each component is the smaller of the two: a lower bound attained by one input |
| `Sizes.TryNewSize` | src/coord.rs:24-33 | `Ok` exactly when both values are within the bound; `this_axis` lands on the axis and `other_axis` on the other |
| `Sizes.NewSize` | src/coord.rs:34-39 | callable only where `try_new_size` succeeds, and returns that size |
| `Sizes.TryNewAxis` | src/coord.rs:601-607 | same outcome and placement as `Axis::try_new_size` |
| `Sizes.NewAxis` | src/coord.rs:609-611 | an addressable size with `this_axis` on the axis and `other_axis` on the other |
| `Sizes.Get` | src/coord.rs:529-534 | the width for `Axis::X`, the height for `Axis::Y` |
| `Sizes.WidthAndHeight` | src/coord.rs:689-711 | `width()` (alias `x()`) is `get(Axis::X)` and `height()` (alias `y()`) is `get(Axis::Y)`; each is `get` on the other's `other` axis |
| `Sizes.TrySet` | src/coord.rs:556-568 | `Ok` exactly when the value is within the bound; only the selected field changes, and the result stays addressable |
| `Sizes.Set` | src/coord.rs:570-577 | callable only where `try_set` succeeds, and returns that size |
| `Sizes.WithAxis` | src/coord.rs:543-554 | applies the function to the selected field and leaves the other unchanged, without the bounds check |
| `Sizes.WithAxisEscapesBound` | src/coord.rs:543-554 | `with_axis` can turn an addressable size into one above the bound |
| `Sizes.TryWithAxis` | src/coord.rs:543-554 | checked form of `with_axis`: `Ok` exactly when the new field is within the bound, and the result stays addressable |
| `Sizes.TryWithAxisAgrees` | src/coord.rs:543-568 | where the checked form succeeds, it equals the unchecked `with_axis` |
| `Sizes.SetThenGet` | src/coord.rs:570-577 | `get` reads what `set` wrote; writing back the current field changes nothing |
| `Sizes.ToCoord` | src/coord.rs:521-527 | fails with `DimensionTooLargeForCoord` exactly when a field exceeds `i32::MAX`; otherwise the same fields as a coordinate |
| `Sizes.FromCoord` | src/coord.rs:517-519 | fails exactly on a negative component; otherwise an addressable size with the same fields |
| `Sizes.ToCoordRoundTrip` | src/coord.rs:521-527 | a successful `to_coord` converts back to the original size |
| `Sizes.ToSizeRoundTrip` | src/coord.rs:240-246 | a successful `to_size` converts back to the original coordinate |
| `Sizes.OnlyMaxFieldFailsToCoord` | src/coord.rs:521-527 | an addressable size fails to convert exactly when a field equals `MAX_SIZE_FIELD`; `MAX_SIZE` fails |
| `Sizes.Count` | src/coord.rs:714-716 | where the `u32` product does not overflow, width × height |
| `Sizes.CheckedSub` | src/coord.rs:718-722 | defined wherever the `Size::new` it calls does not panic; `None` exactly when a field of the subtrahend is larger; otherwise an addressable difference that adds back to the minuend |
| `Sizes.SaturatingSub` | src/coord.rs:724-728 | defined wherever the `Size::new` it calls does not panic; each field is max(a − b, 0), and the result is addressable |
| `Sizes.SaturatingSubAgrees` | src/coord.rs:718-728 | `saturating_sub` equals `checked_sub` where that succeeds; where it fails, some field of the saturating result is 0 |
| `Sizes.IsZero` | src/coord.rs:738-740 | true exactly for (0,0) |
| `Sizes.PairwiseMax` | src/coord.rs:754-759 | component-wise maximum; addressable when both inputs are |
| `Sizes.PairwiseMin` | src/coord.rs:761-766 | component-wise minimum; addressable when either input is |
| `Sizes.IsValid` | src/coord.rs:742-744 | same answer as `Coord::is_valid`: 0 ≤ x < width and 0 ≤ y < height |
| `Sizes.Constrain` | src/coord.rs:746-748 | the same outcome as `Coord::constrain`: `None` on a zero dimension; within the bound, the valid cell clamped per axis, the input itself when valid; a negative component for a dimension above the bound |
| `StaticAxes.AxisOf` | src/coord.rs:101-103 | the X marker's axis is `Axis::X` and the Y marker's is `Axis::Y` |
| `StaticAxes.OtherOf` | src/coord.rs:100 | a marker's `Other` corresponds to `Axis::other` of its axis |
| `StaticAxes.NewCoord` | src/coord.rs:104-106 | agrees with `Axis::new_coord` at the marker's axis |
| `StaticAxes.CoordGet` | src/coord.rs:107-109 | agrees with `Coord::get` at the marker's axis |
| `StaticAxes.CoordWithAxis` | src/coord.rs:113-118 | agrees with `Coord::with_axis` at the marker's axis |
| `StaticAxes.CoordSet` | src/coord.rs:119-121 | agrees with `Coord::set` at the marker's axis |
| `StaticAxes.TryNewSize` | src/coord.rs:125-127 | agrees with `Axis::try_new_size` at the marker's axis |
| `StaticAxes.NewSize` | src/coord.rs:73-83 | callable only where `try_new_size` succeeds; agrees with `Axis::new_size` |
| `StaticAxes.SizeGet` | src/coord.rs:128-130 | agrees with `Size::get` at the marker's axis |
| `StaticAxes.SizeWithAxis` | src/coord.rs:134-139 | agrees with the unchecked `Size::with_axis` at the marker's axis |
| `StaticAxes.TrySizeSet` | src/coord.rs:140-143 | agrees with `Size::try_set` at the marker's axis, so it has the same bounds check |
| `StaticAxes.SizeSet` | src/coord.rs:57-64 | callable only where `try_size_set` succeeds; agrees with `Size::set` |
| `StaticAxes.StaticGetNewCoord` | src/coord.rs:151-176 | reading through a marker and its `Other` recovers both arguments of `new_coord`; `Other` of `Other` is the marker |
| `StaticAxes.TrySetWidth` | src/coord.rs:655-657 | `Ok` exactly when the width is within the bound; the height is unchanged |
| `StaticAxes.TrySetHeight` | src/coord.rs:659-661 | `Ok` exactly when the height is within the bound; the width is unchanged |
| `StaticAxes.SetWidth` | src/coord.rs:664-666 | callable only where `try_set_width` succeeds, and returns that size |
| `StaticAxes.SetHeight` | src/coord.rs:669-671 | callable only where `try_set_height` succeeds, and returns that size |
| `Places.CoordPlace.SetInPlace` | src/coord.rs:316-321 | the new value is `set(old, axis, value)`: the selected component changes, the other does not |
| `Places.CoordPlace.SetXInPlace` | src/coord.rs:349-351 | the new value is `set_x(old, x)` |
| `Places.CoordPlace.SetYInPlace` | src/coord.rs:352-354 | the new value is `set_y(old, y)` |
| `Places.CoordPlace.StaticSetInPlace` | src/coord.rs:122-124 | the new value is `coord_set(marker, old, value)`, equal to `set` at the marker's axis |
| `Places.SizePlace.TrySetInPlace` | src/coord.rs:579-590 | succeeds exactly within the bound, giving the value `try_set` returns; on error nothing changes; stays addressable |
| `Places.SizePlace.SetInPlace` | src/coord.rs:592-599 | the new value is `set(old, axis, value)` |
| `Places.SizePlace.TryStaticSetInPlace` | src/coord.rs:144-148 | succeeds exactly within the bound, giving the value `try_size_set` returns; on error nothing changes |
| `Places.SizePlace.StaticSetInPlace` | src/coord.rs:65-72 | the new value is `size_set(marker, old, value)` |
| `Places.SizePlace.TrySetWidthInPlace` | src/coord.rs:673-675 | succeeds exactly within the bound, giving `try_set_width`'s value; on error nothing changes |
| `Places.SizePlace.TrySetHeightInPlace` | src/coord.rs:677-679 | succeeds exactly within the bound, giving `try_set_height`'s value; on error nothing changes |
| `Places.SizePlace.SetWidthInPlace` | src/coord.rs:681-683 | the new value is `set_width(old, width)` |
| `Places.SizePlace.SetHeightInPlace` | src/coord.rs:685-687 | the new value is `set_height(old, height)` |
| `Iteration.RowMajorAt` | src/coord.rs:797-808 | the order has width × height cells, and the k-th is (k mod width, k div width) |
| `Iteration.RowMajorCoversGrid` | src/coord.rs:787-808 | a coordinate is listed exactly when it is valid in the size |
| `Iteration.RowMajorListsCells` | src/coord.rs:797-808 | every listed coordinate is valid in the size |
| `Iteration.RowMajorIndexOf` | src/coord.rs:797-808 | a valid (x, y) is listed at position y × width + x |
| `Iteration.RowMajorDistinct` | src/coord.rs:797-808 | no coordinate is listed twice |
| `Iteration.CountIsLength` | src/coord.rs:714-716 | `count`, where it does not overflow, is the number of cells the iterator lists |
| `Iteration.RowMajorExamples` | src/coord.rs:787-808 | size (2,2) lists (0,0), (1,0), (0,1), (1,1); height 0 lists nothing |
| `Iteration.RowMajor` | src/coord.rs:797-808 | the order the iterator follows has width × height cells (its contents are `RowMajorAt`) |
| `Iteration.Step` | src/coord.rs:797-808 | at `y == height as i32`, `None` with the cursor unchanged; on an iterable size, a cursor before the end yields itself and moves exactly one place on in row-major order |
| `Iteration.ZeroWidthKeepsYielding` | src/coord.rs:797-808 | with width 0 and positive height, `next` yields (x, 0), which is not a cell, and moves on to (x+1, 0) |
| `Iteration.ZeroWidthOverflows` | src/coord.rs:797-808 | with width 0 and positive height, the cursor (i32::MAX, 0) is not a cell and not the end, and `x + 1` does not fit in `i32` there, so a debug build panics |
| `Iteration.CoordIterRowMajor.constructor` | src/coord.rs:787-792 | the cursor starts at (0,0) with the size as given; for an iterable size, every cell is still to come |
| `Iteration.CoordIterRowMajor.Next` | src/coord.rs:797-808 | performs one `Step`; returns the first remaining cell and drops it, or `None` and stays finished once none remain |
| `Iteration.IterRowMajor` | src/coord.rs:750-752 | a fresh iterator whose remaining cells are the whole row-major order |
| `Iteration.TwoByTwo` | src/coord.rs:787-808 | size (2,2) yields (0,0), (1,0), (0,1), (1,1), then `None` |

## Left out

- Serialization derives (`serde`, coord.rs:1-4, 211, 471): plumbing from an external crate, with no behaviour of the library's own.
- `Coord::random_within` (coord.rs:234-239): it calls an external random-number generator whose output cannot be specified.
- The sealed trait `private::Sealed` and the markers as Rust types (coord.rs:42, 86-89, 203-208): a type-system device. The closed datatype `StaticAxes.StaticAxis` plays its part, since no third marker can exist.
- `get_mut`, `get_static_mut` and the trait's `*_get_mut` (coord.rs:110, 131, 162, 180, 292-297, 328-330, 536-541, 616-618): they return `&mut` references, which the model does not have. Writes through them are modelled by the setters and `Places`. A write through `Size::get_mut` skips the bounds check, just as `with_axis` does (see Findings).
- The generic forwarders `Coord::get_static`, `with_static_axis`, `set_static`, `new_static_axis` (coord.rs:325-342) and `Size::get_static`, `with_static_axis`, `try_set_static`, `set_static`, `try_new_static_axis`, `new_static_axis` (coord.rs:613-653): each only calls the marker's trait function. In the model the `StaticAxes` function applied to the marker is that operation. The in-place forwarders (coord.rs:337-339, 628-642) are `Places` methods that cite the trait function.
- `Coord::new`, `Size::x`/`Size::y` (aliases of `width`/`height`), `Size::max_field` and `Size::max`: the datatype constructor `Coord(x, y)`, `Grid.Width`/`Grid.Height`, and the constants `MAX_SIZE_FIELD` and `MAX_SIZE`.
- The `From` tuple and array conversions (coord.rs:457-467, 769-779): thin wrappers over `new`.
- Derived traits (`Debug`, `Clone`, `Copy`, `Hash`, `PartialEq`, `PartialOrd`, `Ord`, `Default`): Dafny datatypes are values with structural equality. The derived order on `Axis` and the default `Coord` (0,0) are not modelled.
- The text of panic messages (coord.rs:57-83, 497-507, 570-599): each panicking wrapper is modelled as a precondition that its fallible form succeeds.
- Closures with side effects (`FnMut`) in the `with_axis` family: modelled as pure functions.
- Release-build wrap-around: every `i32`/`u32` overflow is modelled as a precondition, as a debug build panics there.
- `Iteration.CoordIterRowMajor.Next`: requires `Iterable(size)`. That excludes zero width with positive height, which yields cells outside the grid and then panics when `x += 1` overflows at `i32::MAX` in a debug build (`Iteration.ZeroWidthKeepsYielding`, `Iteration.ZeroWidthOverflows`). It also excludes a dimension of 2^31, where the cursor would overflow before the end test holds.
- `Coords.Magnitude2`, `Coords.Distance2`, `Coords.ManhattanMagnitude`, `Coords.ManhattanDistance`: defined only where their unwidened `i32`/`u32` arithmetic does not overflow.
- `Sizes.Count`: defined only where `width * height` fits in a `u32`.
- `Coords.NormalizePart`, `Coords.Normalize`, `Coords.NormalizeFixesValid`: not stated for a dimension above 2^31, which only `with_axis` or `get_mut` can produce. There `size as i32` is a negative divisor: a non-negative component gives `value % (2^32 - size)`, and a negative component can overflow or come out negative.
- `Places.SizePlace`: its methods require and keep the bound (`Valid()`). A `&mut Size` that `with_axis` or `get_mut` has pushed above the bound is not modelled.
- `Iteration.RowMajor`: the order is defined only for sizes within the bound, and the iterator class needs `Iterable(size)`.

## Findings

| source | as written | input that shows it | evidently intended | confidence | as-written member | corrected member |
|---|---|---|---|---|---|---|
| src/coord.rs:543-554 | `Size::with_axis` stores the closure's result in the field without `check_size_limit`, and so does `StaticAxis::size_with_axis` (coord.rs:134-139, 183-188) | `Size::new(1, 1).with_axis(Axis::X, f)` with `f` returning `u32::MAX` gives a width of 4294967295, above `MAX_SIZE_FIELD` | every way of producing a `Size` keeps each field at most `MAX_SIZE_FIELD` (doc comment at coord.rs:469-470) | medium, not executed | `Sizes.WithAxisEscapesBound` | `Sizes.TryWithAxis` |
