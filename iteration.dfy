/**
 * `CoordIterRowMajor`: a cursor `Coord` and a `Size` snapshot that list
 * every cell of the grid, x fastest, then y. `RowMajor` is the sequence
 * the iterator is specified against, `Step` is one call of `next` on
 * values, and the class holds the two fields that `next` advances.
 */
module Iteration {
  import opened Wrappers
  import opened RustInt
  import opened Grid
  import Coords
  import Sizes

  // ---------------------------------------------------------------------
  // The row-major order of a grid

  /** Row `y` of a grid `w` wide, left to right. */
  function Row(w: nat, y: int32): seq<Coord>
    requires w <= MAX_SIZE_FIELD
  {
    seq(w, i requires 0 <= i < w => Coord(i, y))
  }

  /** The first `h` rows of a grid `w` wide, top row first. */
  function Rows(w: nat, h: nat): seq<Coord>
    requires w <= MAX_SIZE_FIELD && h <= MAX_SIZE_FIELD
  {
    if h == 0 then [] else Rows(w, h - 1) + Row(w, h - 1)
  }

  /** Every cell of a grid of `size`, in row-major order. */
  function RowMajor(size: Size): (r: seq<Coord>)
    requires Addressable(size)
    ensures |r| == Width(size) * Height(size)
  {
    RowsLength(Width(size), Height(size));
    Rows(Width(size), Height(size))
  }

  lemma {:induction false} RowsLength(w: nat, h: nat)
    requires w <= MAX_SIZE_FIELD && h <= MAX_SIZE_FIELD
    ensures |Rows(w, h)| == w * h
  {
    if h > 0 {
      RowsLength(w, h - 1);
      assert w * h == w * (h - 1) + w;
    }
  }

  lemma {:induction false} RowsAt(w: nat, h: nat, k: nat)
    requires w <= MAX_SIZE_FIELD && h <= MAX_SIZE_FIELD
    requires k < w * h
    ensures |Rows(w, h)| == w * h
    ensures Rows(w, h)[k].x == k % w && Rows(w, h)[k].y == k / w
  {
    RowsLength(w, h);
    RowsLength(w, h - 1);
    var prefix := w * (h - 1);
    assert w * h == prefix + w;
    if k < prefix {
      RowsAt(w, h - 1, k);
    } else {
      var i := k - prefix;
      assert Rows(w, h)[k] == Row(w, h - 1)[i];
      DivModUnique(k, w, h - 1, i);
    }
  }

  /** The iterator's order: the k-th cell is (k mod width, k div width), and there are width * height of them. */
  lemma RowMajorAt(size: Size)
    requires Addressable(size)
    ensures |RowMajor(size)| == Width(size) * Height(size)
    ensures forall k :: 0 <= k < |RowMajor(size)| ==>
      RowMajor(size)[k].x == k % Width(size) && RowMajor(size)[k].y == k / Width(size)
  {
    RowsLength(Width(size), Height(size));
    forall k | 0 <= k < |RowMajor(size)|
      ensures RowMajor(size)[k].x == k % Width(size) && RowMajor(size)[k].y == k / Width(size)
    {
      RowsAt(Width(size), Height(size), k);
    }
  }

  /** The order lists exactly the valid cells of the grid. */
  lemma RowMajorCoversGrid(size: Size, c: Coord)
    requires Addressable(size)
    ensures c in RowMajor(size) <==> Coords.IsValid(c, size)
  {
    if c in RowMajor(size) {
      var k :| 0 <= k < |RowMajor(size)| && RowMajor(size)[k] == c;
      RowMajorListsCells(size, k);
    }
    if Coords.IsValid(c, size) {
      RowMajorIndexOf(size, c);
    }
  }

  /** Every entry of the order is a valid cell. */
  lemma RowMajorListsCells(size: Size, k: nat)
    requires Addressable(size) && k < |RowMajor(size)|
    ensures Coords.IsValid(RowMajor(size)[k], size)
  {
    RowsInGrid(Width(size), Height(size), k);
  }

  lemma {:induction false} RowsInGrid(w: nat, h: nat, k: nat)
    requires w <= MAX_SIZE_FIELD && h <= MAX_SIZE_FIELD && k < |Rows(w, h)|
    ensures 0 <= Rows(w, h)[k].x < w && 0 <= Rows(w, h)[k].y < h
  {
    if k < |Rows(w, h - 1)| {
      RowsInGrid(w, h - 1, k);
    }
  }

  /** A valid cell (x, y) sits at index y * width + x of the order. */
  lemma RowMajorIndexOf(size: Size, c: Coord)
    requires Addressable(size) && Coords.IsValid(c, size)
    ensures c.y * Width(size) + c.x < |RowMajor(size)|
    ensures RowMajor(size)[c.y * Width(size) + c.x] == c
  {
    var w: nat, h: nat := Width(size), Height(size);
    var k := c.y * w + c.x;
    MulMonotone(c.y + 1, h, w);
    assert k < w * h;
    RowsAt(w, h, k);
    DivModUnique(k, w, c.y, c.x);
  }

  /** No cell is listed twice. */
  lemma RowMajorDistinct(size: Size)
    requires Addressable(size)
    ensures forall i, j :: 0 <= i < j < |RowMajor(size)| ==> RowMajor(size)[i] != RowMajor(size)[j]
  {
    var w := Width(size);
    RowMajorAt(size);
    forall i, j | 0 <= i < j < |RowMajor(size)|
      ensures RowMajor(size)[i] != RowMajor(size)[j]
    {
      assert i == (i / w) * w + i % w;
      assert j == (j / w) * w + j % w;
    }
  }

  /** `Size::count`, where it does not overflow, is the number of cells the iterator lists. */
  lemma CountIsLength(size: Size)
    requires Addressable(size) && Width(size) * Height(size) <= U32_MAX
    ensures Sizes.Count(size) == |RowMajor(size)|
  {
    RowsLength(Width(size), Height(size));
  }

  /** The order for a 2 by 2 grid, and for a grid of height 0. */
  lemma RowMajorExamples(w: uint32)
    requires w <= MAX_SIZE_FIELD
    ensures RowMajor(Size(2, 2)) == [Coord(0, 0), Coord(1, 0), Coord(0, 1), Coord(1, 1)]
    ensures RowMajor(Size(w, 0)) == []
  {
    assert Row(2, 0) == [Coord(0, 0), Coord(1, 0)];
    assert Row(2, 1) == [Coord(0, 1), Coord(1, 1)];
  }

  // ---------------------------------------------------------------------
  // One call of `next`, on values

  /**
   * `CoordIterRowMajor::next` on the cursor `c`: `None` once `y` equals
   * `height as i32`; otherwise the cursor, with x advanced and wrapped to
   * the next row when it equals `width as i32`. The additions must not
   * overflow. On an iterable size, a cursor before the end yields itself
   * and moves one place on in row-major order.
   */
  function Step(c: Coord, size: Size): (r: (Option<Coord>, Coord))
    requires c.y != U32AsI32(Height(size)) ==> c.x < I32_MAX
    requires c.y != U32AsI32(Height(size)) && c.x + 1 == U32AsI32(Width(size)) ==> c.y < I32_MAX
    ensures c.y == U32AsI32(Height(size)) ==> r == (None, c)
    ensures Iterable(size) && Cursor(c, size) && c.y < Height(size) ==>
      r.0 == Some(c) && Cursor(r.1, size) && Position(r.1, size) == Position(c, size) + 1
  {
    if c.y == U32AsI32(Height(size)) then (None, c)
    else
      var moved := c.(x := c.x + 1);
      if moved.x == U32AsI32(Width(size)) then
        assert (c.y + 1) * Width(size) == c.y * Width(size) + Width(size);
        (Some(c), Coord(0, c.y + 1))
      else (Some(c), moved)
  }

  /**
   * With width 0 and a positive height, the end test of `next` never
   * holds on the first row: it yields (x, 0), which is not a cell of the
   * grid, and moves to (x + 1, 0), for every x below `i32::MAX`.
   */
  lemma ZeroWidthKeepsYielding(h: uint32, x: int32)
    requires 0 < h <= MAX_SIZE_FIELD && 0 <= x < I32_MAX
    ensures !Coords.IsValid(Coord(x, 0), Size(0, h))
    ensures Step(Coord(x, 0), Size(0, h)) == (Some(Coord(x, 0)), Coord(x + 1, 0))
  {
  }

  /**
   * With width 0 and a positive height, the cursor reaches (i32::MAX, 0)
   * without having hit the end, and there `x += 1` overflows: the
   * no-overflow condition of `Step` fails, so a debug build panics.
   */
  lemma ZeroWidthOverflows(h: uint32)
    requires 0 < h <= MAX_SIZE_FIELD
    ensures !Coords.IsValid(Coord(I32_MAX, 0), Size(0, h))
    ensures !(Coord(I32_MAX, 0).y != U32AsI32(Height(Size(0, h))) ==> Coord(I32_MAX, 0).x < I32_MAX)
  {
  }

  /** Sizes the iterator can walk through without overflowing its cursor. */
  predicate Iterable(size: Size) {
    Addressable(size) && (Height(size) == 0 || (0 < Width(size) <= I32_MAX && Height(size) <= I32_MAX))
  }

  /** Cursor positions the iterator can reach from (0, 0). */
  predicate Cursor(c: Coord, size: Size) {
    0 <= c.y <= Height(size)
    && (c.y < Height(size) ==> 0 <= c.x < Width(size))
    && (c.y == Height(size) ==> c.x == 0)
  }

  /** How many cells precede the cursor in row-major order. */
  function Position(c: Coord, size: Size): (k: nat)
    requires Cursor(c, size)
    ensures k <= Width(size) * Height(size)
    ensures k == Width(size) * Height(size) <==> c.y == Height(size)
  {
    var w, h := Width(size), Height(size);
    if c.y < h then
      assert c.y * w + c.x < (c.y + 1) * w <= h * w;
      c.y * w + c.x
    else
      c.y * w
  }

  // ---------------------------------------------------------------------
  // The iterator

  class CoordIterRowMajor {
    var coord: Coord
    var size: Size

    ghost predicate Valid()
      reads this
    {
      Iterable(size) && Cursor(coord, size)
    }

    /** The coordinates still to come. */
    ghost function Remaining(): seq<Coord>
      reads this
      requires Valid()
    {
      RowMajorAt(size);
      RowMajor(size)[Position(coord, size)..]
    }

    /** `CoordIterRowMajor::new`: the cursor starts at (0, 0). */
    constructor (size: Size)
      ensures this.size == size && coord == Coord(0, 0)
      ensures Iterable(size) ==> Valid() && Remaining() == RowMajor(size)
    {
      this.size := size;
      coord := Coord(0, 0);
    }

    /** `Iterator::next`: returns the next cell of the row-major order, or `None` once all are listed. */
    method Next() returns (r: Option<Coord>)
      requires Valid()
      modifies this
      ensures Valid() && size == old(size)
      ensures (r, coord) == Step(old(coord), size)
      ensures old(Remaining()) == [] ==> r == None && Remaining() == []
      ensures old(Remaining()) != [] ==> r == Some(old(Remaining())[0]) && Remaining() == old(Remaining())[1..]
    {
      ghost var before := coord;
      RowMajorAt(size);
      if coord.y == U32AsI32(size.y) {
        return None;
      }
      var current := coord;
      coord := coord.(x := coord.x + 1);
      if coord.x == U32AsI32(size.x) {
        coord := coord.(x := 0);
        coord := coord.(y := coord.y + 1);
      }
      r := Some(current);
      assert Position(coord, size) == Position(before, size) + 1;
      DivModUnique(Position(before, size), Width(size), before.y, before.x);
    }
  }

  /** `Size::coord_iter_row_major`. */
  method IterRowMajor(size: Size) returns (it: CoordIterRowMajor)
    ensures fresh(it) && it.size == size && it.coord == Coord(0, 0)
    ensures Iterable(size) ==> it.Valid() && it.Remaining() == RowMajor(size)
  {
    it := new CoordIterRowMajor(size);
  }

  /** A 2 by 2 grid yields (0,0), (1,0), (0,1), (1,1), then `None`. */
  method TwoByTwo() returns (items: seq<Option<Coord>>)
    ensures items == [Some(Coord(0, 0)), Some(Coord(1, 0)), Some(Coord(0, 1)), Some(Coord(1, 1)), None]
  {
    var it := IterRowMajor(Size(2, 2));
    RowMajorExamples(2);
    var first := it.Next();
    var second := it.Next();
    var third := it.Next();
    var fourth := it.Next();
    var end := it.Next();
    items := [first, second, third, fourth, end];
  }
}
