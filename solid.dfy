// Solids: ellipses and rectangles positioned relative to the solid's origin,
// and the box that bounds them (engine/libflatkiss-model/libflatkiss/model/
// solid.cpp and positioned_solid.cpp).

module Solid {
  import opened Arith
  import opened Bytes

  datatype Position = Position(x: int, y: int)

  /** A rectangle whose top-left corner is at (x, y). */
  datatype PositionedRectangle = PositionedRectangle(x: int, y: int, width: int, height: int)

  /** An ellipse centred on (x, y) with the given radii. */
  datatype PositionedEllipse = PositionedEllipse(x: int, y: int, radiusX: int, radiusY: int)

  /** The smallest and largest coordinates reached along each axis. */
  datatype Extent = Extent(minX: int, minY: int, maxX: int, maxY: int)

  /** A solid: its shapes, relative to its origin, and their bounding box. */
  datatype Solid = Solid(boundingBox: PositionedRectangle,
                         ellipses: seq<PositionedEllipse>, rectangles: seq<PositionedRectangle>)

  const Int64Min: int := -0x8000_0000_0000_0000
  const Int64Max: int := 0x7fff_ffff_ffff_ffff

  function EllipseExtent(e: PositionedEllipse): Extent
  {
    Extent(e.x - e.radiusX, e.y - e.radiusY, e.x + e.radiusX, e.y + e.radiusY)
  }

  function RectangleExtent(r: PositionedRectangle): Extent
  {
    Extent(r.x, r.y, r.x + r.width, r.y + r.height)
  }

  /** The extremes before any shape: the accumulators start at the opposite
      ends of the 64-bit range. */
  const NoExtent := Extent(Int64Max, Int64Max, Int64Min, Int64Min)

  /** The extremes once one more shape is taken into account. */
  function Widen(acc: Extent, s: Extent): Extent
  {
    Extent(Min(acc.minX, s.minX), Min(acc.minY, s.minY), Max(acc.maxX, s.maxX), Max(acc.maxY, s.maxY))
  }

  /** The extent of shape k in the order the computation visits the
      shapes: the ellipses, then the rectangles. */
  function ShapeExtent(ellipses: seq<PositionedEllipse>, rectangles: seq<PositionedRectangle>, k: nat): Extent
    requires k < |ellipses| + |rectangles|
  {
    if k < |ellipses| then EllipseExtent(ellipses[k]) else RectangleExtent(rectangles[k - |ellipses|])
  }

  /** The extremes accumulated over the first n shapes, first to last. */
  function Hull(ellipses: seq<PositionedEllipse>, rectangles: seq<PositionedRectangle>, n: nat): Extent
    requires n <= |ellipses| + |rectangles|
  {
    if n == 0 then NoExtent else Widen(Hull(ellipses, rectangles, n - 1), ShapeExtent(ellipses, rectangles, n - 1))
  }

  function BoxOf(h: Extent): PositionedRectangle
  {
    PositionedRectangle(h.minX, h.minY, h.maxX - h.minX, h.maxY - h.minY)
  }

  /** `Solid::computeBoundingBox`: the box from the smallest to the largest
      coordinates of the shapes. Without any shape the width is the
      difference of the two sentinels, which overflows. */
  function BoundingBox(ellipses: seq<PositionedEllipse>, rectangles: seq<PositionedRectangle>)
    : (r: Result<PositionedRectangle>)
    ensures r.Err? <==> ellipses == [] && rectangles == []
    ensures r.Err? ==> r.error == Undefined
  {
    if ellipses == [] && rectangles == [] then Err(Undefined)
    else Ok(BoxOf(Hull(ellipses, rectangles, |ellipses| + |rectangles|)))
  }

  /** The constructor `Solid::Solid`: the shapes and their bounding box. */
  function NewSolid(ellipses: seq<PositionedEllipse>, rectangles: seq<PositionedRectangle>): (r: Result<Solid>)
    ensures r.Ok? <==> BoundingBox(ellipses, rectangles).Ok?
    ensures r.Ok? ==> r.value.ellipses == ellipses && r.value.rectangles == rectangles
                      && r.value.boundingBox == BoundingBox(ellipses, rectangles).value
  {
    match BoundingBox(ellipses, rectangles)
    case Err(e) => Err(e)
    case Ok(box) => Ok(Solid(box, ellipses, rectangles))
  }

  /** A solid built by its constructor. */
  predicate WellFormed(s: Solid)
  {
    NewSolid(s.ellipses, s.rectangles) == Ok(s)
  }

  // ---------------------------------------------------------------------
  // The computation

  /** The two loops of `Solid::computeBoundingBox`, updating the four
      accumulators shape by shape. */
  method ComputeBoundingBox(ellipses: seq<PositionedEllipse>, rectangles: seq<PositionedRectangle>)
    returns (box: Result<PositionedRectangle>)
    ensures box == BoundingBox(ellipses, rectangles)
  {
    var maxX, maxY, minX, minY := Int64Min, Int64Min, Int64Max, Int64Max;
    var i := 0;
    while i < |ellipses|
      invariant 0 <= i <= |ellipses|
      invariant Extent(minX, minY, maxX, maxY) == Hull(ellipses, rectangles, i)
    {
      var e := ellipses[i];
      maxX := Max(maxX, e.x + e.radiusX);
      maxY := Max(maxY, e.y + e.radiusY);
      minX := Min(minX, e.x - e.radiusX);
      minY := Min(minY, e.y - e.radiusY);
      i := i + 1;
    }
    var j := 0;
    while j < |rectangles|
      invariant 0 <= j <= |rectangles|
      invariant Extent(minX, minY, maxX, maxY) == Hull(ellipses, rectangles, |ellipses| + j)
    {
      var r := rectangles[j];
      maxX := Max(maxX, r.x + r.width);
      maxY := Max(maxY, r.y + r.height);
      minX := Min(minX, r.x);
      minY := Min(minY, r.y);
      j := j + 1;
    }
    if ellipses == [] && rectangles == [] {
      return Err(Undefined);
    }
    box := Ok(BoxOf(Extent(minX, minY, maxX, maxY)));
  }

  /** The constructor, computing the box by the loops. */
  method Create(ellipses: seq<PositionedEllipse>, rectangles: seq<PositionedRectangle>) returns (r: Result<Solid>)
    ensures r == NewSolid(ellipses, rectangles)
  {
    var box := ComputeBoundingBox(ellipses, rectangles);
    if box.Err? {
      return Err(box.error);
    }
    r := Ok(Solid(box.value, ellipses, rectangles));
  }

  // ---------------------------------------------------------------------
  // What the box is

  /** An extent lies within a hull. */
  predicate Within(s: Extent, h: Extent)
  {
    h.minX <= s.minX && h.minY <= s.minY && s.maxX <= h.maxX && s.maxY <= h.maxY
  }

  lemma {:induction false} HullContains(ellipses: seq<PositionedEllipse>, rectangles: seq<PositionedRectangle>,
                                        n: nat, k: nat)
    requires k < n <= |ellipses| + |rectangles|
    ensures Within(ShapeExtent(ellipses, rectangles, k), Hull(ellipses, rectangles, n))
  {
    if k < n - 1 {
      HullContains(ellipses, rectangles, n - 1, k);
    }
  }

  /** The extent of a box. */
  function BoxExtent(box: PositionedRectangle): Extent
  {
    Extent(box.x, box.y, box.x + box.width, box.y + box.height)
  }

  /** Every shape lies inside the bounding box. */
  lemma ShapesInsideBox(ellipses: seq<PositionedEllipse>, rectangles: seq<PositionedRectangle>)
    requires BoundingBox(ellipses, rectangles).Ok?
    ensures forall k :: 0 <= k < |ellipses| ==>
              Within(EllipseExtent(ellipses[k]), BoxExtent(BoundingBox(ellipses, rectangles).value))
    ensures forall k :: 0 <= k < |rectangles| ==>
              Within(RectangleExtent(rectangles[k]), BoxExtent(BoundingBox(ellipses, rectangles).value))
  {
    var n := |ellipses| + |rectangles|;
    var h := Hull(ellipses, rectangles, n);
    assert BoxExtent(BoundingBox(ellipses, rectangles).value) == h;
    forall k | 0 <= k < |ellipses|
      ensures Within(EllipseExtent(ellipses[k]), h)
    {
      HullContains(ellipses, rectangles, n, k);
    }
    forall k | 0 <= k < |rectangles|
      ensures Within(RectangleExtent(rectangles[k]), h)
    {
      HullContains(ellipses, rectangles, n, |ellipses| + k);
    }
  }

  /** An extent whose coordinates are 64-bit integers, as the C++ ones are. */
  predicate InInt64(s: Extent)
  {
    Int64Min <= s.minX <= Int64Max && Int64Min <= s.minY <= Int64Max
    && Int64Min <= s.maxX <= Int64Max && Int64Min <= s.maxY <= Int64Max
  }

  /** All the shapes reach only 64-bit coordinates. */
  predicate ShapesInInt64(ellipses: seq<PositionedEllipse>, rectangles: seq<PositionedRectangle>)
  {
    (forall k :: 0 <= k < |ellipses| ==> InInt64(EllipseExtent(ellipses[k])))
    && (forall k :: 0 <= k < |rectangles| ==> InInt64(RectangleExtent(rectangles[k])))
  }

  lemma ShapeInInt64(ellipses: seq<PositionedEllipse>, rectangles: seq<PositionedRectangle>, k: nat)
    requires k < |ellipses| + |rectangles| && ShapesInInt64(ellipses, rectangles)
    ensures InInt64(ShapeExtent(ellipses, rectangles, k))
  {
    if k >= |ellipses| {
      assert InInt64(RectangleExtent(rectangles[k - |ellipses|]));
    }
  }

  /** Each side of the hull of the first n shapes is reached by one of
      them. */
  predicate Touched(ellipses: seq<PositionedEllipse>, rectangles: seq<PositionedRectangle>, n: nat, h: Extent)
    requires n <= |ellipses| + |rectangles|
  {
    (exists k :: 0 <= k < n && ShapeExtent(ellipses, rectangles, k).minX == h.minX)
    && (exists k :: 0 <= k < n && ShapeExtent(ellipses, rectangles, k).minY == h.minY)
    && (exists k :: 0 <= k < n && ShapeExtent(ellipses, rectangles, k).maxX == h.maxX)
    && (exists k :: 0 <= k < n && ShapeExtent(ellipses, rectangles, k).maxY == h.maxY)
  }

  lemma {:induction false} HullTouched(ellipses: seq<PositionedEllipse>, rectangles: seq<PositionedRectangle>, n: nat)
    requires 0 < n <= |ellipses| + |rectangles| && ShapesInInt64(ellipses, rectangles)
    ensures Touched(ellipses, rectangles, n, Hull(ellipses, rectangles, n))
  {
    ShapeInInt64(ellipses, rectangles, n - 1);
    if n == 1 {
      assert Hull(ellipses, rectangles, 1) == ShapeExtent(ellipses, rectangles, 0);
    } else {
      HullTouched(ellipses, rectangles, n - 1);
      HullTouchedStep(ellipses, rectangles, n);
    }
  }

  lemma HullTouchedStep(ellipses: seq<PositionedEllipse>, rectangles: seq<PositionedRectangle>, n: nat)
    requires 1 < n <= |ellipses| + |rectangles|
    requires Touched(ellipses, rectangles, n - 1, Hull(ellipses, rectangles, n - 1))
    ensures Touched(ellipses, rectangles, n, Hull(ellipses, rectangles, n))
  {
    var h, g, last := Hull(ellipses, rectangles, n), Hull(ellipses, rectangles, n - 1), ShapeExtent(ellipses, rectangles, n - 1);
    if last.minX < g.minX { assert ShapeExtent(ellipses, rectangles, n - 1).minX == h.minX; }
    if last.minY < g.minY { assert ShapeExtent(ellipses, rectangles, n - 1).minY == h.minY; }
    if last.maxX > g.maxX { assert ShapeExtent(ellipses, rectangles, n - 1).maxX == h.maxX; }
    if last.maxY > g.maxY { assert ShapeExtent(ellipses, rectangles, n - 1).maxY == h.maxY; }
  }

  /** The box is the smallest one containing the shapes: each of its sides
      is touched by a shape, as long as the shapes stay within the 64-bit
      range the C++ coordinates have. */
  lemma BoxIsMinimal(ellipses: seq<PositionedEllipse>, rectangles: seq<PositionedRectangle>)
    requires BoundingBox(ellipses, rectangles).Ok?
    requires ShapesInInt64(ellipses, rectangles)
    ensures Touched(ellipses, rectangles, |ellipses| + |rectangles|, BoxExtent(BoundingBox(ellipses, rectangles).value))
  {
    var n := |ellipses| + |rectangles|;
    HullTouched(ellipses, rectangles, n);
    assert BoxExtent(BoundingBox(ellipses, rectangles).value) == Hull(ellipses, rectangles, n);
  }

  // ---------------------------------------------------------------------
  // Positioned solids

  /** A solid placed in the level at a position. */
  datatype PositionedSolid = PositionedSolid(position: Position, solid: Solid)

  function MoveEllipse(e: PositionedEllipse, p: Position): PositionedEllipse
  {
    PositionedEllipse(e.x + p.x, e.y + p.y, e.radiusX, e.radiusY)
  }

  function MoveRectangle(r: PositionedRectangle, p: Position): PositionedRectangle
  {
    PositionedRectangle(r.x + p.x, r.y + p.y, r.width, r.height)
  }

  function MoveEllipses(ellipses: seq<PositionedEllipse>, p: Position): (r: seq<PositionedEllipse>)
    ensures |r| == |ellipses|
    ensures forall k {:trigger r[k]} :: 0 <= k < |r| ==> r[k] == MoveEllipse(ellipses[k], p)
  {
    if ellipses == [] then [] else [MoveEllipse(ellipses[0], p)] + MoveEllipses(ellipses[1..], p)
  }

  function MoveRectangles(rectangles: seq<PositionedRectangle>, p: Position): (r: seq<PositionedRectangle>)
    ensures |r| == |rectangles|
    ensures forall k {:trigger r[k]} :: 0 <= k < |r| ==> r[k] == MoveRectangle(rectangles[k], p)
  {
    if rectangles == [] then [] else [MoveRectangle(rectangles[0], p)] + MoveRectangles(rectangles[1..], p)
  }

  /** `PositionedSolid::create_positioned_ellipses`: the ellipses in level
      coordinates. */
  function AbsoluteEllipses(s: PositionedSolid): seq<PositionedEllipse>
  {
    MoveEllipses(s.solid.ellipses, s.position)
  }

  /** `PositionedSolid::create_positioned_rectangles`. */
  function AbsoluteRectangles(s: PositionedSolid): seq<PositionedRectangle>
  {
    MoveRectangles(s.solid.rectangles, s.position)
  }

  /** `PositionedSolid::absoluteBoundingBox`: the solid's box moved by the
      position. */
  function AbsoluteBoundingBox(s: PositionedSolid): PositionedRectangle
  {
    MoveRectangle(s.solid.boundingBox, s.position)
  }

  function MoveExtent(e: Extent, p: Position): Extent
  {
    Extent(e.minX + p.x, e.minY + p.y, e.maxX + p.x, e.maxY + p.y)
  }

  lemma MoveWiden(a: Extent, b: Extent, p: Position)
    ensures MoveExtent(Widen(a, b), p) == Widen(MoveExtent(a, p), MoveExtent(b, p))
  {
  }

  /** The hull of the moved shapes is the moved hull. */
  lemma {:induction false} HullMoves(ellipses: seq<PositionedEllipse>, rectangles: seq<PositionedRectangle>,
                                     p: Position, n: nat)
    requires 0 < n <= |ellipses| + |rectangles|
    requires InInt64(ShapeExtent(ellipses, rectangles, 0))
    requires InInt64(ShapeExtent(MoveEllipses(ellipses, p), MoveRectangles(rectangles, p), 0))
    ensures Hull(MoveEllipses(ellipses, p), MoveRectangles(rectangles, p), n)
            == MoveExtent(Hull(ellipses, rectangles, n), p)
  {
    var es, rs := MoveEllipses(ellipses, p), MoveRectangles(rectangles, p);
    var k := n - 1;
    ShapeMoves(ellipses, rectangles, p, k);
    if n > 1 {
      HullMoves(ellipses, rectangles, p, n - 1);
      MoveWiden(Hull(ellipses, rectangles, n - 1), ShapeExtent(ellipses, rectangles, k), p);
    }
  }

  lemma ShapeMoves(ellipses: seq<PositionedEllipse>, rectangles: seq<PositionedRectangle>, p: Position, k: nat)
    requires k < |ellipses| + |rectangles|
    ensures ShapeExtent(MoveEllipses(ellipses, p), MoveRectangles(rectangles, p), k)
            == MoveExtent(ShapeExtent(ellipses, rectangles, k), p)
  {
  }

  /** Moving the shapes moves their bounding box: the absolute box of a
      positioned solid (its box moved by its position) is the box of its
      absolute shapes. The first shape, which replaces the sentinels, must
      lie within the 64-bit range before and after the move. */
  lemma MovedBoundingBox(ellipses: seq<PositionedEllipse>, rectangles: seq<PositionedRectangle>, p: Position)
    requires BoundingBox(ellipses, rectangles).Ok?
    requires InInt64(ShapeExtent(ellipses, rectangles, 0))
    requires InInt64(MoveExtent(ShapeExtent(ellipses, rectangles, 0), p))
    ensures BoundingBox(MoveEllipses(ellipses, p), MoveRectangles(rectangles, p))
            == Ok(MoveRectangle(BoundingBox(ellipses, rectangles).value, p))
  {
    var n := |ellipses| + |rectangles|;
    ShapeMoves(ellipses, rectangles, p, 0);
    HullMoves(ellipses, rectangles, p, n);
    var h := Hull(ellipses, rectangles, n);
    BoxOfMove(h, p);
  }

  lemma BoxOfMove(h: Extent, p: Position)
    ensures BoxOf(MoveExtent(h, p)) == MoveRectangle(BoxOf(h), p)
  {
  }
}
