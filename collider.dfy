// The integer collision tests of the engine
// (engine/libflatkiss-logic/libflatkiss/logic/collider.cpp): rectangle
// against rectangle, point in ellipse, rectangle against ellipse, and solid
// against solid, which tries every pair of shapes of the two solids.

module Collider {
  import opened Arith
  import opened Solid

  function Square(v: int): int { v * v }

  // ---------------------------------------------------------------------
  // Rectangle against rectangle

  /** `collide(rectangle1, rectangle2)`: the first rectangle's right and
      bottom edges are exclusive, the second's inclusive. */
  predicate RectanglesCollide(r1: PositionedRectangle, r2: PositionedRectangle)
  {
    if r1.x + r1.width <= r2.x then false
    else if r1.x > r2.x + r2.width then false
    else if r1.y + r1.height <= r2.y then false
    else if r1.y > r2.y + r2.height then false
    else true
  }

  /** The cells of a rectangle, its right and bottom edges excluded. */
  predicate InCells(r: PositionedRectangle, p: Position)
  {
    r.x <= p.x < r.x + r.width && r.y <= p.y < r.y + r.height
  }

  /** The points of a rectangle, its edges included. */
  predicate InClosed(r: PositionedRectangle, p: Position)
  {
    r.x <= p.x <= r.x + r.width && r.y <= p.y <= r.y + r.height
  }

  /** Two rectangles collide exactly when some cell of the first is a point
      of the second. */
  lemma RectanglesCollideShareCell(r1: PositionedRectangle, r2: PositionedRectangle)
    requires r1.width > 0 && r1.height > 0 && r2.width >= 0 && r2.height >= 0
    ensures RectanglesCollide(r1, r2) <==> exists p :: InCells(r1, p) && InClosed(r2, p)
  {
    if RectanglesCollide(r1, r2) {
      var p := Position(Max(r1.x, r2.x), Max(r1.y, r2.y));
      assert InCells(r1, p) && InClosed(r2, p);
    }
  }

  /** The test is not symmetric: of two rectangles side by side, the left
      one does not reach the right one, but the right one reaches the left
      one through their shared edge. */
  lemma RectanglesCollideAsymmetric(r1: PositionedRectangle, r2: PositionedRectangle)
    requires r1.width > 0 && r1.height > 0 && r2.width > 0 && r2.height > 0
    requires r2.x == r1.x + r1.width && r2.y == r1.y
    ensures !RectanglesCollide(r1, r2) && RectanglesCollide(r2, r1)
  {
  }

  // ---------------------------------------------------------------------
  // Point in ellipse

  /** `collide(ellipse, position)`: (ry |dx|)^2 + (rx |dy|)^2 <= (rx ry)^2,
      the ellipse equation multiplied by (rx ry)^2. */
  predicate EllipseContains(e: PositionedEllipse, p: Position)
  {
    Square(e.radiusY * Abs(p.x - e.x)) + Square(e.radiusX * Abs(p.y - e.y)) <= Square(e.radiusX * e.radiusY)
  }

  /** Of two non-negative numbers, the one with the larger square is the
      larger. */
  lemma SquareMonotonic(a: int, b: int)
    requires 0 <= a && 0 <= b && Square(a) <= Square(b)
    ensures a <= b
  {
    if a > b {
      MulMonotonic(a, b + 1, a);
      if b > 0 {
        MulMonotonic(b, b, a);
      }
    }
  }

  /** A positive factor can be cancelled on both sides. */
  lemma MulCancel(k: int, a: int, b: int)
    requires k > 0 && k * a <= k * b
    ensures a <= b
  {
    if a > b {
      MulMonotonic(k, b + 1, a);
    }
  }

  /** A point of an ellipse with positive radii lies within its radii from
      the centre. */
  lemma InsideEllipseExtent(e: PositionedEllipse, p: Position)
    requires e.radiusX > 0 && e.radiusY > 0 && EllipseContains(e, p)
    ensures Abs(p.x - e.x) <= e.radiusX && Abs(p.y - e.y) <= e.radiusY
  {
    var dx, dy := Abs(p.x - e.x), Abs(p.y - e.y);
    var rxy := e.radiusX * e.radiusY;
    assert 0 <= rxy by { MulMonotonic(e.radiusX, 0, e.radiusY); }
    assert 0 <= e.radiusY * dx by { MulMonotonic(e.radiusY, 0, dx); }
    assert 0 <= e.radiusX * dy by { MulMonotonic(e.radiusX, 0, dy); }
    SquareMonotonic(e.radiusY * dx, rxy);
    SquareMonotonic(e.radiusX * dy, rxy);
    assert e.radiusY * dx <= e.radiusY * e.radiusX;
    MulCancel(e.radiusY, dx, e.radiusX);
    MulCancel(e.radiusX, dy, e.radiusY);
  }

  /** The centre and the four vertices of an ellipse belong to it. */
  lemma EllipseContainsVertices(e: PositionedEllipse)
    requires e.radiusX >= 0 && e.radiusY >= 0
    ensures EllipseContains(e, Position(e.x, e.y))
    ensures EllipseContains(e, Position(e.x - e.radiusX, e.y)) && EllipseContains(e, Position(e.x + e.radiusX, e.y))
    ensures EllipseContains(e, Position(e.x, e.y - e.radiusY)) && EllipseContains(e, Position(e.x, e.y + e.radiusY))
  {
    var rxy := e.radiusX * e.radiusY;
    assert 0 <= Square(rxy);
    assert e.radiusY * e.radiusX == rxy;
  }

  // ---------------------------------------------------------------------
  // Rectangle against ellipse

  /** The first test: a corner of the rectangle lies in the ellipse. */
  predicate CornerInEllipse(r: PositionedRectangle, e: PositionedEllipse)
  {
    EllipseContains(e, Position(r.x, r.y))
    || EllipseContains(e, Position(r.x + r.width, r.y))
    || EllipseContains(e, Position(r.x, r.y + r.height))
    || EllipseContains(e, Position(r.x + r.width, r.y + r.height))
  }

  /** `collide(rectangle, ellipse)` as written: after the corners, a centre
      within the rectangle's columns collides when `e.y + ry >= r.y ||
      e.y >= r.y + ry`, and a centre within its rows when `e.x + rx >= r.x
      || e.x >= r.x + rx`. The second half of each disjunction implies the
      first, and nothing bounds the ellipse on the far side. */
  predicate RectangleEllipseAsWritten(r: PositionedRectangle, e: PositionedEllipse)
  {
    CornerInEllipse(r, e)
    || (r.x <= e.x <= r.x + r.width && (e.y + e.radiusY >= r.y || e.y >= r.y + e.radiusY))
    || (r.y <= e.y <= r.y + r.height && (e.x + e.radiusX >= r.x || e.x >= r.x + e.radiusX))
  }

  /** As written, an ellipse centred anywhere below the top edge of a
      rectangle, within its columns, collides with it however far away. */
  lemma AsWrittenCollidesFromAfar(r: PositionedRectangle, e: PositionedEllipse)
    requires e.radiusY >= 0 && r.x <= e.x <= r.x + r.width && e.y >= r.y
    ensures RectangleEllipseAsWritten(r, e)
  {
  }

  /** The two extents share a point. */
  predicate ExtentsOverlap(a: Extent, b: Extent)
  {
    a.minX <= b.maxX && b.minX <= a.maxX && a.minY <= b.maxY && b.minY <= a.maxY
  }

  /** The counterexample: a 10 by 10 rectangle at the origin and a unit
      circle 990 below it collide as written, though nothing of the circle
      comes near the rectangle. */
  lemma AsWrittenFarCircle()
    ensures var r, e := PositionedRectangle(0, 0, 10, 10), PositionedEllipse(5, 1000, 1, 1);
      RectangleEllipseAsWritten(r, e) && !ExtentsOverlap(RectangleExtent(r), EllipseExtent(e))
      && !RectangleEllipseCollide(r, e)
  {
    var r, e := PositionedRectangle(0, 0, 10, 10), PositionedEllipse(5, 1000, 1, 1);
    AsWrittenCollidesFromAfar(r, e);
  }

  /** `collide(rectangle, ellipse)` as its comment describes it: a corner in
      the ellipse, or a vertex or co-vertex of the ellipse beyond the nearest
      side of the rectangle while the opposite one is not beyond the far
      side, the centre lying between the two adjacent sides. */
  predicate RectangleEllipseCollide(r: PositionedRectangle, e: PositionedEllipse)
  {
    CornerInEllipse(r, e)
    || (r.x <= e.x <= r.x + r.width && e.y + e.radiusY >= r.y && e.y - e.radiusY <= r.y + r.height)
    || (r.y <= e.y <= r.y + r.height && e.x + e.radiusX >= r.x && e.x - e.radiusX <= r.x + r.width)
  }

  /** Corrected, a collision needs the rectangle to meet the box of the
      ellipse. */
  lemma CollisionNeedsOverlap(r: PositionedRectangle, e: PositionedEllipse)
    requires e.radiusX > 0 && e.radiusY > 0 && r.width >= 0 && r.height >= 0
    requires RectangleEllipseCollide(r, e)
    ensures ExtentsOverlap(RectangleExtent(r), EllipseExtent(e))
  {
    if EllipseContains(e, Position(r.x, r.y)) {
      InsideEllipseExtent(e, Position(r.x, r.y));
    } else if EllipseContains(e, Position(r.x + r.width, r.y)) {
      InsideEllipseExtent(e, Position(r.x + r.width, r.y));
    } else if EllipseContains(e, Position(r.x, r.y + r.height)) {
      InsideEllipseExtent(e, Position(r.x, r.y + r.height));
    } else if EllipseContains(e, Position(r.x + r.width, r.y + r.height)) {
      InsideEllipseExtent(e, Position(r.x + r.width, r.y + r.height));
    }
  }

  /** An ellipse with its centre in the rectangle collides with it, and so
      does one with a vertex inside the rectangle. */
  lemma CollisionFromInside(r: PositionedRectangle, e: PositionedEllipse)
    requires e.radiusX >= 0 && e.radiusY >= 0
    requires (r.x <= e.x <= r.x + r.width && r.y <= e.y + e.radiusY <= r.y + r.height)
             || (r.y <= e.y <= r.y + r.height && r.x <= e.x + e.radiusX <= r.x + r.width)
    ensures RectangleEllipseCollide(r, e)
  {
  }

  // ---------------------------------------------------------------------
  // Ellipse against ellipse

  /** `collide(ellipse1, ellipse2)` computes a change of coordinates and
      returns false: ellipses never collide with each other. */
  predicate EllipsesCollide(e1: PositionedEllipse, e2: PositionedEllipse)
  {
    false
  }

  // ---------------------------------------------------------------------
  // Solid against solid

  /** A shape of the first solid meets the second one: an ellipse of the
      first against each ellipse of the second, then each rectangle of the
      second against that ellipse, by the rectangle-ellipse test as
      written. */
  predicate EllipseMeets(e: PositionedEllipse, e2: seq<PositionedEllipse>, r2: seq<PositionedRectangle>)
  {
    (exists j :: 0 <= j < |e2| && EllipsesCollide(e, e2[j]))
    || (exists j :: 0 <= j < |r2| && RectangleEllipseAsWritten(r2[j], e))
  }

  /** A rectangle of the first solid against each ellipse, then each
      rectangle, of the second. */
  predicate RectangleMeets(r: PositionedRectangle, e2: seq<PositionedEllipse>, r2: seq<PositionedRectangle>)
  {
    (exists j :: 0 <= j < |e2| && RectangleEllipseAsWritten(r, e2[j]))
    || (exists j :: 0 <= j < |r2| && RectanglesCollide(r, r2[j]))
  }

  /** Some pair of shapes taken one from each solid collides, in the
      argument order the loops use. */
  predicate ShapesCollide(e1: seq<PositionedEllipse>, r1: seq<PositionedRectangle>,
                          e2: seq<PositionedEllipse>, r2: seq<PositionedRectangle>)
  {
    (exists i :: 0 <= i < |e1| && EllipseMeets(e1[i], e2, r2))
    || (exists i :: 0 <= i < |r1| && RectangleMeets(r1[i], e2, r2))
  }

  /** Two positioned solids collide when their shapes, placed at the
      solids' positions, do. */
  predicate SolidsCollide(s1: PositionedSolid, s2: PositionedSolid)
  {
    ShapesCollide(AbsoluteEllipses(s1), AbsoluteRectangles(s1), AbsoluteEllipses(s2), AbsoluteRectangles(s2))
  }

  /** Solids collide exactly when some pair of their shapes other than two
      ellipses does: ellipses never collide with each other, so two solids
      made only of ellipses never collide. */
  lemma EllipsePairsNeverCount(e1: seq<PositionedEllipse>, r1: seq<PositionedRectangle>,
                               e2: seq<PositionedEllipse>, r2: seq<PositionedRectangle>)
    ensures ShapesCollide(e1, r1, e2, r2)
            <==> (exists i, j :: 0 <= i < |e1| && 0 <= j < |r2| && RectangleEllipseAsWritten(r2[j], e1[i]))
                 || (exists i, j :: 0 <= i < |r1| && 0 <= j < |e2| && RectangleEllipseAsWritten(r1[i], e2[j]))
                 || (exists i, j :: 0 <= i < |r1| && 0 <= j < |r2| && RectanglesCollide(r1[i], r2[j]))
    ensures r1 == [] && r2 == [] ==> !ShapesCollide(e1, r1, e2, r2)
  {
  }

  /** The pairs of the same loops under the rectangle-ellipse test as its
      comment means it. */
  predicate ShapesCollideIntended(e1: seq<PositionedEllipse>, r1: seq<PositionedRectangle>,
                                  e2: seq<PositionedEllipse>, r2: seq<PositionedRectangle>)
  {
    (exists i, j :: 0 <= i < |e1| && 0 <= j < |r2| && RectangleEllipseCollide(r2[j], e1[i]))
    || (exists i, j :: 0 <= i < |r1| && 0 <= j < |e2| && RectangleEllipseCollide(r1[i], e2[j]))
    || (exists i, j :: 0 <= i < |r1| && 0 <= j < |r2| && RectanglesCollide(r1[i], r2[j]))
  }

  /** Every collision the corrected test finds, the test as written finds
      too: the code as written only adds collisions. */
  lemma IntendedCollisionIsFound(r: PositionedRectangle, e: PositionedEllipse)
    requires RectangleEllipseCollide(r, e)
    ensures RectangleEllipseAsWritten(r, e)
  {
  }

  /** Solids that collide under the corrected test collide under the loops
      as written. */
  lemma IntendedSolidCollisionIsFound(e1: seq<PositionedEllipse>, r1: seq<PositionedRectangle>,
                                      e2: seq<PositionedEllipse>, r2: seq<PositionedRectangle>)
    requires ShapesCollideIntended(e1, r1, e2, r2)
    ensures ShapesCollide(e1, r1, e2, r2)
  {
    EllipsePairsNeverCount(e1, r1, e2, r2);
    if i, j :| 0 <= i < |e1| && 0 <= j < |r2| && RectangleEllipseCollide(r2[j], e1[i]) {
      IntendedCollisionIsFound(r2[j], e1[i]);
    } else if i, j :| 0 <= i < |r1| && 0 <= j < |e2| && RectangleEllipseCollide(r1[i], e2[j]) {
      IntendedCollisionIsFound(r1[i], e2[j]);
    }
  }

  /** The counterexample of the rectangle-ellipse test, for two solids: a
      solid made of the rectangle (0, 0, 10, 10) and one made of the unit
      circle centred at (5, 1000) collide as written, and not under the
      corrected test. */
  lemma AsWrittenFarSolids()
    ensures var r, e := PositionedRectangle(0, 0, 10, 10), PositionedEllipse(5, 1000, 1, 1);
      ShapesCollide([], [r], [e], []) && !ShapesCollideIntended([], [r], [e], [])
  {
    var r, e := PositionedRectangle(0, 0, 10, 10), PositionedEllipse(5, 1000, 1, 1);
    AsWrittenFarCircle();
    assert RectangleMeets(r, [e], []) by {
      assert [e][0] == e;
    }
    var r1: seq<PositionedRectangle> := [r];
    assert r1[0] == r;
  }

  /** The two inner loops for an ellipse of the first solid. */
  method CollideEllipse(e: PositionedEllipse, e2: seq<PositionedEllipse>, r2: seq<PositionedRectangle>)
    returns (b: bool)
    ensures b <==> EllipseMeets(e, e2, r2)
  {
    for j := 0 to |e2|
      invariant forall j' :: 0 <= j' < j ==> !EllipsesCollide(e, e2[j'])
    {
      if EllipsesCollide(e, e2[j]) {
        return true;
      }
    }
    for j := 0 to |r2|
      invariant forall j' :: 0 <= j' < j ==> !RectangleEllipseAsWritten(r2[j'], e)
    {
      if RectangleEllipseAsWritten(r2[j], e) {
        return true;
      }
    }
    return false;
  }

  /** The two inner loops for a rectangle of the first solid. */
  method CollideRectangle(r: PositionedRectangle, e2: seq<PositionedEllipse>, r2: seq<PositionedRectangle>)
    returns (b: bool)
    ensures b <==> RectangleMeets(r, e2, r2)
  {
    for j := 0 to |e2|
      invariant forall j' :: 0 <= j' < j ==> !RectangleEllipseAsWritten(r, e2[j'])
    {
      if RectangleEllipseAsWritten(r, e2[j]) {
        return true;
      }
    }
    for j := 0 to |r2|
      invariant forall j' :: 0 <= j' < j ==> !RectanglesCollide(r, r2[j'])
    {
      if RectanglesCollide(r, r2[j]) {
        return true;
      }
    }
    return false;
  }

  /** `collide(solid1, solid2)`: the loops over the shapes of the first
      solid, returning at the first pair that collides. */
  method CollideSolids(s1: PositionedSolid, s2: PositionedSolid) returns (b: bool)
    ensures b <==> SolidsCollide(s1, s2)
  {
    var e1, r1 := AbsoluteEllipses(s1), AbsoluteRectangles(s1);
    var e2, r2 := AbsoluteEllipses(s2), AbsoluteRectangles(s2);
    for i := 0 to |e1|
      invariant forall i' :: 0 <= i' < i ==> !EllipseMeets(e1[i'], e2, r2)
    {
      var hit := CollideEllipse(e1[i], e2, r2);
      if hit {
        return true;
      }
    }
    for i := 0 to |r1|
      invariant forall i' :: 0 <= i' < i ==> !RectangleMeets(r1[i'], e2, r2)
    {
      var hit := CollideRectangle(r1[i], e2, r2);
      if hit {
        return true;
      }
    }
    return false;
  }
}
