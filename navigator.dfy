// How a solid moves through a level (engine/libflatkiss-logic/libflatkiss/
// logic/navigator.cpp): clamped to the level's bounds, stopped before the
// first tile it would collide with, sliding along an obstacle or
// side-stepping around it. Whether the solid collides with the tiles at a
// position is a predicate of the scene.

module Navigator {
  import opened Arith
  import opened Solid

  datatype Vector = Vector(dx: int, dy: int)

  function Add(p: Position, v: Vector): Position
  {
    Position(p.x + v.dx, p.y + v.dy)
  }

  /** What a navigation needs to know: the bounding box of the moving
      solid, relative to its position; the level's size in pixels (tiles
      times sprite size); and `collidesWithTiles` for the solid placed at a
      position. */
  datatype Scene = Scene(box: PositionedRectangle, width: int, height: int, collides: Position -> bool)

  /** The result of `moveBy`: whether the solid side-stepped, and where it
      ends. */
  datatype MoveResult = MoveResult(sidestepped: bool, position: Position)

  /** The outcome of one side-step direction: the position stepped to, or
      nothing when the direction is no good. */
  datatype Attempt = Fails | StepsTo(position: Position)

  // ---------------------------------------------------------------------
  // Bounds

  /** `clampToBounds` on one axis: a negative position becomes 0, an object
      reaching the bound is pushed back inside, anything else is kept. */
  function ClampToBounds(position: int, size: int, bound: int): int
  {
    if position < 0 then 0
    else if position + size >= bound then bound - size
    else position
  }

  /** An object no larger than the bound ends inside it, and one already
      strictly inside does not move. */
  lemma ClampInBounds(position: int, size: int, bound: int)
    requires 0 <= size <= bound
    ensures 0 <= ClampToBounds(position, size, bound) <= bound - size
    ensures 0 <= position && position + size < bound ==> ClampToBounds(position, size, bound) == position
    ensures ClampToBounds(ClampToBounds(position, size, bound), size, bound) == ClampToBounds(position, size, bound)
  {
  }

  /** `clampToBounds` for a positioned solid: its bounding box, placed at
      the position, clamped on each axis. */
  function ClampSolid(s: Scene, p: Position): Position
  {
    Position(ClampToBounds(p.x + s.box.x, s.box.width, s.width) - s.box.x,
             ClampToBounds(p.y + s.box.y, s.box.height, s.height) - s.box.y)
  }

  /** The absolute bounding box of a clamped solid lies within the level
      when the box fits it. */
  lemma ClampSolidInLevel(s: Scene, p: Position)
    requires 0 <= s.box.width <= s.width && 0 <= s.box.height <= s.height
    ensures var q := ClampSolid(s, p);
      0 <= q.x + s.box.x && q.x + s.box.x + s.box.width <= s.width
      && 0 <= q.y + s.box.y && q.y + s.box.y + s.box.height <= s.height
  {
    ClampInBounds(p.x + s.box.x, s.box.width, s.width);
    ClampInBounds(p.y + s.box.y, s.box.height, s.height);
  }

  // ---------------------------------------------------------------------
  // The nearest position before an obstacle

  /** The number of steps: the larger of the two components' magnitudes. */
  function Steps(d: Vector): nat
  {
    Max(Abs(d.dx), Abs(d.dy))
  }

  /** Step k of the way from `from` along d in m steps: each component
      scaled by k/m, truncated toward zero. */
  function StepPoint(from: Position, d: Vector, m: int, k: int): Position
    requires m > 0
  {
    Position(from.x + TDiv(k * d.dx, m), from.y + TDiv(k * d.dy, m))
  }

  /** The loop of `findNearestPositionToDestination` from step k on. */
  function NearestFrom(s: Scene, from: Position, dest: Position, k: nat): Position
    requires k >= 1
    decreases Steps(Vector(dest.x - from.x, dest.y - from.y)) - k + 1
  {
    var d := Vector(dest.x - from.x, dest.y - from.y);
    var m := Steps(d);
    if k > m then dest
    else if s.collides(StepPoint(from, d, m, k)) then StepPoint(from, d, m, k - 1)
    else NearestFrom(s, from, dest, k + 1)
  }

  /** `findNearestPositionToDestination`. */
  function Nearest(s: Scene, from: Position, dest: Position): Position
  {
    NearestFrom(s, from, dest, 1)
  }

  /** Step k is the first of steps k.. that collides, and the result is the
      step before it; or none does and the result is the destination. */
  predicate StopsBefore(s: Scene, from: Position, dest: Position, k: nat, r: Position)
    requires k >= 1
  {
    FirstStop(s, from, Vector(dest.x - from.x, dest.y - from.y), dest, k, r)
  }

  predicate FirstStop(s: Scene, from: Position, d: Vector, dest: Position, k: nat, r: Position)
    requires k >= 1
  {
    (exists j :: k <= j <= Steps(d) && s.collides(StepPoint(from, d, Steps(d), j))
                 && r == StepPoint(from, d, Steps(d), j - 1) && FreeSteps(s, from, d, k, j))
    || (FreeSteps(s, from, d, k, Steps(d) + 1) && r == dest)
  }

  /** Steps lo to hi - 1 do not collide. */
  predicate FreeSteps(s: Scene, from: Position, d: Vector, lo: int, hi: int)
  {
    forall i :: lo <= i < hi && 1 <= i <= Steps(d) ==> !s.collides(StepPoint(from, d, Steps(d), i))
  }

  lemma {:induction false} NearestFromStops(s: Scene, from: Position, dest: Position, k: nat)
    requires k >= 1
    ensures StopsBefore(s, from, dest, k, NearestFrom(s, from, dest, k))
    decreases Steps(Vector(dest.x - from.x, dest.y - from.y)) - k + 1
  {
    var d := Vector(dest.x - from.x, dest.y - from.y);
    var m := Steps(d);
    if k > m {
      StopPastEnd(s, from, d, dest, k);
    } else if s.collides(StepPoint(from, d, m, k)) {
      StopHere(s, from, d, dest, k);
    } else {
      NearestFromStops(s, from, dest, k + 1);
      StopLater(s, from, d, dest, k, NearestFrom(s, from, dest, k + 1));
    }
  }

  /** Past the last step, the walk ends at the destination. */
  lemma StopPastEnd(s: Scene, from: Position, d: Vector, dest: Position, k: nat)
    requires k > Steps(d)
    ensures FirstStop(s, from, d, dest, k, dest)
  {
    assert FreeSteps(s, from, d, k, Steps(d) + 1);
  }

  /** A colliding step k stops the walk at step k - 1. */
  lemma StopHere(s: Scene, from: Position, d: Vector, dest: Position, k: nat)
    requires 1 <= k <= Steps(d) && s.collides(StepPoint(from, d, Steps(d), k))
    ensures FirstStop(s, from, d, dest, k, StepPoint(from, d, Steps(d), k - 1))
  {
    assert FreeSteps(s, from, d, k, k);
  }

  /** A free step k leaves the walk where the walk from step k + 1 stops. */
  lemma StopLater(s: Scene, from: Position, d: Vector, dest: Position, k: nat, r: Position)
    requires 1 <= k <= Steps(d) && !s.collides(StepPoint(from, d, Steps(d), k))
    requires FirstStop(s, from, d, dest, k + 1, r)
    ensures FirstStop(s, from, d, dest, k, r)
  {
    var m := Steps(d);
    if FreeSteps(s, from, d, k + 1, m + 1) && r == dest {
      FreeStepsExtend(s, from, d, k, m + 1);
    } else {
      var j :| k + 1 <= j <= m && s.collides(StepPoint(from, d, m, j))
               && r == StepPoint(from, d, m, j - 1) && FreeSteps(s, from, d, k + 1, j);
      FreeStepsExtend(s, from, d, k, j);
    }
  }

  /** A free step k followed by free steps k + 1 to hi - 1. */
  lemma FreeStepsExtend(s: Scene, from: Position, d: Vector, k: int, hi: int)
    requires 1 <= k <= Steps(d) && !s.collides(StepPoint(from, d, Steps(d), k))
    requires FreeSteps(s, from, d, k + 1, hi)
    ensures FreeSteps(s, from, d, k, hi)
  {
  }

  /** `findNearestPositionToDestination`: the point of the step before the
      first step that collides, or the destination when no step does. */
  method FindNearest(s: Scene, from: Position, dest: Position) returns (r: Position)
    ensures StopsBefore(s, from, dest, 1, r)
    ensures r == Nearest(s, from, dest)
  {
    var d := Vector(dest.x - from.x, dest.y - from.y);
    var m := Steps(d);
    var step := 1;
    while step <= m
      invariant 1 <= step <= m + 1
      invariant NearestFrom(s, from, dest, step) == Nearest(s, from, dest)
      decreases m - step
    {
      var partial := Vector(TDiv(step * d.dx, m), TDiv(step * d.dy, m));
      if s.collides(Add(from, partial)) {
        r := StepPoint(from, d, m, step - 1);
        NearestFromStops(s, from, dest, 1);
        return;
      }
      step := step + 1;
    }
    r := dest;
    NearestFromStops(s, from, dest, 1);
  }

  /** The last step reaches the destination. */
  lemma LastStep(from: Position, dest: Position)
    requires from != dest
    ensures var d := Vector(dest.x - from.x, dest.y - from.y);
      Steps(d) > 0 && StepPoint(from, d, Steps(d), Steps(d)) == dest
  {
    var d := Vector(dest.x - from.x, dest.y - from.y);
    var m := Steps(d);
    TDivExact(d.dx, m);
    TDivExact(d.dy, m);
  }

  /** Step 0 is the starting point. */
  lemma FirstStep(from: Position, d: Vector, m: int)
    requires m > 0
    ensures StepPoint(from, d, m, 0) == from
  {
  }

  lemma TDivExact(a: int, m: int)
    requires m > 0
    ensures m * a == a * m && TDiv(a * m, m) == a
  {
    if a >= 0 {
      FloorDivUnique(a * m, m, a);
    } else {
      assert (-a) * m == -(a * m);
      FloorDivUnique((-a) * m, m, -a);
    }
  }

  /** Starting from a free position towards a destination that collides,
      the nearest position is free. */
  lemma NearestIsFree(s: Scene, from: Position, dest: Position)
    requires !s.collides(from) && s.collides(dest)
    ensures !s.collides(Nearest(s, from, dest))
  {
    var d := Vector(dest.x - from.x, dest.y - from.y);
    var m := Steps(d);
    var r := Nearest(s, from, dest);
    NearestFromStops(s, from, dest, 1);
    if FreeSteps(s, from, d, 1, m + 1) && r == dest {
      LastStep(from, dest);
      assert false;
    } else {
      var j :| 1 <= j <= m && s.collides(StepPoint(from, d, m, j))
               && r == StepPoint(from, d, m, j - 1) && FreeSteps(s, from, d, 1, j);
      if j == 1 {
        FirstStep(from, d, m);
      }
    }
  }

  // ---------------------------------------------------------------------
  // Moving

  /** A move that may slide or side-step calls back plain moves only. */
  function Mode(allowSlide: bool, sidestepDistance: int): nat
  {
    if allowSlide || sidestepDistance > 0 then 1 else 0
  }

  /** `moveBy`: to the clamped destination when it is free; otherwise to
      the nearest free point on the way, else sliding along the obstacle
      when allowed, else side-stepping when allowed, else nowhere. */
  function MoveBy(s: Scene, from: Position, d: Vector, sidestepDistance: int, sidestepSpeed: int,
                  allowSlide: bool): MoveResult
    decreases Mode(allowSlide, sidestepDistance), 1
  {
    var dest := ClampSolid(s, Add(from, d));
    if from == dest then MoveResult(false, from)
    else if !s.collides(dest) then MoveResult(false, dest)
    else
      var nearest := Nearest(s, from, dest);
      if from != nearest then MoveResult(false, nearest)
      else if allowSlide && Slide(s, from, d) != from then MoveResult(false, Slide(s, from, d))
      else if sidestepDistance > 0 && SideStep(s, from, d, sidestepDistance, sidestepSpeed) != from then
        MoveResult(true, SideStep(s, from, d, sidestepDistance, sidestepSpeed))
      else MoveResult(false, from)
  }

  /** `slide`: the move along X alone, else the move along Y alone, else
      nowhere. */
  function Slide(s: Scene, from: Position, d: Vector): Position
    decreases 0, 2
  {
    var alongX := MoveBy(s, from, Vector(d.dx, 0), 0, 0, false).position;
    if alongX != from then alongX
    else
      var alongY := MoveBy(s, from, Vector(0, d.dy), 0, 0, false).position;
      if alongY != from then alongY else from
  }

  /** One direction of `sideStepX` (axis (1, 0)) or `sideStepY` (axis
      (0, 1)): from a free parallax position `distance` away across the
      move, the move must lead somewhere; then the solid steps `speed`
      towards the parallax if that is free. */
  function SideStepToward(s: Scene, from: Position, d: Vector, distance: int, speed: int,
                          axis: Vector, direction: int): Attempt
    decreases 0, 2
  {
    var parallax := ClampSolid(s, Add(from, Vector(distance * direction * axis.dx, distance * direction * axis.dy)));
    if s.collides(parallax) then Fails
    else if MoveBy(s, parallax, d, 0, 0, false).position == parallax then Fails
    else
      var stepped := Add(from, Vector(speed * direction * axis.dx, speed * direction * axis.dy));
      if s.collides(stepped) then Fails else StepsTo(stepped)
  }

  /** `sideStepX` / `sideStepY`: direction -1, then 1; the first that
      succeeds is returned, even when it does not move. */
  function SideStepAlong(s: Scene, from: Position, d: Vector, distance: int, speed: int, axis: Vector): Position
    decreases 0, 3
  {
    var first := SideStepToward(s, from, d, distance, speed, axis, -1);
    if first.StepsTo? then first.position
    else
      var second := SideStepToward(s, from, d, distance, speed, axis, 1);
      if second.StepsTo? then second.position else from
  }

  /** `sideStep`: across a vertical move first, then across a horizontal
      one; a diagonal move never side-steps. */
  function SideStep(s: Scene, from: Position, d: Vector, distance: int, speed: int): Position
    decreases 0, 4
  {
    var acrossX := if d.dx == 0 then SideStepAlong(s, from, d, distance, speed, Vector(1, 0)) else from;
    if acrossX != from then acrossX
    else
      var acrossY := if d.dy == 0 then SideStepAlong(s, from, d, distance, speed, Vector(0, 1)) else from;
      if acrossY != from then acrossY else from
  }

  // ---------------------------------------------------------------------
  // What a move promises

  /** The first two branches of `moveBy`: a clamped destination equal to
      the position gives the position, not side-stepped; a free one is
      reached. */
  lemma MoveByDirect(s: Scene, from: Position, d: Vector, distance: int, speed: int, allowSlide: bool)
    ensures var dest := ClampSolid(s, Add(from, d));
      var r := MoveBy(s, from, d, distance, speed, allowSlide);
      (dest == from ==> r == MoveResult(false, from))
      && (!s.collides(dest) ==> r.position == dest && !r.sidestepped)
  {
  }

  /** A move side-steps only when side-stepping is on, the destination
      collides, and the solid cannot get nearer nor slide; and it then
      moves. */
  lemma SidesteppedOnlyBySideStep(s: Scene, from: Position, d: Vector, distance: int, speed: int, allowSlide: bool)
    requires MoveBy(s, from, d, distance, speed, allowSlide).sidestepped
    ensures var dest := ClampSolid(s, Add(from, d));
      distance > 0 && dest != from && s.collides(dest) && Nearest(s, from, dest) == from
      && (allowSlide ==> Slide(s, from, d) == from)
      && MoveBy(s, from, d, distance, speed, allowSlide).position == SideStep(s, from, d, distance, speed) != from
  {
  }

  /** Only a move along an axis side-steps. */
  lemma SideStepOnlyAlongAxis(s: Scene, from: Position, d: Vector, distance: int, speed: int)
    requires SideStep(s, from, d, distance, speed) != from
    ensures d.dx == 0 || d.dy == 0
  {
  }

  /** Sliding tries X first: when the move along X alone leads somewhere,
      that is where the solid slides; otherwise it is the move along Y. */
  lemma SlideTriesXFirst(s: Scene, from: Position, d: Vector)
    ensures var alongX := MoveBy(s, from, Vector(d.dx, 0), 0, 0, false).position;
      var alongY := MoveBy(s, from, Vector(0, d.dy), 0, 0, false).position;
      Slide(s, from, d) == (if alongX != from then alongX else alongY)
  {
  }

  /** A plain move (no slide, no side-step) from a free position ends at a
      free position. */
  lemma PlainMoveIsFree(s: Scene, from: Position, d: Vector)
    requires !s.collides(from)
    ensures !s.collides(MoveBy(s, from, d, 0, 0, false).position)
  {
    var dest := ClampSolid(s, Add(from, d));
    if from != dest && s.collides(dest) {
      NearestIsFree(s, from, dest);
    }
  }

  /** A solid that starts free is never moved into a tile: every branch of
      `moveBy` ends at a free position. */
  lemma MoveIsFree(s: Scene, from: Position, d: Vector, distance: int, speed: int, allowSlide: bool)
    requires !s.collides(from)
    ensures !s.collides(MoveBy(s, from, d, distance, speed, allowSlide).position)
  {
    var dest := ClampSolid(s, Add(from, d));
    if from != dest && s.collides(dest) {
      NearestIsFree(s, from, dest);
      PlainMoveIsFree(s, from, Vector(d.dx, 0));
      PlainMoveIsFree(s, from, Vector(0, d.dy));
      SideStepIsFree(s, from, d, distance, speed);
    }
  }

  /** A side-step that moves ends at a free position. */
  lemma SideStepIsFree(s: Scene, from: Position, d: Vector, distance: int, speed: int)
    requires !s.collides(from)
    ensures !s.collides(SideStep(s, from, d, distance, speed))
  {
    SideStepAlongIsFree(s, from, d, distance, speed, Vector(1, 0));
    SideStepAlongIsFree(s, from, d, distance, speed, Vector(0, 1));
  }

  /** Either direction of a side-step steps only to a free position. */
  lemma SideStepAlongIsFree(s: Scene, from: Position, d: Vector, distance: int, speed: int, axis: Vector)
    requires !s.collides(from)
    ensures !s.collides(SideStepAlong(s, from, d, distance, speed, axis))
  {
    var first := SideStepToward(s, from, d, distance, speed, axis, -1);
    var second := SideStepToward(s, from, d, distance, speed, axis, 1);
    assert first.StepsTo? ==> !s.collides(first.position);
    assert second.StepsTo? ==> !s.collides(second.position);
  }
}
