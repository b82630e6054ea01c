// The engine's characters (engine/libflatkiss-model/libflatkiss/model/
// character.cpp): the direction a character faces, the animation tick of its
// walk, the sprite it shows, and the loader of the characters file.
//
// The sprites a character uses are the action-to-sprite map of its
// ActionSpriteMapper and the animations of its AnimationPlayer; the
// navigator that decides where a move ends is not called here: the position
// it returns is a parameter of MoveBy.

module Character {
  import opened Arith
  import opened Bytes
  import opened StreamReader
  import opened Solid
  import Navigator
  import AnimationPlayer

  /** The four directions, in the order a std::set of them is sorted. */
  datatype CardinalDirection = West | South | East | North

  /** The walking actions a facing direction selects. */
  datatype Action = WalkLeft | WalkDown | WalkRight | WalkUp

  /** Position in the std::set order. */
  function Rank(d: CardinalDirection): nat
  {
    match d
    case West => 0
    case South => 1
    case East => 2
    case North => 3
  }

  /** The unit displacement of an action in screen coordinates, y growing
      downwards. */
  function Heading(a: Action): Navigator.Vector
  {
    match a
    case WalkLeft => Navigator.Vector(-1, 0)
    case WalkDown => Navigator.Vector(0, 1)
    case WalkRight => Navigator.Vector(1, 0)
    case WalkUp => Navigator.Vector(0, -1)
  }

  /** The directions of a displacement: West or East by the sign of dx,
      North or South by the sign of dy, none for a zero component. */
  function DirectionsOf(v: Navigator.Vector): (r: set<CardinalDirection>)
    ensures West in r <==> v.dx < 0
    ensures East in r <==> v.dx > 0
    ensures North in r <==> v.dy < 0
    ensures South in r <==> v.dy > 0
    ensures r == {} <==> v == Navigator.Vector(0, 0)
  {
    (if v.dx < 0 then {West} else if v.dx > 0 then {East} else {})
    + (if v.dy < 0 then {North} else if v.dy > 0 then {South} else {})
  }

  /** `currentAction`: the walk toward the direction faced. */
  function CurrentAction(facing: CardinalDirection): (a: Action)
    ensures DirectionsOf(Heading(a)) == {facing}
  {
    match facing
    case West => WalkLeft
    case South => WalkDown
    case East => WalkRight
    case North => WalkUp
  }

  /** `*set.begin()`: the least direction of a non-empty set. */
  function First(directions: set<CardinalDirection>): (d: CardinalDirection)
    requires directions != {}
    ensures d in directions
    ensures forall e :: e in directions ==> Rank(d) <= Rank(e)
  {
    SomeDirection(directions);
    if West in directions then West
    else if South in directions then South
    else if East in directions then East
    else North
  }

  lemma SomeDirection(directions: set<CardinalDirection>)
    requires directions != {}
    ensures West in directions || South in directions || East in directions || North in directions
  {
    var e :| e in directions;
    match e
    case West =>
    case South =>
    case East =>
    case North =>
  }

  /** The facing direction after `updateFacingDirectionForDisplacement`:
      kept while it is one of the displacement's directions or the
      displacement is zero; otherwise the first of those directions. */
  function Facing(facing: CardinalDirection, v: Navigator.Vector): (r: CardinalDirection)
    ensures v != Navigator.Vector(0, 0) ==> r in DirectionsOf(v)
    ensures r != facing <==> (DirectionsOf(v) != {} && facing !in DirectionsOf(v))
    ensures r != facing ==> forall e :: e in DirectionsOf(v) ==> Rank(r) <= Rank(e)
  {
    var directions := DirectionsOf(v);
    if directions != {} && facing !in directions then First(directions) else facing
  }

  /** Turning for the same displacement twice turns once. */
  lemma FacingIsIdempotent(facing: CardinalDirection, v: Navigator.Vector)
    ensures Facing(Facing(facing, v), v) == Facing(facing, v)
  {
  }

  /** Walking the way the current action goes never turns the character. */
  lemma WalkKeepsFacing(facing: CardinalDirection)
    ensures Facing(facing, Heading(CurrentAction(facing))) == facing
  {
    var v := Heading(CurrentAction(facing));
    assert facing in DirectionsOf(v);
  }

  // ---------------------------------------------------------------------
  // The sprite shown and the animation tick

  /** What a character draws with: the animations of its AnimationPlayer
      and the action-to-sprite map of its ActionSpriteMapper. */
  datatype Sprites = Sprites(animations: map<int, AnimationPlayer.Animation>, actionSprites: map<Action, int>)

  /** `ActionSpriteMapper::spriteIndexForAction`: the first sprite of the
      action; invalid_argument for an action without one. */
  function SpriteIndexForAction(actionSprites: map<Action, int>, action: Action): (r: Result<int>)
    ensures r.Ok? <==> action in actionSprites
    ensures r.Ok? ==> r.value == actionSprites[action]
    ensures r.Err? ==> r.error == InvalidArgument
  {
    if action in actionSprites then Ok(actionSprites[action]) else Err(InvalidArgument)
  }

  /** `spriteIndex`: the sprite of the current action, animated at the
      tick. */
  function SpriteIndex(sprites: Sprites, facing: CardinalDirection, tick: int): (r: Result<int>)
    ensures SpriteIndexForAction(sprites.actionSprites, CurrentAction(facing)).Err? ==> r == Err(InvalidArgument)
    ensures CurrentAction(facing) in sprites.actionSprites
            ==> r == AnimationPlayer.AnimatedSpriteIndexFor(sprites.animations, sprites.actionSprites[CurrentAction(facing)], tick)
  {
    var base := SpriteIndexForAction(sprites.actionSprites, CurrentAction(facing));
    if base.Err? then Err(base.error)
    else AnimationPlayer.AnimatedSpriteIndexFor(sprites.animations, base.value, tick)
  }

  /** `resetAnimationTick` as written: the duration of the sprite shown
      now, minus one. The sprite shown is a frame of the animation, and the
      animations are keyed by their first frame only. */
  function ResetTickAsWritten(sprites: Sprites, facing: CardinalDirection, tick: int): (r: Result<int>)
    ensures SpriteIndex(sprites, facing, tick).Err? <==> r.Err?
    ensures r.Ok? ==> -1 <= r.value < 255
  {
    var shown := SpriteIndex(sprites, facing, tick);
    if shown.Err? then Err(shown.error)
    else Ok(AnimationPlayer.AnimationDurationForSpriteIndex(sprites.animations, shown.value) - 1)
  }

  /** `resetAnimationTick` as its comment means it: the last tick before
      the next step of the current action's animation, the duration of the
      action's sprite minus one. */
  function ResetTick(sprites: Sprites, facing: CardinalDirection): (r: Result<int>)
    ensures r.Ok? <==> CurrentAction(facing) in sprites.actionSprites
    ensures r.Ok? ==> -1 <= r.value < 255
  {
    var base := SpriteIndexForAction(sprites.actionSprites, CurrentAction(facing));
    if base.Err? then Err(base.error)
    else Ok(AnimationPlayer.AnimationDurationForSpriteIndex(sprites.animations, base.value) - 1)
  }

  /** After the reset the character shows the first frame of its
      animation, and the very next tick shows the second: it starts
      animating at once. */
  lemma ResetThenAnimates(sprites: Sprites, facing: CardinalDirection)
    requires CurrentAction(facing) in sprites.actionSprites
    requires var base := sprites.actionSprites[CurrentAction(facing)];
      base in sprites.animations && AnimationPlayer.WellFormed(sprites.animations[base])
      && sprites.animations[base].period >= 2
    ensures var base := sprites.actionSprites[CurrentAction(facing)];
      var frames := sprites.animations[base].spriteIndices;
      ResetTick(sprites, facing).Ok?
      && SpriteIndex(sprites, facing, ResetTick(sprites, facing).value) == Ok(frames[0])
      && SpriteIndex(sprites, facing, ResetTick(sprites, facing).value + 1) == Ok(frames[1])
  {
    var base := sprites.actionSprites[CurrentAction(facing)];
    var a := sprites.animations[base];
    var p, d := a.period as int, a.duration as int;
    MulMonotonic(d, 2, p);
    AnimationPlayer.AnimatedSprite(sprites.animations, base, d - 1);
    AnimationPlayer.AnimatedSprite(sprites.animations, base, d);
    FloorDivUnique(d - 1, p * d, 0);
    FloorDivUnique(d, p * d, 0);
    FloorDivUnique(d - 1, d, 0);
    FloorDivUnique(d, d, 1);
  }

  /** For an action whose sprite is not animated the reset tick is -1 and
      the sprite shown never changes. */
  lemma ResetOfStillSprite(sprites: Sprites, facing: CardinalDirection, tick: int)
    requires CurrentAction(facing) in sprites.actionSprites
    requires sprites.actionSprites[CurrentAction(facing)] !in sprites.animations
    ensures ResetTick(sprites, facing) == Ok(-1)
    ensures ResetTickAsWritten(sprites, facing, tick) == Ok(-1)
    ensures SpriteIndex(sprites, facing, tick) == Ok(sprites.actionSprites[CurrentAction(facing)])
  {
  }

  /** While the first frame of the action's animation shows, the reset as
      written is the reset by the action's sprite. */
  lemma AsWrittenOnFirstFrame(sprites: Sprites, facing: CardinalDirection, tick: int)
    requires CurrentAction(facing) in sprites.actionSprites
    requires SpriteIndex(sprites, facing, tick) == Ok(sprites.actionSprites[CurrentAction(facing)])
    ensures ResetTickAsWritten(sprites, facing, tick) == ResetTick(sprites, facing)
  {
  }

  /** A character whose walk-down animation is sprites 7 then 8, one
      tick each. */
  function WalkDownTwoFrames(): Sprites
  {
    Sprites(map[7 := AnimationPlayer.Animation([7, 8], 2, 1)], map[WalkDown := 7])
  }

  /** The reset as written, facing South on tick 1 while sprite 8 shows:
      sprite 8 keys no animation, so the tick becomes -1, and at tick -1
      the truncated step is -1, outside the frames. */
  lemma AsWrittenResetLeavesFrames()
    ensures SpriteIndex(WalkDownTwoFrames(), South, 1) == Ok(8)
    ensures ResetTickAsWritten(WalkDownTwoFrames(), South, 1) == Ok(-1)
    ensures SpriteIndex(WalkDownTwoFrames(), South, -1) == Err(Undefined)
  {
    var animations := WalkDownTwoFrames().animations;
    assert AnimationPlayer.AnimatedSpriteIndexFor(animations, 7, 1) == Ok(8) by {
      assert TDiv(TRem(1, 2), 1) == 1;
    }
    AnimationPlayer.NegativeTickIsUndefined();
    assert AnimationPlayer.AnimationDurationForSpriteIndex(animations, 8) == 0;
  }

  /** The reset by the action's sprite, in the same state: tick 0, which
      shows sprite 7, and the next tick shows sprite 8. */
  lemma ResetByActionSprite()
    ensures ResetTick(WalkDownTwoFrames(), South) == Ok(0)
    ensures SpriteIndex(WalkDownTwoFrames(), South, 0) == Ok(7)
    ensures SpriteIndex(WalkDownTwoFrames(), South, 1) == Ok(8)
  {
    var animations := WalkDownTwoFrames().animations;
    assert AnimationPlayer.AnimationDurationForSpriteIndex(animations, 7) == 1;
    ResetThenAnimates(WalkDownTwoFrames(), South);
  }

  // ---------------------------------------------------------------------
  // The facing and the tick after a move

  /** The state the facing logic changes. */
  datatype Pose = Pose(facing: CardinalDirection, tick: int)

  /** `updateFacingDirectionForDisplacement`: the new facing is set first,
      then the tick is reset as `resetAnimationTick` is written, by the
      sprite the new facing shows at the old tick. That reset may raise
      (invalid_argument) or be undefined, leaving the tick as it was. */
  function TurnFor(sprites: Sprites, pose: Pose, v: Navigator.Vector): (r: (Pose, Outcome))
    ensures r.0.facing == Facing(pose.facing, v)
    ensures r.0.facing == pose.facing ==> r == (pose, Done)
    ensures r.0.facing != pose.facing ==>
      (r.1 == Done <==> SpriteIndex(sprites, r.0.facing, pose.tick).Ok?)
    ensures r.0.facing != pose.facing && r.1 == Done ==> ResetTickAsWritten(sprites, r.0.facing, pose.tick) == Ok(r.0.tick)
    ensures r.1.Raised? ==> r.0.tick == pose.tick && SpriteIndex(sprites, r.0.facing, pose.tick) == Err(r.1.error)
  {
    var facing := Facing(pose.facing, v);
    if facing == pose.facing then (pose, Done)
    else
      var tick := ResetTickAsWritten(sprites, facing, pose.tick);
      if tick.Err? then (Pose(facing, pose.tick), Raised(tick.error))
      else (Pose(facing, tick.value), Done)
  }

  /** `updateFacingDirection`: a character that moved ticks once and faces
      the way it went; one that did not move resets its tick, as written,
      and turns toward the way it tried to go. */
  function Turn(sprites: Sprites, pose: Pose, desired: Navigator.Vector, actual: Navigator.Vector): (r: (Pose, Outcome))
    ensures actual != Navigator.Vector(0, 0) ==> r.0.facing in DirectionsOf(actual)
    ensures actual == Navigator.Vector(0, 0) && desired != Navigator.Vector(0, 0) && r.1 == Done
            ==> r.0.facing in DirectionsOf(desired)
    ensures actual == Navigator.Vector(0, 0) && SpriteIndex(sprites, pose.facing, pose.tick).Err?
            ==> r == (pose, Raised(SpriteIndex(sprites, pose.facing, pose.tick).error))
    ensures actual == Navigator.Vector(0, 0) && r.1 == Done && r.0.facing == pose.facing
            ==> ResetTickAsWritten(sprites, pose.facing, pose.tick) == Ok(r.0.tick)
  {
    if actual != Navigator.Vector(0, 0) then
      TurnFor(sprites, Pose(pose.facing, pose.tick + 1), actual)
    else
      var tick := ResetTickAsWritten(sprites, pose.facing, pose.tick);
      if tick.Err? then (pose, Raised(tick.error))
      else TurnFor(sprites, Pose(pose.facing, tick.value), desired)
  }

  /** The blocked character of the finding on `resetAnimationTick`: facing
      South on tick 1 with sprite 8 shown, it stays South with tick -1,
      where the reset by the action's sprite would have given tick 0. */
  lemma AsWrittenBlockedTurn()
    ensures Turn(WalkDownTwoFrames(), Pose(South, 1), Navigator.Vector(0, 1), Navigator.Vector(0, 0))
            == (Pose(South, -1), Done)
    ensures ResetTick(WalkDownTwoFrames(), South) == Ok(0)
  {
    AsWrittenResetLeavesFrames();
    ResetByActionSprite();
    assert Facing(South, Navigator.Vector(0, 1)) == South by {
      assert DirectionsOf(Navigator.Vector(0, 1)) == {South};
    }
  }

  /** A character that keeps moving the way it faces keeps its facing and
      counts one tick per move. */
  lemma StraightWalkTicks(sprites: Sprites, pose: Pose, desired: Navigator.Vector)
    requires desired == Heading(CurrentAction(pose.facing))
    ensures Turn(sprites, pose, desired, desired) == (Pose(pose.facing, pose.tick + 1), Done)
  {
    WalkKeepsFacing(pose.facing);
  }

  // ---------------------------------------------------------------------
  // Character

  class Character {
    const sprites: Sprites
    var facing: CardinalDirection
    var tick: int
    var position: Position

    /** A new character faces South, on tick 0. */
    constructor (sprites: Sprites, initialPosition: Position)
      ensures this.sprites == sprites
      ensures facing == South && tick == 0 && position == initialPosition
    {
      this.sprites := sprites;
      facing := South;
      tick := 0;
      position := initialPosition;
    }

    /** `resetAnimationTick`: the duration of the sprite shown now, minus
        one. */
    method ResetAnimationTick() returns (outcome: Outcome)
      modifies this`tick
      ensures var t := ResetTickAsWritten(sprites, facing, old(tick));
        if t.Ok? then outcome == Done && tick == t.value
        else outcome == Raised(t.error) && tick == old(tick)
    {
      var shown := SpriteIndex(sprites, facing, tick);
      if shown.Err? {
        return Raised(shown.error);
      }
      tick := AnimationPlayer.AnimationDurationForSpriteIndex(sprites.animations, shown.value) - 1;
      outcome := Done;
    }

    /** `updateFacingDirectionForDisplacement`. */
    method UpdateFacingDirectionForDisplacement(v: Navigator.Vector) returns (outcome: Outcome)
      modifies this`facing, this`tick
      ensures (Pose(facing, tick), outcome) == TurnFor(sprites, old(Pose(facing, tick)), v)
    {
      var directions: set<CardinalDirection> := {};
      if v.dx < 0 {
        directions := directions + {West};
      } else if v.dx > 0 {
        directions := directions + {East};
      }
      if v.dy < 0 {
        directions := directions + {North};
      } else if v.dy > 0 {
        directions := directions + {South};
      }
      assert directions == DirectionsOf(v);
      outcome := Done;
      if directions != {} && facing !in directions {
        facing := First(directions);
        outcome := ResetAnimationTick();
      }
    }

    /** `updateFacingDirection`. */
    method UpdateFacingDirection(desired: Navigator.Vector, actual: Navigator.Vector) returns (outcome: Outcome)
      modifies this`facing, this`tick
      ensures (Pose(facing, tick), outcome) == Turn(sprites, old(Pose(facing, tick)), desired, actual)
    {
      if actual != Navigator.Vector(0, 0) {
        tick := tick + 1;
        outcome := UpdateFacingDirectionForDisplacement(actual);
      } else {
        outcome := ResetAnimationTick();
        if outcome.Raised? {
          return;
        }
        outcome := UpdateFacingDirectionForDisplacement(desired);
      }
    }

    /** `moveBy`: the navigator's answer for the desired displacement is
      `final`; the facing logic sees the displacement actually made, and
      the character stands at `final` unless that logic raised. */
    method MoveBy(desired: Navigator.Vector, final: Position) returns (outcome: Outcome)
      modifies this`facing, this`tick, this`position
      ensures var actual := Navigator.Vector(final.x - old(position).x, final.y - old(position).y);
        (Pose(facing, tick), outcome) == Turn(sprites, old(Pose(facing, tick)), desired, actual)
      ensures position == if outcome == Done then final else old(position)
    {
      outcome := UpdateFacingDirection(desired, Navigator.Vector(final.x - position.x, final.y - position.y));
      if outcome == Done {
        position := final;
      }
    }
  }

  // ---------------------------------------------------------------------
  // CharacterLoader

  /** One record of the characters file: the position in tiles on eight
      bytes each (int64_t), four two-byte indices and the controller type on
      one byte; 25 bytes in all. */
  datatype CharacterRecord = CharacterRecord(x: int, y: int, spriteset: int, actionSpriteMapper: int,
                                             animations: int, solid: int, controllerType: int)

  const RecordSize: nat := 25

  /** The reads of one record: each field takes what is left of the stream,
      a short read leaving the rest of the field at 0. */
  function ReadRecord(bs: seq<byte>): (r: (CharacterRecord, seq<byte>))
    ensures |bs| >= RecordSize ==> r.1 == bs[RecordSize..]
    ensures |bs| < RecordSize ==> r.1 == []
  {
    var b1 := Rest(bs, 8);
    var b2 := Rest(b1, 8);
    var b3 := Rest(b2, 2);
    var b4 := Rest(b3, 2);
    var b5 := Rest(b4, 2);
    var b6 := Rest(b5, 2);
    (CharacterRecord(ReadValue(bs, 8), ReadValue(b1, 8), U16(b2), U16(b3), U16(b4), U16(b5), U8(b6)),
     Rest(b6, 1))
  }

  /** The records of the file, read until its end. */
  function RecordsRead(bs: seq<byte>): seq<CharacterRecord>
    decreases |bs|
  {
    if bs == [] then [] else
      var (record, rest) := ReadRecord(bs);
      [record] + RecordsRead(rest)
  }

  /** One record per 25 bytes, the last one possibly short. */
  lemma {:induction false} RecordsReadCount(bs: seq<byte>)
    ensures |RecordsRead(bs)| == (|bs| + RecordSize - 1) / RecordSize
    decreases |bs|
  {
    if bs != [] {
      RecordsReadCount(ReadRecord(bs).1);
    }
  }

  /** A record whose fields fit their widths. */
  predicate Storable(r: CharacterRecord)
  {
    -(TwoTo63 as int) <= r.x < TwoTo63 && -(TwoTo63 as int) <= r.y < TwoTo63
    && 0 <= r.spriteset < 0x1_0000 && 0 <= r.actionSpriteMapper < 0x1_0000
    && 0 <= r.animations < 0x1_0000 && 0 <= r.solid < 0x1_0000 && 0 <= r.controllerType < 0x100
  }

  predicate AllStorable(rs: seq<CharacterRecord>)
  {
    forall i :: 0 <= i < |rs| ==> Storable(rs[i])
  }

  /** The two's-complement bit pattern of an int64_t. */
  function Unsigned64(v: int): nat
    requires -(TwoTo63 as int) <= v < TwoTo63
  {
    if v < 0 then v + TwoTo64 else v
  }

  /** The 25 bytes the loader expects for a record, ahead of `rest`. */
  function RecordBytes(r: CharacterRecord, rest: seq<byte>): (bs: seq<byte>)
    requires Storable(r)
    ensures |bs| == RecordSize + |rest|
  {
    LittleEndianBytes(Unsigned64(r.x), 8)
    + (LittleEndianBytes(Unsigned64(r.y), 8)
    + (LittleEndianBytes(r.spriteset, 2)
    + (LittleEndianBytes(r.actionSpriteMapper, 2)
    + (LittleEndianBytes(r.animations, 2)
    + (LittleEndianBytes(r.solid, 2)
    + (LittleEndianBytes(r.controllerType, 1) + rest))))))
  }

  /** A file of storable records. */
  function RecordsBytes(rs: seq<CharacterRecord>): (bs: seq<byte>)
    requires AllStorable(rs)
    ensures |bs| == RecordSize * |rs|
  {
    if rs == [] then [] else RecordBytes(rs[0], RecordsBytes(rs[1..]))
  }

  /** An eight-byte field reads back as the int64_t written. */
  lemma ReadInt64(v: int, rest: seq<byte>)
    requires -(TwoTo63 as int) <= v < TwoTo63
    ensures ReadValue(LittleEndianBytes(Unsigned64(v), 8) + rest, 8) == v
    ensures Rest(LittleEndianBytes(Unsigned64(v), 8) + rest, 8) == rest
  {
    Pow256Of7And8();
    ReadWritten(Unsigned64(v), 8, rest);
  }

  /** A two-byte field reads back. */
  lemma ReadU16(v: int, rest: seq<byte>)
    requires 0 <= v < 0x1_0000
    ensures U16(LittleEndianBytes(v, 2) + rest) == v
    ensures Rest(LittleEndianBytes(v, 2) + rest, 2) == rest
  {
    assert Pow256(2) == 0x1_0000;
    ReadWritten(v, 2, rest);
    U16IsRead(LittleEndianBytes(v, 2) + rest);
  }

  /** A one-byte field reads back. */
  lemma ReadU8(v: int, rest: seq<byte>)
    requires 0 <= v < 0x100
    ensures U8(LittleEndianBytes(v, 1) + rest) == v
    ensures Rest(LittleEndianBytes(v, 1) + rest, 1) == rest
  {
    assert Pow256(1) == 0x100;
    ReadWritten(v, 1, rest);
    U8IsRead(LittleEndianBytes(v, 1) + rest);
    ReadValueBounds(LittleEndianBytes(v, 1) + rest, 1);
  }

  /** A record written in the loader's layout reads back, and the stream
      stands after its 25 bytes. */
  lemma ReadRecordBytes(r: CharacterRecord, rest: seq<byte>)
    requires Storable(r)
    ensures ReadRecord(RecordBytes(r, rest)) == (r, rest)
  {
    var t7 := LittleEndianBytes(r.controllerType, 1) + rest;
    var t6 := LittleEndianBytes(r.solid, 2) + t7;
    var t5 := LittleEndianBytes(r.animations, 2) + t6;
    var t4 := LittleEndianBytes(r.actionSpriteMapper, 2) + t5;
    var t3 := LittleEndianBytes(r.spriteset, 2) + t4;
    var t2 := LittleEndianBytes(Unsigned64(r.y), 8) + t3;
    var t1 := LittleEndianBytes(Unsigned64(r.x), 8) + t2;
    ReadInt64(r.x, t2);
    ReadInt64(r.y, t3);
    ReadU16(r.spriteset, t4);
    ReadU16(r.actionSpriteMapper, t5);
    ReadU16(r.animations, t6);
    ReadU16(r.solid, t7);
    ReadU8(r.controllerType, rest);
  }

  /** A file of records in the loader's layout reads back record for
      record. */
  lemma {:induction false} RecordsRoundTrip(rs: seq<CharacterRecord>)
    requires AllStorable(rs)
    ensures RecordsRead(RecordsBytes(rs)) == rs
  {
    if rs != [] {
      assert Storable(rs[0]) && AllStorable(rs[1..]);
      var tail := RecordsBytes(rs[1..]);
      RecordsReadCons(rs[0], tail);
      RecordsRoundTrip(rs[1..]);
      assert rs == [rs[0]] + rs[1..];
    }
  }

  lemma RecordsReadCons(r: CharacterRecord, rest: seq<byte>)
    requires Storable(r)
    ensures RecordsRead(RecordBytes(r, rest)) == [r] + RecordsRead(rest)
  {
    ReadRecordBytes(r, rest);
  }

  /** A character as the loader builds it: the spriteset, mapper, animation
      player and solid it refers to, and its position in pixels. */
  datatype Placement = Placement(spriteset: int, actionSpriteMapper: int, animations: int, solid: int,
                                 position: Position)

  /** What the indices of the file refer to: the number of spritesets and
      the keys of the mappers, animation players and solids. */
  datatype Assets = Assets(spritesets: nat, actionSpriteMappers: set<int>, animationPlayers: set<int>,
                           solids: set<int>, tilesWidth: int, tilesHeight: int)

  /** The character of one record: a spriteset index past the vector is
      undefined behaviour; a missing key makes `at` throw out_of_range. */
  function Place(assets: Assets, r: CharacterRecord): (p: Result<Placement>)
    ensures p.Ok? <==> (r.spriteset < assets.spritesets && r.actionSpriteMapper in assets.actionSpriteMappers
                        && r.animations in assets.animationPlayers && r.solid in assets.solids)
    ensures p.Ok? ==> p.value.position == Position(r.x * assets.tilesWidth, r.y * assets.tilesHeight)
                      && p.value.spriteset == r.spriteset && p.value.solid == r.solid
                      && p.value.actionSpriteMapper == r.actionSpriteMapper && p.value.animations == r.animations
    ensures r.spriteset >= assets.spritesets ==> p == Err(Undefined)
  {
    if r.spriteset >= assets.spritesets then Err(Undefined)
    else if r.actionSpriteMapper !in assets.actionSpriteMappers || r.animations !in assets.animationPlayers
            || r.solid !in assets.solids then Err(OutOfRange)
    else Ok(Placement(r.spriteset, r.actionSpriteMapper, r.animations, r.solid,
                      Position(r.x * assets.tilesWidth, r.y * assets.tilesHeight)))
  }

  /** The characters and controller types of the records, in file order;
      the first record that cannot be placed raises. */
  function PlaceAll(assets: Assets, rs: seq<CharacterRecord>): (r: Result<(seq<int>, seq<Placement>)>)
    ensures r.Ok? ==> |r.value.0| == |rs| && |r.value.1| == |rs|
    ensures r.Ok? ==> forall i :: 0 <= i < |rs| ==> r.value.0[i] == rs[i].controllerType
    ensures r.Ok? <==> forall i :: 0 <= i < |rs| ==> Place(assets, rs[i]).Ok?
    ensures r.Ok? ==> forall i :: 0 <= i < |rs| ==> Place(assets, rs[i]) == Ok(r.value.1[i])
  {
    if rs == [] then Ok(([], []))
    else
      var first := Place(assets, rs[0]);
      if first.Err? then Err(first.error)
      else
        var later := PlaceAll(assets, rs[1..]);
        if later.Err? then later
        else Ok(([rs[0].controllerType] + later.value.0, [first.value] + later.value.1))
  }

  /** `CharacterLoader::load` on the bytes of the file. */
  function CharactersRead(assets: Assets, bs: seq<byte>): Result<(seq<int>, seq<Placement>)>
  {
    PlaceAll(assets, RecordsRead(bs))
  }

  /** Characters written in the loader's layout load in the same order,
      each with its own controller type, its indices and its position in
      pixels. */
  lemma LoadAfterWrite(assets: Assets, rs: seq<CharacterRecord>)
    requires AllStorable(rs)
    requires forall i :: 0 <= i < |rs| ==> Place(assets, rs[i]).Ok?
    ensures CharactersRead(assets, RecordsBytes(rs)).Ok?
    ensures var (controllers, characters) := CharactersRead(assets, RecordsBytes(rs)).value;
      |characters| == |rs|
      && (forall i :: 0 <= i < |rs| ==> controllers[i] == rs[i].controllerType)
      && (forall i :: 0 <= i < |rs| ==>
            characters[i].position == Position(rs[i].x * assets.tilesWidth, rs[i].y * assets.tilesHeight)
            && characters[i].spriteset == rs[i].spriteset && characters[i].actionSpriteMapper == rs[i].actionSpriteMapper
            && characters[i].animations == rs[i].animations && characters[i].solid == rs[i].solid)
  {
    RecordsRoundTrip(rs);
  }

  /** `CharacterLoader::load`: records until the end of the file. */
  method Load(assets: Assets, data: seq<byte>) returns (r: Result<(seq<int>, seq<Placement>)>)
    ensures r == CharactersRead(assets, data)
  {
    var controllers: seq<int> := [];
    var characters: seq<Placement> := [];
    var rest := data;
    ghost var records := RecordsRead(data);
    ghost var done: seq<CharacterRecord> := [];
    while rest != []
      invariant records == done + RecordsRead(rest)
      invariant PlaceAll(assets, done) == Ok((controllers, characters))
      decreases |rest|
    {
      var (record, after) := ReadRecord(rest);
      RecordsReadStep(rest);
      AppendAssoc(done, [record], RecordsRead(after));
      var placed := Place(assets, record);
      PlaceAllSnoc(assets, done, record);
      if placed.Err? {
        PlaceAllFails(assets, done + [record], RecordsRead(after));
        return Err(placed.error);
      }
      controllers := controllers + [record.controllerType];
      characters := characters + [placed.value];
      done := done + [record];
      rest := after;
    }
    assert records == done;
    r := Ok((controllers, characters));
  }

  /** One record read off the front of a stream that is not empty. */
  lemma RecordsReadStep(bs: seq<byte>)
    requires bs != []
    ensures RecordsRead(bs) == [ReadRecord(bs).0] + RecordsRead(ReadRecord(bs).1)
  {
  }

  /** Placing one more record extends the lists, or raises its error. */
  lemma {:induction false} PlaceAllSnoc(assets: Assets, done: seq<CharacterRecord>, record: CharacterRecord)
    requires PlaceAll(assets, done).Ok?
    ensures var before := PlaceAll(assets, done).value;
      var placed := Place(assets, record);
      PlaceAll(assets, done + [record])
      == if placed.Err? then Err(placed.error)
         else Ok((before.0 + [record.controllerType], before.1 + [placed.value]))
    decreases |done|
  {
    if done == [] {
      assert done + [record] == [record] && [record][1..] == [];
      assert [record.controllerType] + [] == [] + [record.controllerType];
      if Place(assets, record).Ok? {
        var p := Place(assets, record).value;
        assert [p] + [] == [] + [p];
      }
    } else {
      assert (done + [record])[0] == done[0];
      assert (done + [record])[1..] == done[1..] + [record];
      PlaceAllSnoc(assets, done[1..], record);
      var before, later := PlaceAll(assets, done).value, PlaceAll(assets, done[1..]).value;
      var c0 := done[0].controllerType;
      assert before.0 == [c0] + later.0;
      assert ([c0] + later.0) + [record.controllerType] == [c0] + (later.0 + [record.controllerType]);
      assert before.1 == [Place(assets, done[0]).value] + later.1;
      if Place(assets, record).Ok? {
        var p0, p := Place(assets, done[0]).value, Place(assets, record).value;
        assert ([p0] + later.1) + [p] == [p0] + (later.1 + [p]);
      }
    }
  }

  /** An error in a prefix is the error of the whole. */
  lemma {:induction false} PlaceAllFails(assets: Assets, done: seq<CharacterRecord>, later: seq<CharacterRecord>)
    requires PlaceAll(assets, done).Err?
    ensures PlaceAll(assets, done + later) == PlaceAll(assets, done)
    decreases |done|
  {
    assert (done + later)[0] == done[0];
    if Place(assets, done[0]).Ok? {
      assert (done + later)[1..] == done[1..] + later;
      PlaceAllFails(assets, done[1..], later);
    }
  }
}
