// The engine's animated sprites (src/animation_player.cpp): the animations of
// a group keyed by their first sprite, the sprite shown at a tick, and the
// loader of the animations file, groups of records read until the end of the
// file.

module AnimationPlayer {
  import opened Arith
  import opened Bytes
  import opened StreamReader
  import opened UnorderedMap

  /** `Animation`: the sprites shown in turn, the period stored with them
      and the number of ticks each sprite stays. */
  datatype Animation = Animation(spriteIndices: seq<int>, period: byte, duration: byte)

  // ---------------------------------------------------------------------
  // AnimationPlayer

  /** `animatedSpriteIndexFor`: the sprite shown at `tick`, or the sprite
      itself when it is not animated. C++ `%` and `/` truncate; a zero
      period x duration, or a step outside the sprite vector, is undefined
      behaviour. */
  function AnimatedSpriteIndexFor(animations: map<int, Animation>, spriteIndex: int, tick: int): (r: Result<int>)
    ensures spriteIndex !in animations ==> r == Ok(spriteIndex)
  {
    if spriteIndex !in animations then Ok(spriteIndex)
    else
      var animation := animations[spriteIndex];
      var cycle := animation.period * animation.duration;
      if cycle == 0 then Err(Undefined)
      else
        var step := TDiv(TRem(tick, cycle), animation.duration);
        if 0 <= step < |animation.spriteIndices| then Ok(animation.spriteIndices[step]) else Err(Undefined)
  }

  /** An animation whose vector holds its period of sprites. */
  predicate WellFormed(animation: Animation)
  {
    |animation.spriteIndices| == animation.period > 0 && animation.duration > 0
  }

  /** For a tick that is not negative, an animated sprite shows sprite
      (tick mod period*duration) div duration of its animation, always one
      of its sprites. */
  lemma AnimatedSprite(animations: map<int, Animation>, spriteIndex: int, tick: int)
    requires spriteIndex in animations && WellFormed(animations[spriteIndex]) && tick >= 0
    ensures var a := animations[spriteIndex];
      var step := (tick % (a.period * a.duration)) / a.duration;
      0 <= step < a.period && AnimatedSpriteIndexFor(animations, spriteIndex, tick) == Ok(a.spriteIndices[step])
  {
    var a := animations[spriteIndex];
    var p, d := a.period as int, a.duration as int;
    var cycle := p * d;
    MulMonotonic(d, 1, p);
    TDivNonNegative(tick, cycle);
    var m := tick % cycle;
    TDivNonNegative(m, d);
    StepInPeriod(m, p, d);
  }

  /** The sprite shown repeats every period * duration ticks. */
  lemma AnimationIsPeriodic(animations: map<int, Animation>, spriteIndex: int, tick: int)
    requires spriteIndex in animations && WellFormed(animations[spriteIndex]) && tick >= 0
    ensures var a := animations[spriteIndex];
      AnimatedSpriteIndexFor(animations, spriteIndex, tick + a.period * a.duration)
      == AnimatedSpriteIndexFor(animations, spriteIndex, tick)
  {
    var a := animations[spriteIndex];
    var cycle := a.period * a.duration;
    AnimatedSprite(animations, spriteIndex, tick);
    AnimatedSprite(animations, spriteIndex, tick + cycle);
    MulMonotonic(a.duration, 1, a.period);
    ModShift(tick, cycle);
  }

  lemma ModShift(a: int, b: int)
    requires a >= 0 && b > 0
    ensures (a + b) % b == a % b
  {
    FloorDivUnique(a + b, b, a / b + 1);
  }

  /** A negative tick can land before the first sprite: the truncated
      remainder is negative. */
  lemma NegativeTickIsUndefined()
    ensures AnimatedSpriteIndexFor(map[7 := Animation([7, 8], 2, 1)], 7, -1) == Err(Undefined)
  {
    assert TDiv(TRem(-1, 2), 1) == -1;
  }

  /** `animationDurationForSpriteIndex`: the duration of the sprite's
      animation, 0 for a sprite that is not animated. */
  function AnimationDurationForSpriteIndex(animations: map<int, Animation>, spriteIndex: int): (r: int)
    ensures 0 <= r < 256
  {
    if spriteIndex in animations then animations[spriteIndex].duration else 0
  }

  /** A sprite reported with duration 0 is either not animated, and shown
      as is, or animated with a zero cycle, which is undefined. */
  lemma ZeroDurationIsNotAnimated(animations: map<int, Animation>, spriteIndex: int, tick: int)
    requires AnimationDurationForSpriteIndex(animations, spriteIndex) == 0
    ensures AnimatedSpriteIndexFor(animations, spriteIndex, tick) == Ok(spriteIndex)
            || AnimatedSpriteIndexFor(animations, spriteIndex, tick) == Err(Undefined)
    ensures spriteIndex in animations ==> AnimatedSpriteIndexFor(animations, spriteIndex, tick) == Err(Undefined)
  {
  }

  // ---------------------------------------------------------------------
  // AnimationPlayerLoader

  /** `stream.get()` cast to uint8_t: the next byte, or 255 (EOF, -1, cast)
      at the end of the stream. */
  function Get(bs: seq<byte>, i: nat): byte
  {
    if i < |bs| then bs[i] else 255
  }

  /** One record of `loadGroup`: period and duration with `get`, then
      `period` u16 sprites read into a zeroed vector. `animation[0]` on an
      empty vector is undefined. */
  function ReadRecord(bs: seq<byte>): (r: Result<(Animation, seq<byte>)>)
    ensures r.Ok? ==> |r.value.1| <= |bs| && WellFormedRecord(r.value.0)
  {
    var period, duration, body := Get(bs, 0), Get(bs, 1), Rest(bs, 2);
    if period == 0 then Err(Undefined)
    else
      Ok((Animation(ReadU16s(body, period), period, duration), Rest(body, 2 * period)))
  }

  /** The vector of a record holds its period of sprites. */
  predicate WellFormedRecord(animation: Animation)
  {
    |animation.spriteIndices| == animation.period > 0
  }

  predicate WellFormedRecords(records: seq<Animation>)
  {
    forall k :: 0 <= k < |records| ==> WellFormedRecord(records[k])
  }

  /** `loadGroup`: `count` records, each stored under its first sprite
      unless that sprite already has an animation. */
  function GroupRead(bs: seq<byte>, count: nat, acc: map<int, Animation>): (r: Result<(map<int, Animation>, seq<byte>)>)
    ensures r.Ok? ==> |r.value.1| <= |bs|
    decreases count
  {
    if count == 0 then Ok((acc, bs))
    else
      var record := ReadRecord(bs);
      if record.Err? then Err(record.error)
      else
        var animation := record.value.0;
        GroupRead(record.value.1, count - 1, Emplace(acc, animation.spriteIndices[0], animation))
  }

  /** The records of a group of `count`, in the order they are read. */
  function GroupRecords(bs: seq<byte>, count: nat): (r: Result<(seq<Animation>, seq<byte>)>)
    ensures r.Ok? ==> |r.value.0| == count && WellFormedRecords(r.value.0)
    decreases count
  {
    if count == 0 then Ok(([], bs))
    else
      var record := ReadRecord(bs);
      if record.Err? then Err(record.error)
      else
        var more := GroupRecords(record.value.1, count - 1);
        if more.Err? then Err(more.error) else Ok(([record.value.0] + more.value.0, more.value.1))
  }

  /** A group whose first record reads goes on after it. */
  lemma GroupRecordsStep(bs: seq<byte>, count: nat, first: Animation, after: seq<byte>,
                         others: seq<Animation>, rest: seq<byte>)
    requires count > 0 && ReadRecord(bs) == Ok((first, after))
    requires GroupRecords(after, count - 1) == Ok((others, rest))
    ensures GroupRecords(bs, count) == Ok(([first] + others, rest))
  {
  }

  /** Records emplaced one after the other under their first sprite. */
  function EmplaceAll(acc: map<int, Animation>, records: seq<Animation>): map<int, Animation>
    requires WellFormedRecords(records)
    decreases |records|
  {
    if records == [] then acc
    else
      var first := records[0];
      assert WellFormedRecord(first);
      EmplaceAll(Emplace(acc, first.spriteIndices[0], first), records[1..])
  }

  /** A group read is its records emplaced in order. */
  lemma {:induction false} GroupReadEmplacesRecords(bs: seq<byte>, count: nat, acc: map<int, Animation>)
    ensures var g, records := GroupRead(bs, count, acc), GroupRecords(bs, count);
      (g.Ok? <==> records.Ok?)
      && (g.Err? ==> g.error == records.error)
      && (g.Ok? ==> g.value == (EmplaceAll(acc, records.value.0), records.value.1))
    decreases count
  {
    if count > 0 {
      var record := ReadRecord(bs);
      if record.Err? {
        GroupReadFails(bs, count, acc);
      } else {
        var animation, after := record.value.0, record.value.1;
        GroupReadNext(GroupRead(bs, count, acc), bs, count, acc, animation, after);
        var next := Emplace(acc, animation.spriteIndices[0], animation);
        GroupReadEmplacesRecords(after, count - 1, next);
        var more := GroupRecords(after, count - 1);
        if more.Ok? {
          assert ([animation] + more.value.0)[1..] == more.value.0;
        }
      }
    }
  }

  /** A key is bound after emplacing the records when it was bound before
      or some record starts with it; a key bound before keeps its value. */
  lemma {:induction false} EmplacedKeys(acc: map<int, Animation>, records: seq<Animation>, key: int)
    requires WellFormedRecords(records)
    ensures key in EmplaceAll(acc, records)
            <==> key in acc || exists k :: 0 <= k < |records| && records[k].spriteIndices[0] == key
    ensures key in acc ==> EmplaceAll(acc, records)[key] == acc[key]
    decreases |records|
  {
    if records != [] {
      var head, tail := records[0], records[1..];
      EmplacedKeys(Emplace(acc, head.spriteIndices[0], head), tail, key);
      if exists k :: 0 <= k < |records| && records[k].spriteIndices[0] == key {
        var k :| 0 <= k < |records| && records[k].spriteIndices[0] == key;
        if k > 0 {
          assert tail[k - 1] == records[k];
        }
      }
      if exists k :: 0 <= k < |tail| && tail[k].spriteIndices[0] == key {
        var k :| 0 <= k < |tail| && tail[k].spriteIndices[0] == key;
        assert records[k + 1] == tail[k];
      }
    }
  }

  /** Emplacing keeps the first record of each first sprite: a key new to
      `acc` holds the earliest record that starts with it. */
  lemma {:induction false} FirstRecordWins(acc: map<int, Animation>, records: seq<Animation>, key: int, k: nat)
    requires WellFormedRecords(records)
    requires k < |records| && records[k].spriteIndices[0] == key && key !in acc
    requires forall m :: 0 <= m < k ==> records[m].spriteIndices[0] != key
    ensures key in EmplaceAll(acc, records) && EmplaceAll(acc, records)[key] == records[k]
    decreases |records|
  {
    var head, tail := records[0], records[1..];
    var next := Emplace(acc, head.spriteIndices[0], head);
    if k == 0 {
      EmplacedKeys(next, tail, key);
    } else {
      assert tail[k - 1] == records[k];
      forall m | 0 <= m < k - 1
        ensures tail[m].spriteIndices[0] != key
      {
        assert tail[m] == records[m + 1];
      }
      FirstRecordWins(next, tail, key, k - 1);
    }
  }

  /** `AnimationPlayerLoader::load`: while a byte remains, a u16 group index
      and a u16 group size, then the group; a group index already loaded
      keeps its first group. */
  function PlayersRead(bs: seq<byte>, acc: map<int, map<int, Animation>>): Result<map<int, map<int, Animation>>>
    decreases |bs|
  {
    if bs == [] then Ok(acc)
    else
      var index, afterIndex := ReadUnsigned(bs, 2), Rest(bs, 2);
      var size, afterSize := ReadUnsigned(afterIndex, 2), Rest(afterIndex, 2);
      var group := GroupRead(afterSize, size, map[]);
      if group.Err? then Err(group.error)
      else PlayersRead(group.value.1, Emplace(acc, index, group.value.0))
  }

  /** `AnimationPlayerLoader::loadGroup` on the unread part of the file. */
  method LoadGroup(stream: seq<byte>, groupSize: nat) returns (r: Result<map<int, Animation>>, rest: seq<byte>)
    ensures var g := GroupRead(stream, groupSize, map[]);
      (g.Err? ==> r == Err(g.error)) && (g.Ok? ==> r == Ok(g.value.0) && rest == g.value.1)
  {
    ghost var group := GroupRead(stream, groupSize, map[]);
    var animations: map<int, Animation> := map[];
    rest := stream;
    var left := groupSize;
    while left > 0
      invariant group == GroupRead(rest, left, animations)
    {
      var loaded;
      loaded, rest, animations := LoadNext(group, rest, left, animations);
      if loaded.Err? {
        return loaded, rest;
      }
      left := left - 1;
    }
    r := Ok(animations);
  }

  /** One pass of the loop of `loadGroup`: a record is read and emplaced
      under its first sprite. */
  method LoadNext(ghost group: Result<(map<int, Animation>, seq<byte>)>, stream: seq<byte>, left: nat,
                  animations: map<int, Animation>)
    returns (r: Result<map<int, Animation>>, rest: seq<byte>, next: map<int, Animation>)
    requires left > 0 && group == GroupRead(stream, left, animations)
    ensures r.Err? ==> group == Err(r.error)
    ensures r.Ok? ==> r.value == next && group == GroupRead(rest, left - 1, next)
  {
    var animation, after := LoadRecord(stream);
    if animation.Err? {
      GroupReadFails(stream, left, animations);
      return Err(animation.error), after, animations;
    }
    GroupReadNext(group, stream, left, animations, animation.value, after);
    next := Emplace(animations, animation.value.spriteIndices[0], animation.value);
    r, rest := Ok(next), after;
  }

  /** A group fails where its next record fails. */
  lemma GroupReadFails(bs: seq<byte>, count: nat, acc: map<int, Animation>)
    requires count > 0 && ReadRecord(bs).Err?
    ensures GroupRead(bs, count, acc) == Err(ReadRecord(bs).error)
  {
  }

  /** After a record is read, the group goes on with it emplaced. */
  lemma GroupReadNext(group: Result<(map<int, Animation>, seq<byte>)>, bs: seq<byte>, count: nat,
                      acc: map<int, Animation>, animation: Animation, after: seq<byte>)
    requires count > 0 && ReadRecord(bs) == Ok((animation, after)) && group == GroupRead(bs, count, acc)
    ensures |animation.spriteIndices| > 0
    ensures group == GroupRead(after, count - 1, Emplace(acc, animation.spriteIndices[0], animation))
  {
  }

  /** The body of the loop of `loadGroup`: two `get`s, then the sprites
      read into a vector of `period` zeros. */
  method LoadRecord(stream: seq<byte>) returns (r: Result<Animation>, rest: seq<byte>)
    ensures r.Err? ==> ReadRecord(stream) == Err(r.error)
    ensures r.Ok? ==> ReadRecord(stream) == Ok((r.value, rest))
  {
    rest := stream;
    var period: nat, duration: nat := 255, 255;
    if rest != [] {
      period, rest := rest[0], rest[1..];
    }
    if rest != [] {
      duration, rest := rest[0], rest[1..];
    }
    var frames := ReadU16s(rest, period);
    rest := Rest(rest, 2 * period);
    if period == 0 {
      return Err(Undefined), rest;
    }
    r := Ok(Animation(frames, period, duration));
  }

  /** `AnimationPlayerLoader::load` on the bytes of the file. */
  method Load(data: seq<byte>) returns (r: Result<map<int, map<int, Animation>>>)
    ensures r == PlayersRead(data, map[])
  {
    var players: map<int, map<int, Animation>> := map[];
    var rest := data;
    while rest != []
      invariant PlayersRead(data, map[]) == PlayersRead(rest, players)
      decreases |rest|
    {
      var groupIndex := ReadUnsigned(rest, 2);
      rest := Rest(rest, 2);
      var groupSize := ReadUnsigned(rest, 2);
      rest := Rest(rest, 2);
      var group, after := LoadGroup(rest, groupSize);
      if group.Err? {
        return Err(group.error);
      }
      players := Emplace(players, groupIndex, group.value);
      rest := after;
    }
    r := Ok(players);
  }
}
