// The single-level editor levels/editor.py: a level file holding only tiles,
// a headerless animations file, and the animation player that picks the
// frame to draw. The tileset, the tile-index conversion and the animation
// record are those of editor.py (module Editor).

module LevelsEditor {
  import opened Arith
  import opened Bytes
  import opened Grid
  import opened Editor

  // ---------------------------------------------------------------------
  // _AnimationLoader: records read until the end of the file

  /** The records of an animations file in file order: u8 period, u8
      duration and period u16 frames each, with no group header. Reading
      stops where a record would start at the end of the file. */
  function AnimationRecords(bs: seq<byte>, ts: Tileset): (r: Result<seq<EditorAnimation>>)
    ensures r.Ok? ==> forall k :: 0 <= k < |r.value| ==> r.value[k].frames != []
    decreases |bs|
  {
    if bs == [] then Ok([])
    else
      var record := ReadEditorAnimation(bs, ts);
      if record.Err? then Err(record.error)
      else
        var more := AnimationRecords(record.value.1, ts);
        if more.Err? then more else Ok([record.value.0] + more.value)
  }

  /** The dictionary the records fill: each record is stored under its first
      frame, so a later record replaces an earlier one with the same first
      frame. */
  function Keyed(records: seq<EditorAnimation>): map<int, EditorAnimation>
    requires forall k :: 0 <= k < |records| ==> records[k].frames != []
  {
    if records == [] then map[]
    else
      var last := records[|records| - 1];
      Keyed(records[..|records| - 1])[last.frames[0] := last]
  }

  /** `_AnimationLoader.load_from_file` as a value. */
  function LoadedAnimations(bs: seq<byte>, ts: Tileset): Result<map<int, EditorAnimation>>
  {
    var records := AnimationRecords(bs, ts);
    if records.Err? then Err(records.error) else Ok(Keyed(records.value))
  }

  /** A tile has an animation exactly when some record starts with it, and
      the animation is the last such record. */
  lemma LaterRecordWins(records: seq<EditorAnimation>, key: int)
    requires forall k :: 0 <= k < |records| ==> records[k].frames != []
    ensures key in Keyed(records) <==> exists k :: 0 <= k < |records| && records[k].frames[0] == key
    ensures forall k :: 0 <= k < |records| && records[k].frames[0] == key
                        && (forall m :: k < m < |records| ==> records[m].frames[0] != key)
                        ==> key in Keyed(records) && Keyed(records)[key] == records[k]
  {
    KeyedKeys(records, key);
    forall k | 0 <= k < |records| && records[k].frames[0] == key
               && (forall m :: k < m < |records| ==> records[m].frames[0] != key)
      ensures key in Keyed(records) && Keyed(records)[key] == records[k]
    {
      KeyedLast(records, key, k);
    }
  }

  /** The keys of the dictionary are the first frames of the records. */
  lemma {:induction false} KeyedKeys(records: seq<EditorAnimation>, key: int)
    requires forall k :: 0 <= k < |records| ==> records[k].frames != []
    ensures key in Keyed(records) <==> exists k :: 0 <= k < |records| && records[k].frames[0] == key
  {
    if records != [] {
      var n := |records| - 1;
      var init := records[..n];
      KeyedKeys(init, key);
      if records[n].frames[0] != key && exists k :: 0 <= k < |records| && records[k].frames[0] == key {
        var k :| 0 <= k < |records| && records[k].frames[0] == key;
        assert k < n && init[k].frames[0] == key;
      }
    }
  }

  /** Record k, when no later record starts with the same frame, is the
      one stored under it. */
  lemma {:induction false} KeyedLast(records: seq<EditorAnimation>, key: int, k: nat)
    requires forall i :: 0 <= i < |records| ==> records[i].frames != []
    requires k < |records| && records[k].frames[0] == key
    requires forall m :: k < m < |records| ==> records[m].frames[0] != key
    ensures key in Keyed(records) && Keyed(records)[key] == records[k]
  {
    var n := |records| - 1;
    if k < n {
      var init := records[..n];
      assert init[k] == records[k];
      forall m | k < m < |init| ensures init[m].frames[0] != key {
        assert init[m] == records[m];
      }
      KeyedLast(init, key, k);
    }
  }

  /** `_AnimationLoader.load_from_file` on the animations file `data`: a
      record is read while a first byte remains. */
  method LoadAnimationsToEnd(data: seq<byte>, ts: Tileset) returns (r: Result<map<int, EditorAnimation>>)
    ensures r == LoadedAnimations(data, ts)
  {
    var animations: map<int, EditorAnimation> := map[];
    var rest := data;
    ghost var done: seq<EditorAnimation> := [];
    assert Prepended(done, AnimationRecords(rest, ts)) == AnimationRecords(data, ts) by {
      var records := AnimationRecords(data, ts);
      if records.Ok? {
        assert [] + records.value == records.value;
      }
    }
    while |rest| > 0
      invariant forall k :: 0 <= k < |done| ==> done[k].frames != []
      invariant animations == Keyed(done)
      invariant AnimationRecords(data, ts) == Prepended(done, AnimationRecords(rest, ts))
      decreases |rest|
    {
      var animation, after := ReadAnimationRecord(rest, ts);
      if animation.Err? {
        return Err(animation.error);
      }
      assert AnimationRecords(rest, ts) == Prepended([animation.value], AnimationRecords(after, ts));
      PrependedTwice(done, [animation.value], AnimationRecords(after, ts));
      assert (done + [animation.value])[..|done|] == done;
      animations := animations[animation.value.frames[0] := animation.value];
      done := done + [animation.value];
      rest := after;
    }
    assert Prepended(done, Ok([])) == Ok(done) by {
      assert done + [] == done;
    }
    r := Ok(animations);
  }

  /** The records read so far in front of those still to come. */
  function Prepended(done: seq<EditorAnimation>, more: Result<seq<EditorAnimation>>): Result<seq<EditorAnimation>>
  {
    if more.Err? then more else Ok(done + more.value)
  }

  lemma PrependedTwice(a: seq<EditorAnimation>, b: seq<EditorAnimation>, more: Result<seq<EditorAnimation>>)
    ensures Prepended(a, Prepended(b, more)) == Prepended(a + b, more)
  {
    if more.Ok? {
      assert a + (b + more.value) == (a + b) + more.value;
    }
  }

  // ---------------------------------------------------------------------
  // _AnimationPlayer

  /** `_AnimationPlayer.animated_tile_index_for`: the frame of the tile's
      animation at `tick`, or the tile itself when it is not animated.
      Python's `%` by a zero period x duration raises ZeroDivisionError. */
  function AnimatedTileIndexFor(animations: map<int, EditorAnimation>, tileIndex: int, tick: int): (r: Result<int>)
    ensures tileIndex !in animations ==> r == Ok(tileIndex)
  {
    if tileIndex !in animations then Ok(tileIndex)
    else
      var animation := animations[tileIndex];
      var cycle := |animation.frames| * animation.duration;
      if cycle == 0 then Err(ZeroDivisionError)
      else
        var step := FloorDiv(FloorMod(tick, cycle), animation.duration);
        match ListIndex(step, |animation.frames|)
        case Err(e) => Err(e)
        case Ok(k) => Ok(animation.frames[k])
  }

  /** An animated tile shows frame (tick mod period*duration) div duration
      of its animation, which is always one of its frames; a zero duration
      (or no frame) raises. */
  lemma AnimatedFrame(animations: map<int, EditorAnimation>, tileIndex: int, tick: int)
    requires tileIndex in animations
    ensures var a := animations[tileIndex];
      var cycle := |a.frames| * a.duration;
      (cycle == 0 <==> AnimatedTileIndexFor(animations, tileIndex, tick) == Err(ZeroDivisionError))
      && (cycle != 0 ==>
            var step := FloorMod(tick, cycle) / a.duration;
            0 <= step < |a.frames| && AnimatedTileIndexFor(animations, tileIndex, tick) == Ok(a.frames[step]))
  {
    var a := animations[tileIndex];
    var cycle := |a.frames| * a.duration;
    if cycle != 0 {
      var p, d := |a.frames|, a.duration as int;
      FloorDivProperties(tick, cycle);
      var m := FloorMod(tick, cycle);
      StepInPeriod(m, p, d);
    }
  }

  /** The frame shown repeats every period * duration ticks. */
  lemma AnimationIsPeriodic(animations: map<int, EditorAnimation>, tileIndex: int, tick: int)
    requires tileIndex in animations
    ensures var a := animations[tileIndex];
      AnimatedTileIndexFor(animations, tileIndex, tick + |a.frames| * a.duration)
      == AnimatedTileIndexFor(animations, tileIndex, tick)
  {
    var a := animations[tileIndex];
    var cycle := |a.frames| * a.duration;
    if cycle != 0 {
      FloorModShift(tick, cycle);
    }
  }

  lemma FloorModShift(a: int, b: int)
    requires b > 0
    ensures FloorMod(a + b, b) == FloorMod(a, b)
  {
    FloorDivProperties(a, b);
    FloorDivUnique(a + b, b, FloorDiv(a, b) + 1);
  }

  // ---------------------------------------------------------------------
  // _Level

  /** `_Level`: the tile list and the dimensions read from the
      configuration, which nothing ties to the number of tiles. */
  class Level {
    var tiles: seq<int>
    const width: int
    const height: int

    constructor (tiles: seq<int>, width: int, height: int)
      ensures this.tiles == tiles && this.width == width && this.height == height
    {
      this.tiles := tiles;
      this.width := width;
      this.height := height;
    }

    /** `_Level.set_tile_index`: assigns cell j*width + i of the list. */
    method SetTileIndex(i: int, j: int, tileIndex: int) returns (r: Outcome)
      modifies this
      ensures var k := ListIndex(j * width + i, |old(tiles)|);
        (k.Err? ==> r == Raised(IndexError) && tiles == old(tiles))
        && (k.Ok? ==> r == Done && tiles == old(tiles)[k.value := tileIndex])
    {
      var k := ListIndex(j * width + i, |tiles|);
      if k.Err? {
        return Raised(IndexError);
      }
      tiles := tiles[k.value := tileIndex];
      r := Done;
    }
  }

  // ---------------------------------------------------------------------
  // _LevelLoader

  /** `_LevelLoader.load` on the bytes of the level file: one u16 per two
      bytes (an odd length makes `struct.unpack` raise), rows of `width`
      tiles taken in reverse order, every index converted. `range` with a
      step of 0 raises ValueError; a negative step gives no row. A tileset
      of width 0 raises ZeroDivisionError at the first tile converted. */
  function LoadedTiles(bs: seq<byte>, width: int, ts: Tileset): Result<seq<int>>
  {
    if |bs| % 2 != 0 then Err(StructError)
    else if width == 0 then Err(ValueError)
    else if width < 0 then Ok([])
    else if ts.widthInTiles == 0 then (if bs == [] then Ok([]) else Err(ZeroDivisionError))
    else Ok(ReversedLevel(Values(bs, 2), width, ts.widthInTiles, ts.heightInTiles))
  }

  /** An even file loads, its length halved giving the number of tiles
      unpacked; an odd one raises. */
  lemma LoadedTileCount(bs: seq<byte>, width: int, ts: Tileset)
    requires ts.widthInTiles > 0 && width > 0
    ensures LoadedTiles(bs, width, ts).Ok? <==> |bs| % 2 == 0
    ensures |bs| % 2 == 0 ==> |Values(bs, 2)| == |bs| / 2
  {
    if |bs| % 2 == 0 {
      ValuesRoundTrip(bs, 2, |bs| / 2);
    }
  }

  /** `_LevelLoader.load`. */
  method Load(bs: seq<byte>, width: int, height: int, ts: Tileset) returns (r: Result<Level>)
    ensures var tiles := LoadedTiles(bs, width, ts);
      (tiles.Err? ==> r == Err(tiles.error))
      && (tiles.Ok? ==> r.Ok? && fresh(r.value) && r.value.tiles == tiles.value
                        && r.value.width == width && r.value.height == height)
  {
    var tiles := LoadedTiles(bs, width, ts);
    if tiles.Err? {
      return Err(tiles.error);
    }
    var level := new Level(tiles.value, width, height);
    r := Ok(level);
  }

  /** The rows `save` builds: row j holds the converted tiles of cells
      (0, j) to (width-1, j). */
  function SaveRows(tiles: seq<int>, width: nat, height: nat, ts: Tileset): seq<seq<int>>
    requires ts.widthInTiles > 0 && width * height <= |tiles|
  {
    seq(height, j requires 0 <= j < height =>
      seq(width, i requires 0 <= i < width =>
        CellInGrid(width, height, i, j);
        ReverseTileIndex(tiles[j * width + i], ts.widthInTiles, ts.heightInTiles)))
  }

  /** `_LevelLoader.save` as a value: the bytes of the file, or the error.
      A cell beyond the tile list raises IndexError and a tileset of width 0
      ZeroDivisionError, at the first cell, before the file is opened; a
      converted index outside 16 bits raises OverflowError. */
  function SavedBytes(tiles: seq<int>, width: int, height: int, ts: Tileset): Result<seq<byte>>
  {
    var w, h := Max(width, 0), Max(height, 0);
    if w * h > 0 && ts.widthInTiles == 0 then (if tiles == [] then Err(IndexError) else Err(ZeroDivisionError))
    else if w * h > |tiles| then Err(IndexError)
    else if ts.widthInTiles == 0 then Ok([])
    else Fields(Flatten(Reversed(SaveRows(tiles, w, h, ts))), 2)
  }

  /** `_LevelLoader.save`: rows built in nested loops, then written in
      reverse order, two little-endian bytes per tile. */
  method Save(level: Level, ts: Tileset) returns (r: Result<seq<byte>>)
    ensures r == SavedBytes(level.tiles, level.width, level.height, ts)
  {
    var w, h := Max(level.width, 0), Max(level.height, 0);
    if w * h > 0 && ts.widthInTiles == 0 {
      return if level.tiles == [] then Err(IndexError) else Err(ZeroDivisionError);
    }
    if w * h > |level.tiles| {
      return Err(IndexError);
    }
    if ts.widthInTiles == 0 {
      // No cell: nothing is converted and nothing written.
      return Ok([]);
    }
    var rows: seq<seq<int>> := [];
    var j := 0;
    while j < h
      invariant 0 <= j <= h && rows == SaveRows(level.tiles, w, h, ts)[..j]
    {
      var row: seq<int> := [];
      var i := 0;
      while i < w
        invariant 0 <= i <= w && row == SaveRows(level.tiles, w, h, ts)[j][..i]
      {
        CellInGrid(w, h, i, j);
        row := row + [ReverseTileIndex(level.tiles[j * w + i], ts.widthInTiles, ts.heightInTiles)];
        i := i + 1;
      }
      assert row == SaveRows(level.tiles, w, h, ts)[j];
      rows := rows + [row];
      j := j + 1;
    }
    assert rows == SaveRows(level.tiles, w, h, ts);
    r := WriteFields(Flatten(Reversed(rows)), 2);
  }

  /** On a level of exactly width x height tiles the rows `save` builds are
      the level's rows with every index converted. */
  lemma SaveRowsAreConvertedRows(tiles: seq<int>, w: nat, h: nat, ts: Tileset)
    requires ts.widthInTiles > 0 && w > 0 && |tiles| == w * h
    ensures SaveRows(tiles, w, h, ts) == MapRows(Rows(tiles, w, w), ts.widthInTiles, ts.heightInTiles)
  {
    var tw, th := ts.widthInTiles, ts.heightInTiles;
    var rows := Rows(tiles, w, w);
    RowsOfGrid(tiles, w, h);
    forall j | 0 <= j < h
      ensures SaveRows(tiles, w, h, ts)[j] == ReverseIndices(rows[j], tw, th)
    {
      RowOfGrid(tiles, w, h, j);
    }
  }

  /** What `save` writes for such a level is the level reversed back. */
  lemma SavedBytesOfGrid(tiles: seq<int>, w: nat, h: nat, ts: Tileset)
    requires ts.widthInTiles > 0 && w > 0 && |tiles| == w * h
    ensures SavedBytes(tiles, w, h, ts) == Fields(ReversedLevel(tiles, w, ts.widthInTiles, ts.heightInTiles), 2)
  {
    var tw, th := ts.widthInTiles, ts.heightInTiles;
    SaveRowsAreConvertedRows(tiles, w, h, ts);
    RowsMap(tiles, w, w, tw, th);
    FlipsCommute(tiles, w, tw, th);
  }

  /** Saving a level just loaded from a file of width x height tiles writes
      the file back unchanged. */
  lemma SaveAfterLoad(bs: seq<byte>, w: nat, h: nat, ts: Tileset)
    requires ts.widthInTiles > 0 && w > 0 && |bs| == 2 * (w * h)
    ensures LoadedTiles(bs, w, ts).Ok?
    ensures SavedBytes(LoadedTiles(bs, w, ts).value, w, h, ts) == Ok(bs)
  {
    var tw, th := ts.widthInTiles, ts.heightInTiles;
    ValuesRoundTrip(bs, 2, w * h);
    var tiles := Values(bs, 2);
    FlipRowsLength(tiles, w, h);
    var loaded := ReversedLevel(tiles, w, tw, th);
    SavedBytesOfGrid(loaded, w, h, ts);
    ReversedLevelInvolution(tiles, w, h, tw, th);
  }

  /** Loading what `save` wrote gives the level's tiles back. */
  lemma LoadAfterSave(tiles: seq<int>, w: nat, h: nat, ts: Tileset)
    requires ts.widthInTiles > 0 && w > 0 && |tiles| == w * h
    requires SavedBytes(tiles, w, h, ts).Ok?
    ensures LoadedTiles(SavedBytes(tiles, w, h, ts).value, w, ts) == Ok(tiles)
  {
    var tw, th := ts.widthInTiles, ts.heightInTiles;
    SavedBytesOfGrid(tiles, w, h, ts);
    var once := ReversedLevel(tiles, w, tw, th);
    FlipRowsLength(tiles, w, h);
    FieldsRoundTrip(once, 2);
    ReversedLevelInvolution(tiles, w, h, tw, th);
  }
}
