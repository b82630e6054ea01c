// The level editor editor.py: one level of the multi-level binary file is
// loaded, shown in pyglet's bottom-left coordinates, painted with the tile
// selected in the tileset, and written back in place in the engine's
// top-left coordinates.

module Editor {
  import opened Arith
  import opened Bytes
  import opened Grid

  // ---------------------------------------------------------------------
  // _Tileset

  /** `_Tileset`: tile size and gap in pixels, size in tiles, and the offsets
      of the first tile from the left and from the bottom of the image. The
      width in tiles is read as an unsigned 'H' field by `_TilesetLoader`. */
  datatype Tileset = Tileset(tilesSize: int, widthInTiles: nat, heightInTiles: int,
                             leftOffset: int, bottomOffset: int, gap: int)

  /** `_Tileset.__init__`: the bottom offset is computed from the height of
      the image, the rows of tiles and the top offset; it counts the gap
      below the last row of tiles. */
  function NewTileset(imageHeight: int, tilesSize: int, widthInTiles: nat, heightInTiles: int,
                      leftOffset: int, topOffset: int, gap: int): Tileset
  {
    Tileset(tilesSize, widthInTiles, heightInTiles, leftOffset,
            imageHeight - heightInTiles * (tilesSize + gap) - topOffset + gap, gap)
  }

  // ---------------------------------------------------------------------
  // _reverse_tile_index over a list of tiles

  /** The comprehensions that apply `_reverse_tile_index` to every tile of a
      list: `%` by a tileset width of 0 raises ZeroDivisionError at the
      first tile, and an empty list converts to itself. */
  function ConvertTiles(s: seq<int>, ts: Tileset): (r: Result<seq<int>>)
    ensures r.Err? <==> ts.widthInTiles == 0 && s != []
    ensures r.Err? ==> r.error == ZeroDivisionError
    ensures r.Ok? ==> |r.value| == |s|
  {
    if ts.widthInTiles == 0 then (if s == [] then Ok([]) else Err(ZeroDivisionError))
    else Ok(ReverseIndices(s, ts.widthInTiles, ts.heightInTiles))
  }

  // ---------------------------------------------------------------------
  // _Level.reverse as written

  /** The comprehension of `_Level.reverse` as written: slices of `width`
      tiles are taken every `height` tiles, the slices are reversed and
      every tile converted. `range` with a step of 0 raises ValueError
      before any tile is converted. */
  function ReversedLevelAsWritten(tiles: seq<int>, width: nat, height: nat, ts: Tileset): Result<seq<int>>
  {
    if height == 0 then Err(ValueError)
    else ConvertTiles(Flatten(Reversed(Rows(tiles, height, width))), ts)
  }

  /** A tileset two tiles wide and one high, for the example below. */
  function TwoByOneTileset(): Tileset
  {
    Tileset(1, 2, 1, 0, 0, 0)
  }

  /** A level two tiles wide and one tile high comes back with three tiles:
      the rows overlap because they start every tile instead of every two. */
  lemma AsWrittenReverseDuplicatesTiles()
    ensures ReversedLevelAsWritten([0, 1], 2, 1, TwoByOneTileset()).Ok?
    ensures |ReversedLevelAsWritten([0, 1], 2, 1, TwoByOneTileset()).value| == 3
  {
    var s: seq<int> := [0, 1];
    var t: seq<int> := [1];
    assert Rows(s, 1, 2) == [s, t] by {
      assert s[1..] == t && t[1..] == [] && s[..2] == s && t[..1] == t;
      assert Rows(t, 1, 2) == [t] + Rows([], 1, 2);
    }
    assert Flatten(Reversed([s, t])) == [1, 0, 1] by {
      assert Reversed([s, t]) == [t, s];
      assert Flatten([t, s]) == t + Flatten([s]) && Flatten([s]) == s + Flatten([]);
    }
  }

  /** When the level is square the code as written is the intended reversal. */
  lemma AsWrittenAgreesOnSquareLevels(tiles: seq<int>, n: nat, ts: Tileset)
    requires n > 0 && ts.widthInTiles > 0
    ensures ReversedLevelAsWritten(tiles, n, n, ts) == Ok(ReversedLevel(tiles, n, ts.widthInTiles, ts.heightInTiles))
  {
  }

  /** A level reversed as written can be reversed again: the second pass
      meets neither a step of 0 nor, when the tileset has width 0, a tile
      to convert. */
  lemma AsWrittenReversesAgain(tiles: seq<int>, width: nat, height: nat, ts: Tileset)
    requires ReversedLevelAsWritten(tiles, width, height, ts).Ok?
    ensures ReversedLevelAsWritten(ReversedLevelAsWritten(tiles, width, height, ts).value, width, height, ts).Ok?
  {
    if ts.widthInTiles == 0 {
      assert ReversedLevelAsWritten(tiles, width, height, ts).value == [];
      assert Rows([], height, width) == [];
    }
  }

  /** On a square level the reversal as written is undone by a second
      reversal, as the editor's save relies on. */
  lemma SquareLevelRestored(tiles: seq<int>, n: nat, ts: Tileset)
    requires n > 0 && ts.widthInTiles > 0 && |tiles| == n * n
    ensures ReversedLevelAsWritten(tiles, n, n, ts).Ok?
    ensures ReversedLevelAsWritten(ReversedLevelAsWritten(tiles, n, n, ts).value, n, n, ts) == Ok(tiles)
  {
    var w, h := ts.widthInTiles, ts.heightInTiles;
    AsWrittenAgreesOnSquareLevels(tiles, n, ts);
    FlipRowsLength(tiles, n, n);
    AsWrittenAgreesOnSquareLevels(ReversedLevel(tiles, n, w, h), n, ts);
    ReversedLevelInvolution(tiles, n, n, w, h);
  }

  /** The tiles of the top row of the tileset, column i, end `topOffset`
      pixels below the top of the image, and start i cells from the left
      offset. */
  lemma TopRowMeetsTopOffset(imageHeight: int, tilesSize: int, widthInTiles: nat, heightInTiles: int,
                             leftOffset: int, topOffset: int, gap: int, i: int)
    requires 0 <= i < widthInTiles
    ensures var ts := NewTileset(imageHeight, tilesSize, widthInTiles, heightInTiles, leftOffset, topOffset, gap);
      var t := (heightInTiles - 1) * widthInTiles + i;
      TileOrigin(ts, t).Ok?
      && TileOrigin(ts, t).value.1 + tilesSize + topOffset == imageHeight
      && TileOrigin(ts, t).value.0 == i * (tilesSize + gap) + leftOffset
  {
    var w, h, step := widthInTiles, heightInTiles, tilesSize + gap;
    var t := (h - 1) * w + i;
    FloorDivUnique(t, w, h - 1);
    assert (h - 1) * step == h * step - step;
  }

  /** `_Tileset.tile`: the bottom-left pixel of the region of tile t. */
  function TileOrigin(ts: Tileset, t: int): Result<(int, int)>
  {
    if ts.widthInTiles == 0 then Err(ZeroDivisionError)
    else
      var step := ts.tilesSize + ts.gap;
      Ok((FloorMod(t, ts.widthInTiles) * step + ts.leftOffset,
          FloorDiv(t, ts.widthInTiles) * step + ts.bottomOffset))
  }

  /** `_Tileset.tile_index_at_point_in_tileset`: the tile whose cell of
      size + gap pixels holds the point, by floor division. */
  function TileIndexAtPoint(ts: Tileset, x: int, y: int): Result<int>
  {
    var step := ts.tilesSize + ts.gap;
    if step == 0 then Err(ZeroDivisionError)
    else Ok(FloorDiv(y - ts.bottomOffset, step) * ts.widthInTiles + FloorDiv(x - ts.leftOffset, step))
  }

  /** Every pixel of the cell of tile t picks tile t. */
  lemma PickInvertsTile(ts: Tileset, t: int, dx: int, dy: int)
    requires ts.widthInTiles > 0 && ts.tilesSize + ts.gap > 0
    requires 0 <= dx < ts.tilesSize + ts.gap && 0 <= dy < ts.tilesSize + ts.gap
    ensures TileOrigin(ts, t).Ok?
    ensures TileIndexAtPoint(ts, TileOrigin(ts, t).value.0 + dx, TileOrigin(ts, t).value.1 + dy) == Ok(t)
  {
    var w, s := ts.widthInTiles, ts.tilesSize + ts.gap;
    var i, j := FloorMod(t, w), FloorDiv(t, w);
    assert t == j * w + i by {
      FloorDivProperties(t, w);
    }
    PixelInCell(i, s, dx, ts.leftOffset);
    PixelInCell(j, s, dy, ts.bottomOffset);
  }

  /** Pixel d of cell k, counted from an offset, lies in cell k. */
  lemma PixelInCell(k: int, s: int, d: int, offset: int)
    requires s > 0 && 0 <= d < s
    ensures FloorDiv(k * s + offset + d - offset, s) == k
  {
    assert s * k <= k * s + d < s * k + s;
    FloorDivUnique(k * s + d, s, k);
  }

  /** A pick that falls within the tileset's columns lands in the cell of the
      tile it returns. */
  lemma PickedTileContainsPoint(ts: Tileset, x: int, y: int)
    requires ts.widthInTiles > 0 && ts.tilesSize + ts.gap > 0
    requires 0 <= FloorDiv(x - ts.leftOffset, ts.tilesSize + ts.gap) < ts.widthInTiles
    ensures TileIndexAtPoint(ts, x, y).Ok? && TileOrigin(ts, TileIndexAtPoint(ts, x, y).value).Ok?
    ensures var (ox, oy) := TileOrigin(ts, TileIndexAtPoint(ts, x, y).value).value;
      ox <= x < ox + ts.tilesSize + ts.gap && oy <= y < oy + ts.tilesSize + ts.gap
  {
    var w, s := ts.widthInTiles, ts.tilesSize + ts.gap;
    var i := FloorDiv(x - ts.leftOffset, s);
    var j := FloorDiv(y - ts.bottomOffset, s);
    FloorDivProperties(x - ts.leftOffset, s);
    FloorDivProperties(y - ts.bottomOffset, s);
    RowColumn(j, i, w);
    var t := j * w + i;
    assert TileIndexAtPoint(ts, x, y) == Ok(t);
    assert TileOrigin(ts, t).value == (i * s + ts.leftOffset, j * s + ts.bottomOffset);
  }

  // ---------------------------------------------------------------------
  // _Level

  /** `_Level.tile_index(i, j)` on a tile list: cell j*width + i, with
      Python's list indexing. */
  function Cell(tiles: seq<int>, width: int, i: int, j: int): Result<int>
  {
    match ListIndex(j * width + i, |tiles|)
    case Err(e) => Err(e)
    case Ok(k) => Ok(tiles[k])
  }

  /** Cell (i, j) of a grid of h rows of width w is one of its w*h cells. */
  lemma CellInGrid(w: nat, h: nat, i: nat, j: nat)
    requires i < w && j < h
    ensures 0 <= j * w + i < w * h
  {
    MulMonotonic(w, j, h - 1);
    MulMonotonic(w, 0, j);
  }

  /** Painting cell (i, j) of a grid changes that cell and no other. */
  lemma PaintChangesOneCell(tiles: seq<int>, w: nat, h: nat, i: nat, j: nat, v: int, i2: nat, j2: nat)
    requires |tiles| == w * h && i < w && j < h && i2 < w && j2 < h
    ensures j * w + i < |tiles|
    ensures Cell(tiles[j * w + i := v], w, i2, j2) == if i2 == i && j2 == j then Ok(v) else Cell(tiles, w, i2, j2)
  {
    CellInGrid(w, h, i, j);
    CellInGrid(w, h, i2, j2);
    if j * w + i == j2 * w + i2 {
      RowColumn(j, i, w);
      RowColumn(j2, i2, w);
    }
  }

  class Level {
    const index: int
    var tiles: seq<int>
    const width: nat
    const height: nat
    const tilesetIndex: nat

    constructor (index: int, tiles: seq<int>, width: nat, height: nat, tilesetIndex: nat)
      ensures this.index == index && this.tiles == tiles && this.width == width
      ensures this.height == height && this.tilesetIndex == tilesetIndex
    {
      this.index := index;
      this.tiles := tiles;
      this.width := width;
      this.height := height;
      this.tilesetIndex := tilesetIndex;
    }

    /** `_Level.reverse` as written: converts the level between the
        engine's and pyglet's coordinates, or raises and keeps the tiles. */
    method Reverse(tileset: Tileset) returns (r: Outcome)
      modifies this
      ensures var reversed := ReversedLevelAsWritten(old(tiles), width, height, tileset);
        (reversed.Err? ==> r == Raised(reversed.error) && tiles == old(tiles))
        && (reversed.Ok? ==> r == Done && tiles == reversed.value)
    {
      var reversed := ReversedLevelAsWritten(tiles, width, height, tileset);
      if reversed.Err? {
        return Raised(reversed.error);
      }
      tiles := reversed.value;
      r := Done;
    }

    /** `_Level.set_tile_index`: assigns cell j*width + i. */
    method SetTileIndex(i: int, j: int, tileIndex: int) returns (r: Outcome)
      modifies this
      ensures var k := ListIndex(j * width + i, |old(tiles)|);
        (k.Err? ==> r == Raised(IndexError) && tiles == old(tiles))
        && (k.Ok? ==> r == Done && tiles == old(tiles)[k.value := tileIndex])
    {
      var k := ListIndex(j * width + i, |tiles|);
      if k.Err? {
        return Raised(IndexError);
      }
      tiles := tiles[k.value := tileIndex];
      r := Done;
    }

    /** `_Level.tile_index`. */
    function TileIndex(i: int, j: int): Result<int>
      reads this
    {
      Cell(tiles, width, i, j)
    }
  }

  // ---------------------------------------------------------------------
  // _LevelLoader

  /** A level as stored in the levels file: the header fields and the tiles
      in the engine's coordinates. */
  datatype LevelRecord = LevelRecord(width: nat, height: nat, tilesetIndex: nat, tiles: seq<int>)

  /** The values `_read_level_with_index` starts from. */
  const NoLevel := LevelRecord(0, 0, 0, [])

  /** The level's tile list has one tile per cell. */
  predicate Shaped(level: LevelRecord)
  {
    |level.tiles| == level.width * level.height
  }

  /** The number of cells of a width x height level. */
  function CellCount(width: nat, height: nat): nat
  {
    width * height
  }

  /** An unsigned 16-bit field ('H' of `struct`, little-endian). Its value
      is tied to the bytes by FieldOfWritten and FieldReencodes. */
  function Field(bs: seq<byte>): (v: nat)
    requires |bs| >= 2
    ensures v < 0x1_0000
  {
    LittleEndian(bs[..2])
  }

  /** A field written with to_bytes(2, 'little') reads back. */
  lemma FieldOfWritten(v: int, rest: seq<byte>)
    requires 0 <= v < 0x1_0000
    ensures ToBytes(v, 2).Ok? && Field(ToBytes(v, 2).value + rest) == v
  {
    assert (ToBytes(v, 2).value + rest)[..2] == ToBytes(v, 2).value;
  }

  /** A field read re-encodes to the bytes it was read from. */
  lemma FieldReencodes(bs: seq<byte>)
    requires |bs| >= 2
    ensures ToBytes(Field(bs), 2) == Ok(bs[..2])
  {
    LittleEndianBytesRoundTrip(bs[..2]);
  }

  /** The three header fields, in the order `save` writes them. */
  lemma FieldsOfThree(a: int, b: int, c: int)
    ensures Fields([a, b, c], 2) == Cat(ToBytes(a, 2), Cat(ToBytes(b, 2), Cat(ToBytes(c, 2), Ok([]))))
  {
    assert [a, b, c][1..] == [b, c] && [b, c][1..] == [c] && [c][1..] == [];
    assert Fields([c], 2) == Cat(ToBytes(c, 2), Fields([], 2));
    assert Fields([b, c], 2) == Cat(ToBytes(b, 2), Fields([c], 2));
  }

  /** `struct.unpack('H' * n, read(2 * n))`: n tiles, or StructError when
      fewer than 2n bytes remain. */
  function ReadTiles(bs: seq<byte>, n: nat): (r: Result<(seq<int>, seq<byte>)>)
    ensures r.Ok? <==> 2 * n <= |bs|
    ensures r.Ok? ==> |r.value.0| == n && r.value.1 == bs[2 * n..]
  {
    if |bs| < 2 * n then Err(StructError)
    else
      ValuesRoundTrip(bs[..2 * n], 2, n);
      Ok((Values(bs[..2 * n], 2), bs[2 * n..]))
  }

  /** One pass of the loop of `_read_level_with_index` on the unread bytes:
      `struct.unpack` raises unless it gets the 6 header bytes and then all
      width x height tiles. */
  function ReadLevel(bs: seq<byte>): (r: Result<(LevelRecord, seq<byte>)>)
    ensures r.Ok? ==> Shaped(r.value.0) && r.value.0.width < 0x1_0000 && r.value.0.height < 0x1_0000
    ensures r.Ok? ==> 6 <= |bs| && |r.value.1| <= |bs| && r.value.1 == bs[|bs| - |r.value.1|..]
  {
    if |bs| < 6 then Err(StructError)
    else
      var width, height, tilesetIndex := Field(bs), Field(bs[2..]), Field(bs[4..]);
      match ReadTiles(bs[6..], CellCount(width, height))
      case Err(e) => Err(e)
      case Ok((tiles, rest)) =>
        assert rest == bs[|bs| - |rest|..];
        Ok((LevelRecord(width, height, tilesetIndex, tiles), rest))
  }

  /** `count` passes of that loop: the last level read and the bytes after it. */
  function ReadLevels(bs: seq<byte>, count: nat, last: LevelRecord): (r: Result<(LevelRecord, seq<byte>)>)
    ensures r.Ok? ==> |r.value.1| <= |bs| && bs[|bs| - |r.value.1|..] == r.value.1
    ensures r.Ok? && (count > 0 || Shaped(last)) ==> Shaped(r.value.0)
    decreases count
  {
    if count == 0 then Ok((last, bs))
    else
      match ReadLevel(bs)
      case Err(e) => Err(e)
      case Ok((level, rest)) =>
        var r := ReadLevels(rest, count - 1, level);
        if r.Ok? then
          assert bs[|bs| - |r.value.1|..] == rest[|rest| - |r.value.1|..];
          r
        else r
  }

  /** `_read_level_with_index(level_index)`: levels 0 to level_index read in
      turn (none for a negative index). */
  function LevelWithIndex(bs: seq<byte>, levelIndex: int): (r: Result<(LevelRecord, seq<byte>)>)
    ensures r.Ok? ==> Shaped(r.value.0) && |r.value.1| <= |bs| && bs[|bs| - |r.value.1|..] == r.value.1
  {
    ReadLevels(bs, if levelIndex + 1 > 0 then levelIndex + 1 else 0, NoLevel)
  }

  /** `_LevelLoader._read_level_with_index` on the file `data`: the level read
      and the file position after it. */
  method ReadLevelWithIndex(data: seq<byte>, levelIndex: int) returns (r: Result<LevelRecord>, pos: nat)
    ensures match LevelWithIndex(data, levelIndex)
      case Err(e) => r == Err(e)
      case Ok((level, rest)) => r == Ok(level) && pos == |data| - |rest|
  {
    var level := NoLevel;
    var rest := data;
    var left: nat := if levelIndex + 1 > 0 then levelIndex + 1 else 0;
    while left > 0
      invariant |rest| <= |data|
      invariant LevelWithIndex(data, levelIndex) == ReadLevels(rest, left, level)
    {
      ReadLevelsStep(rest, left, level);
      if |rest| < 6 {
        return Err(StructError), |data| - |rest|;
      }
      var width, height, tilesetIndex := Field(rest), Field(rest[2..]), Field(rest[4..]);
      var body := rest[6..];
      var length := 2 * CellCount(width, height);
      if |body| < length {
        return Err(StructError), |data| - |body|;
      }
      var tiles := Values(body[..length], 2);
      rest := body[length..];
      level := LevelRecord(width, height, tilesetIndex, tiles);
      left := left - 1;
    }
    r, pos := Ok(level), |data| - |rest|;
  }

  /** One pass of the loop: the header, then the tiles, then the passes left. */
  lemma ReadLevelsStep(bs: seq<byte>, count: nat, last: LevelRecord)
    requires count > 0
    ensures ReadLevels(bs, count, last) ==
      if |bs| < 6 then Err(StructError)
      else
        var body, length := bs[6..], 2 * CellCount(Field(bs), Field(bs[2..]));
        if |body| < length then Err(StructError)
        else ReadLevels(body[length..], count - 1,
                        LevelRecord(Field(bs), Field(bs[2..]), Field(bs[4..]), Values(body[..length], 2)))
  {
  }

  /** The bytes `save` writes for a level: the three header fields and the
      tiles, each as two little-endian bytes. */
  function EncodeLevel(level: LevelRecord): Result<seq<byte>>
  {
    Fields([level.width, level.height, level.tilesetIndex] + level.tiles, 2)
  }

  /** A level written by `save` reads back as the same level. */
  lemma ReadEncodedLevel(level: LevelRecord, rest: seq<byte>)
    requires Shaped(level) && EncodeLevel(level).Ok?
    ensures ReadLevel(EncodeLevel(level).value + rest) == Ok((level, rest))
  {
    EncodeLevelParts(level);
    var bw, bh, bt := ToBytes(level.width, 2).value, ToBytes(level.height, 2).value, ToBytes(level.tilesetIndex, 2).value;
    var tb := Fields(level.tiles, 2).value;
    var bs := bw + (bh + (bt + (tb + rest)));
    Reassociate(bw, bh, bt, tb, rest);
    FieldOfWritten(level.width, bh + (bt + (tb + rest)));
    SplitAppend(bw, bh + (bt + (tb + rest)));
    FieldOfWritten(level.height, bt + (tb + rest));
    DropDrop(bs, 2, 2);
    SplitAppend(bh, bt + (tb + rest));
    FieldOfWritten(level.tilesetIndex, tb + rest);
    DropDrop(bs, 4, 2);
    SplitAppend(bt, tb + rest);
    FieldsRoundTrip(level.tiles, 2);
    SplitAppend(tb, rest);
  }

  /** The bytes of an encoded level: the three header fields, then the tiles. */
  lemma EncodeLevelParts(level: LevelRecord)
    requires EncodeLevel(level).Ok?
    ensures ToBytes(level.width, 2).Ok? && ToBytes(level.height, 2).Ok? && ToBytes(level.tilesetIndex, 2).Ok?
    ensures Fields(level.tiles, 2).Ok?
    ensures EncodeLevel(level).value
         == ToBytes(level.width, 2).value + ToBytes(level.height, 2).value
          + ToBytes(level.tilesetIndex, 2).value + Fields(level.tiles, 2).value
  {
    var header := [level.width, level.height, level.tilesetIndex];
    FieldsAppend(header, level.tiles, 2);
    FieldsOfThree(level.width, level.height, level.tilesetIndex);
  }

  lemma Reassociate(a: seq<byte>, b: seq<byte>, c: seq<byte>, d: seq<byte>, e: seq<byte>)
    ensures a + b + c + d + e == a + (b + (c + (d + e)))
  {
  }

  /** The bytes a level was read from are the bytes `save` writes for it. */
  lemma ReadLevelReencodes(bs: seq<byte>)
    requires ReadLevel(bs).Ok?
    ensures EncodeLevel(ReadLevel(bs).value.0) == Ok(bs[..|bs| - |ReadLevel(bs).value.1|])
  {
    var (level, rest) := ReadLevel(bs).value;
    var n := CellCount(level.width, level.height);
    assert ReadTiles(bs[6..], n) == Ok((level.tiles, rest));
    ValuesRoundTrip(bs[6..][..2 * n], 2, n);
    FieldReencodes(bs);
    FieldReencodes(bs[2..]);
    FieldReencodes(bs[4..]);
    FieldsOfThree(level.width, level.height, level.tilesetIndex);
    FieldsAppend([level.width, level.height, level.tilesetIndex], level.tiles, 2);
    assert bs[..2] + (bs[2..][..2] + (bs[4..][..2] + [])) + bs[6..][..2 * n] == bs[..|bs| - |rest|];
  }

  /** All levels of a file, written one after another. */
  function EncodeLevels(levels: seq<LevelRecord>): Result<seq<byte>>
  {
    if levels == [] then Ok([]) else Cat(EncodeLevel(levels[0]), EncodeLevels(levels[1..]))
  }

  predicate WellFormed(level: LevelRecord)
  {
    Shaped(level) && EncodeLevel(level).Ok?
  }

  /** Reading k levels of a written file gives level k-1 and leaves the
      levels after it. */
  lemma {:induction false} ReadWrittenLevels(levels: seq<LevelRecord>, rest: seq<byte>, k: nat, last: LevelRecord)
    requires 0 < k <= |levels| && EncodeLevels(levels).Ok?
    requires forall m :: 0 <= m < |levels| ==> WellFormed(levels[m])
    ensures EncodeLevels(levels[k..]).Ok?
    ensures ReadLevels(EncodeLevels(levels).value + rest, k, last)
         == Ok((levels[k - 1], EncodeLevels(levels[k..]).value + rest))
  {
    var head := EncodeLevel(levels[0]).value;
    var tail := EncodeLevels(levels[1..]).value;
    assert EncodeLevels(levels).value + rest == head + (tail + rest);
    ReadEncodedLevel(levels[0], tail + rest);
    if k > 1 {
      assert levels[1..][k - 1..] == levels[k..];
      ReadWrittenLevels(levels[1..], rest, k - 1, levels[0]);
    } else {
      assert levels[1..] == levels[k..];
    }
  }

  /** Loading level n of a written file reads levels 0 to n in sequence and
      yields level n. */
  lemma LoadFindsLevel(levels: seq<LevelRecord>, rest: seq<byte>, n: nat)
    requires n < |levels| && EncodeLevels(levels).Ok?
    requires forall m :: 0 <= m < |levels| ==> WellFormed(levels[m])
    ensures LevelWithIndex(EncodeLevels(levels).value + rest, n).Ok?
    ensures LevelWithIndex(EncodeLevels(levels).value + rest, n).value.0 == levels[n]
  {
    ReadWrittenLevels(levels, rest, n + 1, NoLevel);
  }

  /** One more pass reads one more level from where the others stopped. */
  lemma {:induction false} ReadLevelsSnoc(bs: seq<byte>, n: nat, last: LevelRecord)
    ensures ReadLevels(bs, n + 1, last) == match ReadLevels(bs, n, last)
      case Err(e) => Err(e)
      case Ok((_, rest)) => ReadLevel(rest)
  {
    if n == 0 {
      match ReadLevel(bs)
      case Err(_) =>
      case Ok((level, rest)) => assert ReadLevels(rest, 0, level) == Ok((level, rest));
    } else {
      match ReadLevel(bs)
      case Err(_) =>
      case Ok((level, rest)) => ReadLevelsSnoc(rest, n - 1, level);
    }
  }

  /** Python's write of `bytes` at offset pos of a file opened 'rb+': the
      bytes there are overwritten and the file grows if they pass its end. */
  function Overwrite(file: seq<byte>, pos: nat, bytes: seq<byte>): (r: seq<byte>)
    requires pos <= |file|
    ensures |r| == Max(|file|, pos + |bytes|)
    ensures r[..pos] == file[..pos] && r[pos..pos + |bytes|] == bytes
    ensures pos + |bytes| < |file| ==> r[pos + |bytes|..] == file[pos + |bytes|..]
  {
    file[..pos] + bytes + (if pos + |bytes| < |file| then file[pos + |bytes|..] else [])
  }

  /** Where `save` writes level `index`: after levels 0 to index-1. */
  function SavePosition(file: seq<byte>, index: int): (r: Result<nat>)
    ensures r.Ok? ==> r.value <= |file|
  {
    if index > 0 then
      match LevelWithIndex(file, index - 1)
      case Err(e) => Err(e)
      case Ok((_, rest)) => Ok(|file| - |rest|)
    else Ok(0)
  }

  /** The levels file after `_LevelLoader.save` writes `level` (already in
      the engine's coordinates) as level `index`. */
  function SavedFile(file: seq<byte>, index: int, level: LevelRecord): Result<seq<byte>>
  {
    match SavePosition(file, index)
    case Err(e) => Err(e)
    case Ok(pos) =>
      match EncodeLevel(level)
      case Err(e) => Err(e)
      case Ok(bytes) => Ok(Overwrite(file, pos, bytes))
  }

  /** Saving a level exactly as it was loaded leaves the file unchanged. */
  lemma SaveAfterLoadKeepsFile(file: seq<byte>, index: nat)
    requires LevelWithIndex(file, index).Ok?
    ensures SavedFile(file, index, LevelWithIndex(file, index).value.0) == Ok(file)
  {
    var (level, rest) := LevelWithIndex(file, index).value;
    ReadLevelsSnoc(file, index, NoLevel);
    var rest0 := ReadLevels(file, index, NoLevel).value.1;
    var pos := |file| - |rest0|;
    assert SavePosition(file, index) == Ok(pos);
    ReadLevelReencodes(rest0);
    var bytes := rest0[..|rest0| - |rest|];
    assert file[pos..] == rest0;
    OverwriteInPlace(file, pos, bytes);
  }

  /** Writing over bytes with the same bytes changes nothing. */
  lemma OverwriteInPlace(file: seq<byte>, pos: nat, bytes: seq<byte>)
    requires pos + |bytes| <= |file| && file[pos..][..|bytes|] == bytes
    ensures Overwrite(file, pos, bytes) == file
  {
    assert file[pos..pos + |bytes|] == bytes;
    assert file == file[..pos] + file[pos..pos + |bytes|] + file[pos + |bytes|..];
  }

  /** `_LevelLoader.save`: reverses the level into the engine's coordinates,
      skips the levels before it, writes it, and reverses it back. An
      exception of the first reversal leaves the level as it was, a later
      one leaves it in the engine's coordinates. */
  method Save(level: Level, file: seq<byte>, tileset: Tileset) returns (r: Result<seq<byte>>)
    modifies level
    ensures var onDisk := ReversedLevelAsWritten(old(level.tiles), level.width, level.height, tileset);
      (onDisk.Err? ==> r == Err(onDisk.error) && level.tiles == old(level.tiles))
      && (onDisk.Ok? ==>
            r == SavedFile(file, level.index, LevelRecord(level.width, level.height, level.tilesetIndex, onDisk.value))
            && (r.Ok? ==> ReversedLevelAsWritten(onDisk.value, level.width, level.height, tileset) == Ok(level.tiles))
            && (r.Err? ==> level.tiles == onDisk.value))
  {
    var reversed := level.Reverse(tileset);
    if reversed.Raised? {
      return Err(reversed.error);
    }
    AsWrittenReversesAgain(old(level.tiles), level.width, level.height, tileset);
    var pos := 0;
    if level.index > 0 {
      var skipped, p := ReadLevelWithIndex(file, level.index - 1);
      if skipped.Err? {
        return Err(skipped.error);
      }
      pos := p;
    }
    var header := WriteFields([level.width, level.height, level.tilesetIndex], 2);
    if header.Err? {
      FieldsAppend([level.width, level.height, level.tilesetIndex], level.tiles, 2);
      return Err(header.error);
    }
    var body := WriteFields(level.tiles, 2);
    FieldsAppend([level.width, level.height, level.tilesetIndex], level.tiles, 2);
    if body.Err? {
      return Err(body.error);
    }
    r := Ok(Overwrite(file, pos, header.value + body.value));
    var back := level.Reverse(tileset);
  }

  // ---------------------------------------------------------------------
  // _AnimationLoader

  /** An animation of the tileset window: its frames in pyglet's numbering
      and the duration byte (the editor turns it into seconds). */
  datatype EditorAnimation = EditorAnimation(frames: seq<int>, duration: byte)

  /** One record of `_read_group_of_animations`: u8 period, u8 duration and
      period u16 frames. `read(1)[0]` at the end of the file raises
      IndexError, a short frame list StructError, converting frames with a
      tileset of width 0 ZeroDivisionError, and a period of 0 IndexError on
      `tiles_indices[0]`. */
  function ReadEditorAnimation(bs: seq<byte>, ts: Tileset): (r: Result<(EditorAnimation, seq<byte>)>)
    ensures r.Ok? ==>
              2 <= |bs| && 0 < bs[0] == |r.value.0.frames|
              && 2 + 2 * (bs[0] as int) <= |bs| && r.value.1 == bs[2 + 2 * (bs[0] as int)..]
    ensures ts.widthInTiles == 0 ==> r.Err?
    ensures ts.widthInTiles == 0 && 2 <= |bs| && 0 < bs[0] && 2 + 2 * (bs[0] as int) <= |bs|
            ==> r == Err(ZeroDivisionError)
  {
    if |bs| < 2 then Err(IndexError)
    else
      match ReadTiles(bs[2..], bs[0])
      case Err(e) => Err(e)
      case Ok((frames, rest)) =>
        match ConvertTiles(frames, ts)
        case Err(e) => Err(e)
        case Ok(converted) =>
          if converted == [] then Err(IndexError)
          else Ok((EditorAnimation(converted, bs[1]), rest))
  }

  /** `count` records of a group, each stored under its first frame; a later
      record with the same first frame replaces the earlier one. */
  function ReadEditorGroup(bs: seq<byte>, count: nat, acc: map<int, EditorAnimation>, ts: Tileset)
    : (r: Result<(map<int, EditorAnimation>, seq<byte>)>)
    ensures r.Ok? ==> |r.value.1| <= |bs|
    decreases count
  {
    if count == 0 then Ok((acc, bs))
    else
      var record := ReadEditorAnimation(bs, ts);
      if record.Err? then Err(record.error)
      else ReadEditorGroup(record.value.1, count - 1, acc[record.value.0.frames[0] := record.value.0], ts)
  }

  /** `_AnimationLoader.load_from_file`: groups (u16 index, u16 count) are
      read until the group with index 0, whose animations are returned. A
      file without that group ends in StructError. */
  function GroupZero(bs: seq<byte>, ts: Tileset): Result<map<int, EditorAnimation>>
    decreases |bs|
  {
    if |bs| < 4 then Err(StructError)
    else
      var index, count := LittleEndian(bs[..2]), LittleEndian(bs[2..4]);
      match ReadEditorGroup(bs[4..], count, map[], ts)
      case Err(e) => Err(e)
      case Ok((animations, rest)) =>
        if index == 0 then Ok(animations) else GroupZero(rest, ts)
  }

  /** `_read_group_of_animations` on the unread part of the file. */
  method ReadGroupOfAnimations(stream: seq<byte>, count: nat, ts: Tileset)
    returns (r: Result<map<int, EditorAnimation>>, rest: seq<byte>)
    ensures var g := ReadEditorGroup(stream, count, map[], ts);
      (g.Err? ==> r == Err(g.error)) && (g.Ok? ==> r == Ok(g.value.0) && rest == g.value.1)
  {
    var animations: map<int, EditorAnimation> := map[];
    rest := stream;
    var left := count;
    while left > 0
      invariant ReadEditorGroup(stream, count, map[], ts) == ReadEditorGroup(rest, left, animations, ts)
    {
      ReadEditorGroupStep(rest, left, animations, ts);
      var animation, after := ReadAnimationRecord(rest, ts);
      if animation.Err? {
        return Err(animation.error), rest;
      }
      animations := animations[animation.value.frames[0] := animation.value];
      rest := after;
      left := left - 1;
    }
    r := Ok(animations);
  }

  /** The body of that loop: `read(1)[0]` for the period and the duration,
      then `struct.unpack` of the frames. */
  method ReadAnimationRecord(stream: seq<byte>, ts: Tileset) returns (r: Result<EditorAnimation>, rest: seq<byte>)
    ensures var record := ReadEditorAnimation(stream, ts);
      (record.Err? ==> r == Err(record.error))
      && (record.Ok? ==> r == Ok(record.value.0) && rest == record.value.1)
  {
    rest := stream;
    if |rest| < 1 {
      return Err(IndexError), rest;
    }
    var period: nat := rest[0];
    rest := rest[1..];
    if |rest| < 1 {
      return Err(IndexError), rest;
    }
    var duration := rest[0];
    rest := rest[1..];
    assert rest == stream[2..];
    if |rest| < 2 * period {
      return Err(StructError), rest;
    }
    var frames := Values(rest[..2 * period], 2);
    rest := rest[2 * period..];
    var converted := ConvertTiles(frames, ts);
    if converted.Err? {
      return Err(converted.error), rest;
    }
    if period == 0 {
      return Err(IndexError), rest;
    }
    r := Ok(EditorAnimation(converted.value, duration));
  }

  lemma ReadEditorGroupStep(bs: seq<byte>, count: nat, acc: map<int, EditorAnimation>, ts: Tileset)
    requires count > 0
    ensures var record := ReadEditorAnimation(bs, ts);
      (record.Err? ==> ReadEditorGroup(bs, count, acc, ts) == Err(record.error))
      && (record.Ok? ==>
            ReadEditorGroup(bs, count, acc, ts)
            == ReadEditorGroup(record.value.1, count - 1, acc[record.value.0.frames[0] := record.value.0], ts))
  {
  }

  /** `_AnimationLoader.load_from_file` on the animations file `data`. */
  method LoadAnimations(data: seq<byte>, ts: Tileset) returns (r: Result<map<int, EditorAnimation>>)
    ensures r == GroupZero(data, ts)
  {
    var rest := data;
    var current: int := -1;
    var animations: map<int, EditorAnimation> := map[];
    while current != 0
      invariant GroupZero(data, ts) == if current == 0 then Ok(animations) else GroupZero(rest, ts)
      decreases |rest|
    {
      if |rest| < 4 {
        return Err(StructError);
      }
      current := LittleEndian(rest[..2]);
      var count := LittleEndian(rest[2..4]);
      var group, after := ReadGroupOfAnimations(rest[4..], count, ts);
      if group.Err? {
        return Err(group.error);
      }
      animations := group.value;
      rest := after;
    }
    r := Ok(animations);
  }

  // ---------------------------------------------------------------------
  // _Controller

  class Controller {
    var level: Level
    const tileset: Tileset
    var selected: int
    var saved: bool
    var file: seq<byte>

    /** A controller exists only for a tileset of positive width: the
        selection of `__init__` converts tile 0 and raises otherwise. */
    ghost predicate Valid()
      reads this
    {
      tileset.widthInTiles > 0
    }

    /** What both window captions show: the selected tile in the engine's
        numbering, and whether the '*' of unsaved changes follows it. */
    function Caption(): (int, bool)
      reads this
      requires tileset.widthInTiles > 0
    {
      (ReverseTileIndex(selected, tileset.widthInTiles, tileset.heightInTiles), !saved)
    }

    /** The state `__init__` leaves once the level is loaded and shown:
        tile 0 of the engine's numbering is selected and the captions show
        no unsaved change. */
    constructor (level: Level, tileset: Tileset, file: seq<byte>)
      requires tileset.widthInTiles > 0
      ensures Valid() && this.level == level && this.tileset == tileset && this.file == file
      ensures selected == ReverseTileIndex(0, tileset.widthInTiles, tileset.heightInTiles)
      ensures Caption() == (0, false)
    {
      this.level := level;
      this.tileset := tileset;
      selected := ReverseTileIndex(0, tileset.widthInTiles, tileset.heightInTiles);
      saved := true;
      this.file := file;
      ReverseTileIndexInvolution(0, tileset.widthInTiles, tileset.heightInTiles);
    }

    /** `_Controller.__init__`: loads level `levelIndex` of `file`, reverses
        it into pyglet's coordinates as `_Level.reverse` is written, then
        selects tile 0 of the engine's numbering. Each step may raise. */
    static method Open(file: seq<byte>, levelIndex: int, tileset: Tileset) returns (r: Result<Controller>)
      ensures var loaded := LevelWithIndex(file, levelIndex);
        loaded.Err? ==> r == Err(loaded.error)
      ensures var loaded := LevelWithIndex(file, levelIndex);
        loaded.Ok? ==>
          var l := loaded.value.0;
          var shown := ReversedLevelAsWritten(l.tiles, l.width, l.height, tileset);
          (shown.Err? ==> r == Err(shown.error))
          && (shown.Ok? && tileset.widthInTiles == 0 ==> r == Err(ZeroDivisionError))
          && (shown.Ok? && tileset.widthInTiles > 0 ==>
                r.Ok? && fresh(r.value) && fresh(r.value.level) && r.value.Valid()
                && r.value.file == file && r.value.tileset == tileset && r.value.Caption() == (0, false)
                && r.value.level.index == levelIndex && r.value.level.width == l.width
                && r.value.level.height == l.height && r.value.level.tilesetIndex == l.tilesetIndex
                && r.value.level.tiles == shown.value)
    {
      var loaded, _ := ReadLevelWithIndex(file, levelIndex);
      if loaded.Err? {
        return Err(loaded.error);
      }
      var rec := loaded.value;
      var l := new Level(levelIndex, rec.tiles, rec.width, rec.height, rec.tilesetIndex);
      var shown := l.Reverse(tileset);
      if shown.Raised? {
        return Err(shown.error);
      }
      if tileset.widthInTiles == 0 {
        return Err(ZeroDivisionError);
      }
      var c := new Controller(l, tileset, file);
      r := Ok(c);
    }

    /** `on_location_selected`: marks the level unsaved, then paints the
        selected tile at (i, j). */
    method OnLocationSelected(i: int, j: int) returns (r: Outcome)
      requires Valid()
      modifies this, level
      ensures Valid() && level == old(level) && file == old(file) && selected == old(selected)
      ensures !saved
      ensures var k := ListIndex(j * level.width + i, |old(level.tiles)|);
        (k.Err? ==> r == Raised(IndexError) && level.tiles == old(level.tiles))
        && (k.Ok? ==> r == Done && level.tiles == old(level.tiles)[k.value := selected])
    {
      saved := false;
      r := level.SetTileIndex(i, j, selected);
    }

    /** `on_tile_selected`: a new tile to paint with; the level is marked
        unsaved. */
    method OnTileSelected(tileIndex: int)
      requires Valid()
      modifies this
      ensures Valid() && level == old(level) && file == old(file)
      ensures selected == tileIndex && !saved
    {
      selected := tileIndex;
      saved := false;
    }

    /** `on_save_requested`: writes the level into the file; only a save that
        completes marks the level saved. */
    method OnSaveRequested() returns (r: Outcome)
      requires Valid()
      modifies this, level
      ensures Valid() && level == old(level) && selected == old(selected)
      ensures var onDisk := ReversedLevelAsWritten(old(level.tiles), level.width, level.height, tileset);
        (onDisk.Err? ==> r == Raised(onDisk.error) && saved == old(saved) && file == old(file)
                         && level.tiles == old(level.tiles))
        && (onDisk.Ok? ==>
              var written := SavedFile(old(file), level.index,
                                       LevelRecord(level.width, level.height, level.tilesetIndex, onDisk.value));
              (written.Ok? ==> r == Done && saved && file == written.value
                               && ReversedLevelAsWritten(onDisk.value, level.width, level.height, tileset) == Ok(level.tiles))
              && (written.Err? ==> r == Raised(written.error) && saved == old(saved) && file == old(file)
                                   && level.tiles == onDisk.value))
    {
      var written := Save(level, file, tileset);
      if written.Err? {
        return Raised(written.error);
      }
      file := written.value;
      saved := true;
      r := Done;
    }
  }
}
