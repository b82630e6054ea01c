// LoaderLevel::load of the engine's data library: levels.bin, level after
// level until the end of the file, into the engine's levels.
//
// Per level: six two-byte header fields (width, height, spriteset,
// animation player, tile-solid mapper, number of characters), then an
// (index, x, y) triple per character, then the tiles, read as one block
// of 2 * width * height bytes into a vector of 2 * width * height two-byte
// entries, so only its first half holds tiles. The block is read in the
// machine's byte order, taken here as little-endian.
//
// A character is modelled by the index of the template it copies (its
// spriteset, action-sprite mapper, animation player, controllers and solid
// are that template's) and its position in pixels.

module LoaderLevel {
  import opened Arith
  import opened Bytes
  import opened StreamReader
  import opened Solid
  import LevelsToBin

  /** A character of a level: the template it copies and its position. */
  datatype LevelCharacter = LevelCharacter(template: nat, position: Position)

  datatype Level = Level(tiles: seq<int>, width: int, height: int, spriteset: nat, animationPlayer: int,
                         characters: seq<LevelCharacter>, tileSolidMapper: int)

  /** What the indices of the file refer to: the sprite size (width,
      height) of each spriteset, the number of character templates, and the
      keys of the animation players and tile-solid mappers. */
  datatype LevelAssets = LevelAssets(spriteSizes: seq<(int, int)>, templates: nat,
                                     animationPlayers: set<int>, tileSolidMappers: set<int>)

  /** The (index, x, y) fields of character i. */
  function Triple(fields: seq<int>, i: nat): (int, int, int)
    requires 3 * i + 2 < |fields|
  {
    (fields[3 * i], fields[3 * i + 1], fields[3 * i + 2])
  }

  /** Every character names an existing template. */
  predicate TemplatesExist(assets: LevelAssets, fields: seq<int>, n: nat)
    requires |fields| == 3 * n
  {
    forall i :: 0 <= i < n ==> 0 <= Triple(fields, i).0 < assets.templates
  }

  /** The character of a triple: a copy of the template, placed at (x, y)
      times the sprite size of the level's spriteset. */
  function PlaceCharacter(assets: LevelAssets, spriteset: nat, t: (int, int, int)): (c: LevelCharacter)
    requires spriteset < |assets.spriteSizes| && t.0 >= 0
  {
    LevelCharacter(t.0, Position(t.1 * assets.spriteSizes[spriteset].0, t.2 * assets.spriteSizes[spriteset].1))
  }

  /** The characters of a level; indexing the templates or the spritesets
      out of range is undefined behaviour. */
  function PlaceCharacters(assets: LevelAssets, spriteset: nat, fields: seq<int>, n: nat): (r: Result<seq<LevelCharacter>>)
    requires |fields| == 3 * n
    ensures r.Ok? <==> n == 0 || (spriteset < |assets.spriteSizes| && TemplatesExist(assets, fields, n))
    ensures r.Err? ==> r.error == Undefined
    ensures r.Ok? ==> |r.value| == n
  {
    if n == 0 then Ok([])
    else if spriteset >= |assets.spriteSizes| || !TemplatesExist(assets, fields, n) then Err(Undefined)
    else Ok(seq(n, i requires 0 <= i < n => PlaceCharacter(assets, spriteset, Triple(fields, i))))
  }

  /** Each character stands at its (x, y) in sprites, in pixels. */
  lemma CharacterPositions(assets: LevelAssets, spriteset: nat, fields: seq<int>, n: nat, i: nat)
    requires |fields| == 3 * n && i < n && PlaceCharacters(assets, spriteset, fields, n).Ok?
    ensures var c := PlaceCharacters(assets, spriteset, fields, n).value[i];
      var (w, h) := assets.spriteSizes[spriteset];
      c.template == fields[3 * i] && c.position == Position(fields[3 * i + 1] * w, fields[3 * i + 2] * h)
  {
  }

  /** The zeros the tile vector starts with. */
  function ZeroTiles(n: nat): (z: seq<int>)
    ensures |z| == n && forall i :: 0 <= i < n ==> z[i] == 0
  {
    seq(n, _ => 0)
  }

  /** The tile vector of n tiles: 2n entries, of which the read fills the
      first n. */
  function ReadTiles(bs: seq<byte>, n: nat): seq<int>
  {
    ReadU16s(bs, n) + ZeroTiles(n)
  }

  /** Entry i < n of the tile vector is the two bytes 2i bytes into the
      block, the second half is zero. */
  lemma TilesLayout(bs: seq<byte>, n: nat)
    ensures |ReadTiles(bs, n)| == 2 * n
    ensures forall i :: 0 <= i < n ==> ReadTiles(bs, n)[i] == U16(Rest(bs, 2 * i))
    ensures forall i :: n <= i < 2 * n ==> ReadTiles(bs, n)[i] == 0
  {
    forall i | 0 <= i < n
      ensures ReadTiles(bs, n)[i] == U16(Rest(bs, 2 * i))
    {
      ReadU16sAt(bs, n, i);
    }
  }

  /** One pass of the loop on the stream `bs`: the level and the stream
      after it. */
  function ReadLevel(assets: LevelAssets, bs: seq<byte>): (r: Result<(Level, seq<byte>)>)
    ensures r.Ok? && bs != [] ==> |r.value.1| < |bs|
    ensures r.Err? ==> r.error == Undefined || r.error == OutOfRange
  {
    ReadU16sRange(bs, 6);
    ReadBody(assets, ReadU16s(bs, 6), Rest(bs, 12))
  }

  /** What follows the header of a level: its characters and tiles. A
      spriteset index past the vector is undefined behaviour; a missing key
      makes `at` throw out_of_range. */
  function ReadBody(assets: LevelAssets, header: seq<int>, afterHeader: seq<byte>): (r: Result<(Level, seq<byte>)>)
    requires |header| == 6 && forall i :: 0 <= i < 6 ==> header[i] >= 0
    ensures r.Ok? ==> |r.value.1| <= |afterHeader|
    ensures r.Err? ==> r.error == Undefined || r.error == OutOfRange
  {
    var width, height, spriteset, animationPlayer, tileSolidMapper, numCharacters :=
      header[0], header[1], header[2], header[3], header[4], header[5];
    var characters := PlaceCharacters(assets, spriteset, ReadU16s(afterHeader, 3 * numCharacters), numCharacters);
    var afterCharacters := Rest(afterHeader, 6 * numCharacters);
    MulNonNegative(width, height);
    if characters.Err? then Err(characters.error)
    else if spriteset >= |assets.spriteSizes| then Err(Undefined)
    else if animationPlayer !in assets.animationPlayers || tileSolidMapper !in assets.tileSolidMappers then
      Err(OutOfRange)
    else Ok((Level(ReadTiles(afterCharacters, width * height), width, height, spriteset, animationPlayer,
                   characters.value, tileSolidMapper),
             Rest(afterCharacters, 2 * (width * height))))
  }

  /** Lines loaded before what a later pass loads or raises. */
  function Then(levels: seq<Level>, later: Result<seq<Level>>): Result<seq<Level>>
  {
    match later
    case Err(e) => Err(e)
    case Ok(x) => Ok(levels + x)
  }

  lemma ThenAssoc(a: seq<Level>, b: seq<Level>, later: Result<seq<Level>>)
    ensures Then(a, Then(b, later)) == Then(a + b, later)
  {
    if later.Ok? {
      assert a + (b + later.value) == (a + b) + later.value;
    }
  }

  /** The levels of the file, in file order, or the error of the first
      level that cannot be built. */
  function LevelsRead(assets: LevelAssets, bs: seq<byte>): Result<seq<Level>>
    decreases |bs|
  {
    if bs == [] then Ok([])
    else
      var level := ReadLevel(assets, bs);
      if level.Err? then Err(level.error)
      else Then([level.value.0], LevelsRead(assets, level.value.1))
  }

  lemma LevelsReadFails(assets: LevelAssets, bs: seq<byte>, e: Error)
    requires bs != [] && ReadLevel(assets, bs) == Err(e)
    ensures LevelsRead(assets, bs) == Err(e)
  {
  }

  lemma LevelsReadStep(assets: LevelAssets, bs: seq<byte>, level: Level, rest: seq<byte>)
    requires bs != [] && ReadLevel(assets, bs) == Ok((level, rest))
    ensures LevelsRead(assets, bs) == Then([level], LevelsRead(assets, rest))
  {
  }

  // ---------------------------------------------------------------------
  // The loader

  /** Triple i of the fields is read 6i bytes into the stream. */
  lemma TripleAt(bs: seq<byte>, n: nat, i: nat)
    requires i < n
    ensures var s := Rest(bs, 6 * i);
      Triple(ReadU16s(bs, 3 * n), i) == (U16(s), U16(Rest(s, 2)), U16(Rest(s, 4)))
      && Rest(s, 6) == Rest(bs, 6 * (i + 1))
  {
    var f, s := ReadU16s(bs, 3 * n), Rest(bs, 6 * i);
    ReadU16sAfter(bs, 3 * n, 3 * i, 6 * i, 0);
    ReadU16sAfter(bs, 3 * n, 3 * i + 1, 6 * i, 2);
    ReadU16sAfter(bs, 3 * n, 3 * i + 2, 6 * i, 4);
    RestRest(bs, 6 * i, 6);
    assert Rest(s, 0) == s;
  }

  /** The character loop: (index, x, y) read one triple at a time from
      `bs`. */
  method ReadCharacters(assets: LevelAssets, spriteset: nat, bs: seq<byte>, n: nat)
    returns (r: Result<seq<LevelCharacter>>)
    ensures r == PlaceCharacters(assets, spriteset, ReadU16s(bs, 3 * n), n)
  {
    ghost var fields := ReadU16s(bs, 3 * n);
    ReadU16sRange(bs, 3 * n);
    var placed: seq<LevelCharacter> := [];
    var stream := bs;
    for i := 0 to n
      invariant stream == Rest(bs, 6 * i)
      invariant PlacedSoFar(assets, spriteset, fields, n, placed, i)
    {
      var index, x, y := U16(stream), U16(Rest(stream, 2)), U16(Rest(stream, 4));
      TripleAt(bs, n, i);
      if index >= assets.templates || spriteset >= |assets.spriteSizes| {
        PlaceFails(assets, spriteset, fields, n, i);
        return Err(Undefined);
      }
      PlacedSnoc(assets, spriteset, fields, n, placed, i);
      placed := placed + [PlaceCharacter(assets, spriteset, (index, x, y))];
      stream := Rest(stream, 6);
    }
    PlacedAll(assets, spriteset, fields, n, placed);
    r := if n == 0 then Ok([]) else Ok(placed);
  }

  /** The first i characters are placed, each from its triple. */
  predicate PlacedSoFar(assets: LevelAssets, spriteset: nat, fields: seq<int>, n: nat,
                        placed: seq<LevelCharacter>, i: nat)
    requires |fields| == 3 * n && i <= n
  {
    |placed| == i && (i > 0 ==> spriteset < |assets.spriteSizes|)
    && (forall j :: 0 <= j < i ==> 0 <= Triple(fields, j).0 < assets.templates)
    && (forall j :: 0 <= j < i ==> spriteset < |assets.spriteSizes| && Triple(fields, j).0 >= 0
                                   && placed[j] == PlaceCharacter(assets, spriteset, Triple(fields, j)))
  }

  lemma PlacedSnoc(assets: LevelAssets, spriteset: nat, fields: seq<int>, n: nat,
                   placed: seq<LevelCharacter>, i: nat)
    requires |fields| == 3 * n && i < n && PlacedSoFar(assets, spriteset, fields, n, placed, i)
    requires spriteset < |assets.spriteSizes| && 0 <= Triple(fields, i).0 < assets.templates
    ensures PlacedSoFar(assets, spriteset, fields, n, placed + [PlaceCharacter(assets, spriteset, Triple(fields, i))], i + 1)
  {
  }

  /** A template or spriteset index out of range makes the whole level
      undefined. */
  lemma PlaceFails(assets: LevelAssets, spriteset: nat, fields: seq<int>, n: nat, i: nat)
    requires |fields| == 3 * n && i < n
    requires spriteset >= |assets.spriteSizes| || !(Triple(fields, i).0 < assets.templates)
    ensures PlaceCharacters(assets, spriteset, fields, n) == Err(Undefined)
  {
  }

  lemma PlacedAll(assets: LevelAssets, spriteset: nat, fields: seq<int>, n: nat, placed: seq<LevelCharacter>)
    requires |fields| == 3 * n && PlacedSoFar(assets, spriteset, fields, n, placed, n)
    ensures PlaceCharacters(assets, spriteset, fields, n) == if n == 0 then Ok([]) else Ok(placed)
  {
    if n > 0 {
      assert placed == seq(n, i requires 0 <= i < n => PlaceCharacter(assets, spriteset, Triple(fields, i)));
    }
  }

  /** One pass of the loop: the six header reads, the characters, the block
      read of the tiles, then the level. */
  method LoadLevel(assets: LevelAssets, stream: seq<byte>) returns (r: Result<(Level, seq<byte>)>)
    ensures r == ReadLevel(assets, stream)
  {
    ReadU16sRange(stream, 6);
    ReadU16sAt(stream, 6, 0);
    ReadU16sAt(stream, 6, 1);
    ReadU16sAt(stream, 6, 2);
    ReadU16sAt(stream, 6, 3);
    ReadU16sAt(stream, 6, 4);
    ReadU16sAt(stream, 6, 5);
    var width, height := U16(stream), U16(Rest(stream, 2));
    var spriteset, animationPlayer := U16(Rest(stream, 4)), U16(Rest(stream, 6));
    var tileSolidMapper, numCharacters := U16(Rest(stream, 8)), U16(Rest(stream, 10));
    var afterHeader := Rest(stream, 12);
    var characters := ReadCharacters(assets, spriteset, afterHeader, numCharacters);
    var afterCharacters := Rest(afterHeader, 6 * numCharacters);
    MulNonNegative(width, height);
    var sizeInBytes := width * height * 2;
    var block := Padded(afterCharacters, sizeInBytes);
    var tiles := Values(block, 2) + ZeroTiles(width * height);
    ReadU16sIsBlockRead(afterCharacters, width * height);
    assert tiles == ReadTiles(afterCharacters, width * height);
    var afterTiles := Rest(afterCharacters, sizeInBytes);
    if characters.Err? {
      return Err(characters.error);
    }
    if spriteset >= |assets.spriteSizes| {
      return Err(Undefined);
    }
    if animationPlayer !in assets.animationPlayers || tileSolidMapper !in assets.tileSolidMappers {
      return Err(OutOfRange);
    }
    r := Ok((Level(tiles, width, height, spriteset, animationPlayer, characters.value, tileSolidMapper), afterTiles));
  }

  /** `LoaderLevel::load`: levels until the end of the file. */
  method Load(assets: LevelAssets, data: seq<byte>) returns (r: Result<seq<Level>>)
    ensures r == LevelsRead(assets, data)
  {
    var levels: seq<Level> := [];
    var stream := data;
    assert Then([], LevelsRead(assets, data)) == LevelsRead(assets, data) by {
      if LevelsRead(assets, data).Ok? {
        assert [] + LevelsRead(assets, data).value == LevelsRead(assets, data).value;
      }
    }
    while stream != []
      invariant LevelsRead(assets, data) == Then(levels, LevelsRead(assets, stream))
      decreases |stream|
    {
      var level := LoadLevel(assets, stream);
      if level.Err? {
        LevelsReadFails(assets, stream, level.error);
        return Err(level.error);
      }
      var (read, rest) := level.value;
      LevelsReadStep(assets, stream, read, rest);
      ThenAssoc(levels, [read], LevelsRead(assets, rest));
      levels := levels + [read];
      stream := rest;
    }
    assert levels + [] == levels;
    r := Ok(levels);
  }

  // ---------------------------------------------------------------------
  // Loading what the encoder writes

  /** A level whose indices all refer to something. */
  predicate Loadable(assets: LevelAssets, l: LevelsToBin.TextLevel)
    requires LevelsToBin.Encodable(l)
  {
    l.header[2] < |assets.spriteSizes| && l.header[3] in assets.animationPlayers
    && l.header[4] in assets.tileSolidMappers && TemplatesExist(assets, l.characters, l.header[5])
  }

  /** The level the engine builds from a level of the text. */
  function Loaded(assets: LevelAssets, l: LevelsToBin.TextLevel): Level
    requires LevelsToBin.Encodable(l) && Loadable(assets, l)
  {
    var h := l.header;
    Level(l.tiles + ZeroTiles(h[0] * h[1]), h[0], h[1], h[2], h[3],
          PlaceCharacters(assets, h[2], l.characters, h[5]).value, h[4])
  }

  /** The body of a level as the encoder writes it loads as that level. */
  lemma ReadBodyOf(assets: LevelAssets, l: LevelsToBin.TextLevel, rest: seq<byte>)
    requires LevelsToBin.Encodable(l) && Loadable(assets, l)
    requires Fields(l.characters, 2).Ok? && Fields(l.tiles, 2).Ok?
    ensures forall i :: 0 <= i < 6 ==> l.header[i] >= 0
    ensures ReadBody(assets, l.header, Fields(l.characters, 2).value + (Fields(l.tiles, 2).value + rest))
            == Ok((Loaded(assets, l), rest))
  {
    ReadU16sOfFields(l.characters, Fields(l.tiles, 2).value + rest);
    ReadU16sOfFields(l.tiles, rest);
  }

  /** A level as the encoder writes it, followed by more, loads as that
      level and leaves the stream after it. */
  lemma ReadLevelOf(assets: LevelAssets, l: LevelsToBin.TextLevel, rest: seq<byte>)
    requires LevelsToBin.Encodable(l) && Loadable(assets, l)
    ensures ReadLevel(assets, LevelsToBin.LevelBytes(l) + rest) == Ok((Loaded(assets, l), rest))
  {
    assert Pow256(2) == 0x1_0000;
    var hb, cb, tb := Fields(l.header, 2).value, Fields(l.characters, 2).value, Fields(l.tiles, 2).value;
    var bs := LevelsToBin.LevelBytes(l) + rest;
    assert bs == hb + (cb + (tb + rest));
    ReadU16sOfFields(l.header, cb + (tb + rest));
    ReadBodyOf(assets, l, rest);
  }

  predicate AllLoadable(assets: LevelAssets, ls: seq<LevelsToBin.TextLevel>)
  {
    forall i :: 0 <= i < |ls| ==> LevelsToBin.Encodable(ls[i]) && Loadable(assets, ls[i])
  }

  /** The levels the engine builds from levels of the text, in order. */
  function AllLoaded(assets: LevelAssets, ls: seq<LevelsToBin.TextLevel>): seq<Level>
    requires AllLoadable(assets, ls)
  {
    if ls == [] then [] else [Loaded(assets, ls[0])] + AllLoaded(assets, ls[1..])
  }

  /** The file the encoder writes for levels whose indices refer to
      something loads as those levels, in order. */
  lemma {:induction false} LoadAfterEncode(assets: LevelAssets, ls: seq<LevelsToBin.TextLevel>)
    requires AllLoadable(assets, ls)
    ensures LevelsToBin.AllEncodable(ls)
    ensures LevelsRead(assets, LevelsToBin.FileBytes(ls)) == Ok(AllLoaded(assets, ls))
  {
    assert LevelsToBin.AllEncodable(ls);
    if ls != [] {
      assert LevelsToBin.Encodable(ls[0]) && Loadable(assets, ls[0]) && AllLoadable(assets, ls[1..]);
      var rest := LevelsToBin.FileBytes(ls[1..]);
      var bs := LevelsToBin.FileBytes(ls);
      assert |LevelsToBin.LevelBytes(ls[0])| >= 12;
      ReadLevelOf(assets, ls[0], rest);
      LevelsReadStep(assets, bs, Loaded(assets, ls[0]), rest);
      LoadAfterEncode(assets, ls[1..]);
    }
  }
}
