// LoaderSpriteset::load of the engine's data library: spritesets.bin,
// 17-byte records until the end of the file, into the engine's
// spritesets.
//
// Each field is read with `stream.read` into a zero-initialised variable of
// its width, in the machine's byte order, taken here as little-endian; a
// read past the end of the file leaves the missing bytes at 0. The fifth
// field of a record is the top offset and the sixth the left offset; the
// constructor takes the left offset first.

module LoaderSpriteset {
  import opened Arith
  import opened Bytes
  import opened StreamReader
  import SpritesetsToBin

  /** A spriteset as the engine holds it, fields in the constructor's
      order. */
  datatype Spriteset = Spriteset(spritesWidth: int, spritesHeight: int, widthInSprites: int, heightInSprites: int,
                                 leftOffset: int, topOffset: int, gap: int, textureIndex: int,
                                 alphaRed: int, alphaGreen: int, alphaBlue: int)

  /** One record: the two one-byte sprite sizes, six two-byte fields, the
      three one-byte colour components; then the stream after it. */
  function ReadSpriteset(bs: seq<byte>): (r: (Spriteset, seq<byte>))
    ensures bs != [] ==> |r.1| < |bs|
    ensures |bs| >= SpritesetsToBin.RecordSize ==> r.1 == bs[SpritesetsToBin.RecordSize..]
  {
    var sizes := ReadU8s(bs, 2);
    var sheet := ReadU16s(Rest(bs, 2), 6);
    var alpha := ReadU8s(Rest(bs, 14), 3);
    (Spriteset(sizes[0], sizes[1], sheet[0], sheet[1], sheet[3], sheet[2], sheet[4], sheet[5],
               alpha[0], alpha[1], alpha[2]),
     Rest(bs, SpritesetsToBin.RecordSize))
  }

  /** The spritesets of the file, in file order. */
  function SpritesetsRead(bs: seq<byte>): seq<Spriteset>
    decreases |bs|
  {
    if bs == [] then [] else [ReadSpriteset(bs).0] + SpritesetsRead(ReadSpriteset(bs).1)
  }

  /** One spriteset per 17 bytes, the last record possibly short: a file of
      whole records yields length / 17 spritesets. */
  lemma {:induction false} SpritesetsReadCount(bs: seq<byte>)
    ensures |SpritesetsRead(bs)| == (|bs| + SpritesetsToBin.RecordSize - 1) / SpritesetsToBin.RecordSize
    ensures |bs| % SpritesetsToBin.RecordSize == 0 ==> |SpritesetsRead(bs)| == |bs| / SpritesetsToBin.RecordSize
    decreases |bs|
  {
    if bs != [] {
      var rest := ReadSpriteset(bs).1;
      SpritesetsReadCount(rest);
      RecordsOf(|bs|, |rest|);
    }
    RecordsOfWhole(|bs|);
  }

  /** The count of records drops by one per record read. */
  lemma RecordsOf(n: nat, m: nat)
    requires n > 0 && m == if n >= 17 then n - 17 else 0
    ensures (m + 16) / 17 + 1 == (n + 16) / 17
  {
  }

  lemma RecordsOfWhole(n: nat)
    ensures n % 17 == 0 ==> (n + 16) / 17 == n / 17
  {
  }

  /** The eleven reads of the loader, each at its offset in the record, are
      the record read by runs. */
  lemma RecordFields(bs: seq<byte>)
    ensures ReadSpriteset(bs).0
            == Spriteset(U8(bs), U8(Rest(bs, 1)), U16(Rest(bs, 2)), U16(Rest(bs, 4)), U16(Rest(bs, 8)),
                         U16(Rest(bs, 6)), U16(Rest(bs, 10)), U16(Rest(bs, 12)),
                         U8(Rest(bs, 14)), U8(Rest(bs, 15)), U8(Rest(bs, 16)))
  {
    ReadU8sAt(bs, 2, 0);
    ReadU8sAt(bs, 2, 1);
    assert Rest(bs, 0) == bs;
    var sheet := Rest(bs, 2);
    ReadU16sAt(sheet, 6, 0);
    ReadU16sAt(sheet, 6, 1);
    ReadU16sAt(sheet, 6, 2);
    ReadU16sAt(sheet, 6, 3);
    ReadU16sAt(sheet, 6, 4);
    ReadU16sAt(sheet, 6, 5);
    assert Rest(sheet, 0) == sheet;
    RestRest(bs, 2, 2);
    RestRest(bs, 2, 4);
    RestRest(bs, 2, 6);
    RestRest(bs, 2, 8);
    RestRest(bs, 2, 10);
    var alpha := Rest(bs, 14);
    ReadU8sAt(alpha, 3, 0);
    ReadU8sAt(alpha, 3, 1);
    ReadU8sAt(alpha, 3, 2);
    assert Rest(alpha, 0) == alpha;
    RestRest(bs, 14, 1);
    RestRest(bs, 14, 2);
  }

  /** `LoaderSpriteset::load`: records until the end of the file. */
  method Load(data: seq<byte>) returns (spritesets: seq<Spriteset>)
    ensures spritesets == SpritesetsRead(data)
  {
    spritesets := [];
    var stream := data;
    while stream != []
      invariant SpritesetsRead(data) == spritesets + SpritesetsRead(stream)
      decreases |stream|
    {
      var spritesWidth := U8(stream);
      var spritesHeight := U8(Rest(stream, 1));
      var widthInSprites := U16(Rest(stream, 2));
      var heightInTiles := U16(Rest(stream, 4));
      var topOffset := U16(Rest(stream, 6));
      var leftOffset := U16(Rest(stream, 8));
      var gap := U16(Rest(stream, 10));
      var textureIndex := U16(Rest(stream, 12));
      var alphaRed := U8(Rest(stream, 14));
      var alphaGreen := U8(Rest(stream, 15));
      var alphaBlue := U8(Rest(stream, 16));
      RecordFields(stream);
      var spriteset := Spriteset(spritesWidth, spritesHeight, widthInSprites, heightInTiles, leftOffset,
                                 topOffset, gap, textureIndex, alphaRed, alphaGreen, alphaBlue);
      AppendAssoc(spritesets, [spriteset], SpritesetsRead(ReadSpriteset(stream).1));
      spritesets := spritesets + [spriteset];
      stream := Rest(stream, SpritesetsToBin.RecordSize);
    }
    assert spritesets + [] == spritesets;
  }

  // ---------------------------------------------------------------------
  // Loading what the encoder writes

  /** The spriteset the engine builds from a line of spritesets.txt: field 4
      is the top offset and field 5 the left offset. */
  function FromLine(line: seq<int>): (s: Spriteset)
    requires |line| >= SpritesetsToBin.FieldCount
  {
    Spriteset(line[0], line[1], line[2], line[3], line[5], line[4], line[6], line[7], line[8], line[9], line[10])
  }

  /** The record of a line written in full, followed by more, reads as the
      line's spriteset and leaves what follows. */
  lemma ReadRecordOf(line: seq<int>, rest: seq<byte>)
    requires SpritesetsToBin.WellFormed(line)
    ensures SpritesetsToBin.SpritesetBytes(line).Ok?
    ensures ReadSpriteset(SpritesetsToBin.SpritesetBytes(line).value + rest) == (FromLine(line), rest)
  {
    assert Pow256(1) == 0x100 && Pow256(2) == 0x1_0000;
    var sizes, sheet, alpha := line[..2], line[2..8], line[8..11];
    var a, b, c := Fields(sizes, 1).value, Fields(sheet, 2).value, Fields(alpha, 1).value;
    var bs := SpritesetsToBin.SpritesetBytes(line).value + rest;
    assert bs == a + (b + (c + rest));
    ReadU8sOfFields(sizes, b + (c + rest));
    ReadU16sOfFields(sheet, c + rest);
    ReadU8sOfFields(alpha, rest);
    RestRest(bs, 2, 12);
    RestRest(bs, 14, 3);
  }

  predicate AllWellFormed(lines: seq<seq<int>>)
  {
    forall i :: 0 <= i < |lines| ==> SpritesetsToBin.WellFormed(lines[i])
  }

  /** The spritesets of the lines, in line order. */
  function AllFromLines(lines: seq<seq<int>>): seq<Spriteset>
    requires AllWellFormed(lines)
  {
    if lines == [] then [] else [FromLine(lines[0])] + AllFromLines(lines[1..])
  }

  /** The file the encoder writes for lines written in full loads as one
      spriteset per line, in line order, left and top offsets in place. */
  lemma {:induction false} LoadAfterEncode(lines: seq<seq<int>>)
    requires AllWellFormed(lines)
    ensures SpritesetsToBin.SpritesetsBinary(lines).Ok?
    ensures SpritesetsRead(SpritesetsToBin.SpritesetsBinary(lines).value) == AllFromLines(lines)
  {
    SpritesetsToBin.FileLength(lines);
    if lines != [] {
      assert SpritesetsToBin.WellFormed(lines[0]) && AllWellFormed(lines[1..]);
      SpritesetsToBin.FileLength(lines[1..]);
      var rest := SpritesetsToBin.SpritesetsBinary(lines[1..]).value;
      ReadRecordOf(lines[0], rest);
      LoadAfterEncode(lines[1..]);
    }
  }
}
