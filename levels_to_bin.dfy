// The level encoder (assets/levels_to_bin.py): the integers of levels.txt,
// read as one run of whitespace-separated tokens, become levels.bin, one
// level after the other: six two-byte header fields (width, height,
// spriteset, animation, tile-solid map, number of characters), three
// two-byte fields per character and one two-byte field per tile.
//
// The tokens are given as the integers `int` makes of them; a token that is
// not an integer is not part of this model.

module LevelsToBin {
  import opened Arith
  import opened Bytes

  /** A level as the text describes it: the six header values, then three
      values per character and one per tile. */
  datatype TextLevel = TextLevel(header: seq<int>, characters: seq<int>, tiles: seq<int>)

  predicate InU16(vs: seq<int>)
  {
    forall i :: 0 <= i < |vs| ==> 0 <= vs[i] < 0x1_0000
  }

  /** A level whose values all fit two bytes and whose runs are as long as
      its header says. */
  predicate Encodable(l: TextLevel)
  {
    |l.header| == 6 && InU16(l.header) && InU16(l.characters) && InU16(l.tiles)
    && |l.characters| == 3 * l.header[5] && |l.tiles| == l.header[0] * l.header[1]
  }

  predicate AllEncodable(ls: seq<TextLevel>)
  {
    forall i :: 0 <= i < |ls| ==> Encodable(ls[i])
  }

  /** The tokens of a level in text order. */
  function LevelTokens(l: TextLevel): seq<int>
  {
    l.header + l.characters + l.tiles
  }

  /** The tokens of levels.txt. */
  function Tokens(ls: seq<TextLevel>): seq<int>
  {
    if ls == [] then [] else LevelTokens(ls[0]) + Tokens(ls[1..])
  }

  /** The bytes of one level: each value on two bytes, little-endian. */
  function LevelBytes(l: TextLevel): (bs: seq<byte>)
    requires Encodable(l)
    ensures |bs| == 2 * (6 + 3 * l.header[5] + l.header[0] * l.header[1])
  {
    assert Pow256(2) == 0x1_0000;
    Fields(l.header, 2).value + Fields(l.characters, 2).value + Fields(l.tiles, 2).value
  }

  /** The bytes of levels.bin. */
  function FileBytes(ls: seq<TextLevel>): seq<byte>
    requires AllEncodable(ls)
  {
    if ls == [] then [] else LevelBytes(ls[0]) + FileBytes(ls[1..])
  }

  // ---------------------------------------------------------------------
  // The loop of the script

  /** The values of the first six tokens, once they are known to fit two
      bytes. */
  lemma HeaderInRange(items: seq<int>)
    requires |items| >= 6 && Fields(items[..6], 2).Ok?
    ensures forall k :: 0 <= k < 6 ==> 0 <= items[k] < 0x1_0000
  {
    assert Pow256(2) == 0x1_0000;
    forall k | 0 <= k < 6
      ensures 0 <= items[k] < 0x1_0000
    {
      assert items[..6][k] == items[k];
    }
  }

  /** `mark`, the end of the characters' tokens, as far as the tokens go. */
  function Mark(items: seq<int>): (mark: nat)
    requires |items| >= 6 && items[5] >= 0
    ensures 6 <= mark <= |items|
  {
    Min(6 + items[5] * 3, |items|)
  }

  /** `mark + width * height`, the end of the tiles' tokens, as far as the
      tokens go. */
  function End(items: seq<int>): (end: nat)
    requires |items| >= 6 && items[0] >= 0 && items[1] >= 0 && items[5] >= 0
    ensures Mark(items) <= end <= |items|
  {
    MulNonNegative(items[0], items[1]);
    Min(6 + items[5] * 3 + items[0] * items[1], |items|)
  }

  /** One pass of the loop: the header is taken from the first six tokens
      (IndexError when there are fewer) and written first, so a value out of
      range raises OverflowError before any character or tile; then the
      slices `items[6:mark]` and `items[mark:mark + width * height]`, which
      stop at the end of the tokens. The second component is what is left. */
  function EncodeLevel(items: seq<int>): (r: Result<(seq<byte>, seq<int>)>)
    requires items != []
    ensures |items| < 6 <==> r == Err(IndexError)
    ensures r.Err? ==> r.error == IndexError || r.error == OverflowError
    ensures r.Ok? ==> |r.value.1| < |items| && items[|items| - |r.value.1|..] == r.value.1
    ensures r.Ok? ==> |r.value.0| == 2 * (|items| - |r.value.1|)
  {
    if |items| < 6 then Err(IndexError)
    else
      var header := Fields(items[..6], 2);
      if header.Err? then Err(header.error)
      else
        HeaderInRange(items);
        var mark, end := Mark(items), End(items);
        var characters, tiles := Fields(items[6..mark], 2), Fields(items[mark..end], 2);
        if characters.Err? then Err(characters.error)
        else if tiles.Err? then Err(tiles.error)
        else Ok((header.value + characters.value + tiles.value, items[end..]))
  }

  /** A header value that does not fit two bytes raises OverflowError. */
  lemma HeaderOverflow(items: seq<int>, k: nat)
    requires k < 6 <= |items| && !(0 <= items[k] < 0x1_0000)
    ensures EncodeLevel(items) == Err(OverflowError)
  {
    assert Pow256(2) == 0x1_0000;
    assert items[..6][k] == items[k];
  }

  /** Once the header fits, a character or tile token that does not fit
      two bytes raises OverflowError. */
  lemma BodyOverflow(items: seq<int>, k: nat)
    requires |items| >= 6 && forall j :: 0 <= j < 6 ==> 0 <= items[j] < 0x1_0000
    requires 6 <= k < End(items) && !(0 <= items[k] < 0x1_0000)
    ensures EncodeLevel(items) == Err(OverflowError)
  {
    assert Pow256(2) == 0x1_0000;
    assert Fields(items[..6], 2).Ok? by {
      forall j | 0 <= j < 6
        ensures 0 <= items[..6][j] < Pow256(2)
      {
        assert items[..6][j] == items[j];
      }
    }
    var mark, end := Mark(items), End(items);
    if k < mark {
      assert items[6..mark][k - 6] == items[k];
    } else {
      assert items[mark..end][k - mark] == items[k];
    }
  }

  /** The file the script writes for the tokens, or the exception it
      raises. */
  function LevelsBinary(items: seq<int>): Result<seq<byte>>
    decreases |items|
  {
    if items == [] then Ok([])
    else
      var level := EncodeLevel(items);
      if level.Err? then Err(level.error)
      else Cat(Ok(level.value.0), LevelsBinary(level.value.1))
  }

  /** A pass that raises ends the file with its exception. */
  lemma LevelsBinaryFails(items: seq<int>, e: Error)
    requires items != [] && EncodeLevel(items) == Err(e)
    ensures LevelsBinary(items) == Err(e)
  {
  }

  /** A pass that writes `level` and leaves `rest`. */
  lemma LevelsBinaryStep(items: seq<int>, level: seq<byte>, rest: seq<int>)
    requires items != [] && EncodeLevel(items) == Ok((level, rest))
    ensures LevelsBinary(items) == Cat(Ok(level), LevelsBinary(rest))
  {
  }

  /** The script: `while len(items) > 0`, one level per pass. */
  method LevelsToBinary(tokens: seq<int>) returns (r: Result<seq<byte>>)
    ensures r == LevelsBinary(tokens)
  {
    var out: seq<byte> := [];
    var items := tokens;
    CatEmpty(LevelsBinary(tokens));
    while |items| > 0
      invariant LevelsBinary(tokens) == Cat(Ok(out), LevelsBinary(items))
      decreases |items|
    {
      if |items| < 6 {
        LevelsBinaryFails(items, IndexError);
        return Err(IndexError);
      }
      var header := WriteFields(items[..6], 2);
      if header.Err? {
        LevelsBinaryFails(items, header.error);
        return Err(header.error);
      }
      HeaderInRange(items);
      var mark, end := Mark(items), End(items);
      var characters := WriteFields(items[6..mark], 2);
      if characters.Err? {
        LevelsBinaryFails(items, characters.error);
        return Err(characters.error);
      }
      var tiles := WriteFields(items[mark..end], 2);
      if tiles.Err? {
        LevelsBinaryFails(items, tiles.error);
        return Err(tiles.error);
      }
      var level := header.value + characters.value + tiles.value;
      LevelsBinaryStep(items, level, items[end..]);
      CatAssoc(Ok(out), Ok(level), LevelsBinary(items[end..]));
      out := out + level;
      items := items[end..];
    }
    assert out + [] == out;
    r := Ok(out);
  }

  // ---------------------------------------------------------------------
  // Levels written in full

  /** A level's tokens, followed by more, encode as the level's bytes and
      leave exactly the tokens that follow. */
  lemma EncodeLevelOf(l: TextLevel, rest: seq<int>)
    requires Encodable(l)
    ensures EncodeLevel(LevelTokens(l) + rest) == Ok((LevelBytes(l), rest))
  {
    var items := LevelTokens(l) + rest;
    var h, c, t := l.header, l.characters, l.tiles;
    var mark := 6 + 3 * h[5];
    var end := mark + h[0] * h[1];
    assert items == h + (c + (t + rest));
    assert items[..6] == h;
    assert items[6..mark] == c;
    assert items[mark..end] == t;
    assert items[end..] == rest;
    assert Pow256(2) == 0x1_0000;
  }

  /** Levels written in full encode one after the other: the file is the
      levels' bytes in order. */
  lemma {:induction false} EncodeLevels(ls: seq<TextLevel>)
    requires AllEncodable(ls)
    ensures LevelsBinary(Tokens(ls)) == Ok(FileBytes(ls))
  {
    if ls != [] {
      assert Encodable(ls[0]) && AllEncodable(ls[1..]);
      var first := LevelTokens(ls[0]);
      assert |first| >= 6;
      EncodeLevelOf(ls[0], Tokens(ls[1..]));
      EncodeLevels(ls[1..]);
    }
  }

  /** Each level takes two bytes per token. */
  lemma {:induction false} FileLength(ls: seq<TextLevel>)
    requires AllEncodable(ls)
    ensures |FileBytes(ls)| == 2 * |Tokens(ls)|
  {
    if ls != [] {
      assert Encodable(ls[0]) && AllEncodable(ls[1..]);
      FileLength(ls[1..]);
    }
  }

  /** A last level with fewer tiles than its header announces is written
      as far as its tokens go, without an error. */
  lemma ShortLastLevel(l: TextLevel, present: nat)
    requires Encodable(l) && present < |l.tiles|
    ensures var short := TextLevel(l.header, l.characters, l.tiles[..present]);
      LevelsBinary(LevelTokens(short))
      == Ok(Fields(l.header, 2).value + Fields(l.characters, 2).value + Fields(l.tiles[..present], 2).value)
  {
    var items := LevelTokens(TextLevel(l.header, l.characters, l.tiles[..present]));
    var h, c, t := l.header, l.characters, l.tiles[..present];
    assert items == h + (c + t);
    assert items[..6] == h && items[6..6 + |c|] == c && items[6 + |c|..] == t;
    assert items[0] == h[0] && items[1] == h[1] && items[5] == h[5];
    HeaderInRange(items);
    assert Mark(items) == 6 + |c|;
    assert |t| < h[0] * h[1];
    assert End(items) == |items|;
    assert items[Mark(items)..End(items)] == t;
    assert items[|items|..] == [];
    assert InU16(t) by {
      forall i | 0 <= i < |t|
        ensures 0 <= t[i] < 0x1_0000
      {
        assert t[i] == l.tiles[i];
      }
    }
    assert Pow256(2) == 0x1_0000;
    var bytes := Fields(h, 2).value + Fields(c, 2).value + Fields(t, 2).value;
    assert EncodeLevel(items) == Ok((bytes, []));
    assert bytes + [] == bytes;
  }
}
