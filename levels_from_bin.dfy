// The level decoder (levels/levels_from_bin.py): levels.bin back to the
// lines of levels.txt. Per level: a line with the six header values, the
// characters three values to a line, the tiles `width` values to a line.
//
// A line is modelled by its values; the text formatting (values padded with
// zeros to two or three digits, separated by spaces, lines joined by
// newlines) is not part of this model. `struct.unpack` with format 'H' is
// read as little-endian, the byte order of the machines the tools run on.

module LevelsFromBin {
  import opened Arith
  import opened Bytes
  import opened LevelsToBin

  /** `[vs[i:i + k] for i in range(0, len(vs), k)]`: runs of k values, the
      last one possibly shorter. */
  function Chunks(vs: seq<int>, k: nat): (rows: seq<seq<int>>)
    requires k > 0
    decreases |vs|
  {
    if vs == [] then [] else if |vs| <= k then [vs] else [vs[..k]] + Chunks(vs[k..], k)
  }

  /** The lines `'\n'.join` of the rows writes: no row still makes an
      (empty) line. */
  function Lines(rows: seq<seq<int>>): seq<seq<int>>
  {
    if rows == [] then [[]] else rows
  }

  /** All values of the lines, in order: the whitespace tokens of the
      text. */
  function Flatten(lines: seq<seq<int>>): seq<int>
  {
    if lines == [] then [] else lines[0] + Flatten(lines[1..])
  }

  lemma {:induction false} FlattenAppend(a: seq<seq<int>>, b: seq<seq<int>>)
    ensures Flatten(a + b) == Flatten(a) + Flatten(b)
  {
    if a == [] {
      assert a + b == b;
    } else {
      assert (a + b)[1..] == a[1..] + b;
      FlattenAppend(a[1..], b);
      AppendAssoc(a[0], Flatten(a[1..]), Flatten(b));
    }
  }

  /** The rows hold the values in order. */
  lemma {:induction false} FlattenChunks(vs: seq<int>, k: nat)
    requires k > 0
    ensures Flatten(Lines(Chunks(vs, k))) == vs
    ensures Flatten(Chunks(vs, k)) == vs
    decreases |vs|
  {
    if vs == [] {
    } else if |vs| <= k {
      assert Flatten([vs]) == vs + Flatten([]);
    } else {
      FlattenChunks(vs[k..], k);
      assert ([vs[..k]] + Chunks(vs[k..], k))[1..] == Chunks(vs[k..], k);
      assert vs[..k] + vs[k..] == vs;
    }
  }

  /** k * n values make n rows of k. */
  lemma {:induction false} ChunksShape(vs: seq<int>, k: nat, n: nat)
    requires k > 0 && |vs| == k * n
    ensures |Chunks(vs, k)| == n
    ensures forall i :: 0 <= i < n ==> |Chunks(vs, k)[i]| == k
    decreases n
  {
    if n > 1 {
      assert |vs[k..]| == k * (n - 1);
      ChunksShape(vs[k..], k, n - 1);
    } else if n == 1 {
      assert |vs| == k;
    }
  }

  /** `struct.unpack('H' * n, bs)`: n values, or struct.error unless the
      buffer holds exactly 2n bytes. */
  function Unpack(bs: seq<byte>, n: nat): (r: Result<seq<nat>>)
    ensures r.Ok? <==> |bs| == 2 * n
    ensures r.Ok? ==> |r.value| == n
    ensures r.Err? ==> r.error == StructError
  {
    if |bs| == 2 * n then
      ValuesRoundTrip(bs, 2, n);
      Ok(Values(bs, 2))
    else Err(StructError)
  }

  /** One pass of the loop: the header is unpacked from the first twelve
      bytes (struct.error when there are fewer), then the rest of the pass
      works on what follows them. The second component is what is left. */
  function DecodeLevel(bs: seq<byte>): (r: Result<(seq<seq<int>>, seq<byte>)>)
    requires bs != []
    ensures |bs| < 12 ==> r == Err(StructError)
    ensures r.Err? ==> r.error == StructError || r.error == ValueError
    ensures r.Ok? ==> |r.value.1| < |bs| && bs[|bs| - |r.value.1|..] == r.value.1
  {
    var header := Unpack(bs[..Min(12, |bs|)], 6);
    if header.Err? then Err(header.error)
    else
      var r := DecodeCharacters(bs[12..], header.value);
      assert r.Ok? ==> bs[|bs| - |r.value.1|..] == bs[12..][|bs| - 12 - |r.value.1|..];
      r
  }

  /** The characters: `6 * numCharacters` bytes after the header, a slice
      that stops at the end of the bytes (a short one raises
      struct.error). */
  function DecodeCharacters(body: seq<byte>, h: seq<nat>): (r: Result<(seq<seq<int>>, seq<byte>)>)
    requires |h| == 6
    ensures r.Err? ==> r.error == StructError || r.error == ValueError
    ensures r.Ok? ==> |r.value.1| <= |body| && body[|body| - |r.value.1|..] == r.value.1
  {
    var mark := Min(6 * h[5], |body|);
    var characters := Unpack(body[..mark], 3 * h[5]);
    if characters.Err? then Err(characters.error)
    else
      var r := DecodeTiles(body[mark..], h, characters.value);
      assert r.Ok? ==> body[|body| - |r.value.1|..] == body[mark..][|body| - mark - |r.value.1|..];
      r
  }

  /** The tiles: `2 * width * height` bytes after the characters, a slice
      that stops at the end of the bytes; then the lines are written, and
      `range` with a step of width 0 raises ValueError. */
  function DecodeTiles(tail: seq<byte>, h: seq<nat>, characters: seq<int>): (r: Result<(seq<seq<int>>, seq<byte>)>)
    requires |h| == 6
    ensures r.Err? ==> r.error == StructError || r.error == ValueError
    ensures r.Ok? ==> |r.value.1| <= |tail| && tail[|tail| - |r.value.1|..] == r.value.1
  {
    var width, height := h[0], h[1];
    var end := Min(2 * (width * height), |tail|);
    var tiles := Unpack(tail[..end], width * height);
    if tiles.Err? then Err(tiles.error)
    else if width == 0 then Err(ValueError)
    else Ok(([h] + Lines(Chunks(characters, 3)) + Lines(Chunks(tiles.value, width)), tail[end..]))
  }

  /** Lines written before what a later pass writes or raises. */
  function Then(lines: seq<seq<int>>, later: Result<seq<seq<int>>>): Result<seq<seq<int>>>
  {
    match later
    case Err(e) => Err(e)
    case Ok(x) => Ok(lines + x)
  }

  lemma ThenAssoc(a: seq<seq<int>>, b: seq<seq<int>>, later: Result<seq<seq<int>>>)
    ensures Then(a, Then(b, later)) == Then(a + b, later)
  {
    if later.Ok? {
      assert a + (b + later.value) == (a + b) + later.value;
    }
  }

  /** The lines of levels.txt the script writes, or the exception it
      raises. */
  function LevelsText(bs: seq<byte>): Result<seq<seq<int>>>
    decreases |bs|
  {
    if bs == [] then Ok([])
    else
      var level := DecodeLevel(bs);
      if level.Err? then Err(level.error)
      else Then(level.value.0, LevelsText(level.value.1))
  }

  lemma LevelsTextFails(bs: seq<byte>, e: Error)
    requires bs != [] && DecodeLevel(bs) == Err(e)
    ensures LevelsText(bs) == Err(e)
  {
  }

  lemma LevelsTextStep(bs: seq<byte>, lines: seq<seq<int>>, rest: seq<byte>)
    requires bs != [] && DecodeLevel(bs) == Ok((lines, rest))
    ensures LevelsText(bs) == Then(lines, LevelsText(rest))
  {
  }

  /** The script: `while len(level_bytes) > 0`, one level per pass. */
  method LevelsToText(levelBytes: seq<byte>) returns (r: Result<seq<seq<int>>>)
    ensures r == LevelsText(levelBytes)
  {
    var out: seq<seq<int>> := [];
    var bs := levelBytes;
    assert Then([], LevelsText(bs)) == LevelsText(bs) by {
      if LevelsText(bs).Ok? {
        assert [] + LevelsText(bs).value == LevelsText(bs).value;
      }
    }
    while |bs| > 0
      invariant LevelsText(levelBytes) == Then(out, LevelsText(bs))
      decreases |bs|
    {
      var level := DecodeLevel(bs);
      if level.Err? {
        LevelsTextFails(bs, level.error);
        return Err(level.error);
      }
      var (lines, rest) := level.value;
      LevelsTextStep(bs, lines, rest);
      ThenAssoc(out, lines, LevelsText(rest));
      out := out + lines;
      bs := rest;
    }
    assert out + [] == out;
    r := Ok(out);
  }

  // ---------------------------------------------------------------------
  // Decoding what the encoder writes

  /** The lines of a level: its header, its characters three to a line and
      its tiles a row to a line. */
  function LevelLines(l: TextLevel): seq<seq<int>>
    requires Encodable(l) && l.header[0] > 0
  {
    [l.header] + Lines(Chunks(l.characters, 3)) + Lines(Chunks(l.tiles, l.header[0]))
  }

  predicate AllDecodable(ls: seq<TextLevel>)
  {
    forall i :: 0 <= i < |ls| ==> Encodable(ls[i]) && ls[i].header[0] > 0
  }

  function AllLines(ls: seq<TextLevel>): seq<seq<int>>
    requires AllDecodable(ls)
  {
    if ls == [] then [] else LevelLines(ls[0]) + AllLines(ls[1..])
  }

  /** A level's lines hold its tokens; there is one line for the header,
      one per character (or an empty one) and one per row of tiles (or an
      empty one), each row `width` tiles long. */
  lemma LevelLinesShape(l: TextLevel)
    requires Encodable(l) && l.header[0] > 0
    ensures Flatten(LevelLines(l)) == LevelTokens(l)
    ensures |LevelLines(l)| == 1 + Max(1, l.header[5]) + Max(1, l.header[1])
    ensures forall i :: 1 + Max(1, l.header[5]) <= i < |LevelLines(l)| && l.header[1] > 0
                        ==> |LevelLines(l)[i]| == l.header[0]
  {
    var w, h, n := l.header[0], l.header[1], l.header[5];
    var cs, ts := Lines(Chunks(l.characters, 3)), Lines(Chunks(l.tiles, w));
    FlattenChunks(l.characters, 3);
    FlattenChunks(l.tiles, w);
    ChunksShape(l.characters, 3, n);
    ChunksShape(l.tiles, w, h);
    FlattenAppend([l.header] + cs, ts);
    FlattenAppend([l.header], cs);
    assert Flatten([l.header]) == l.header + Flatten([]);
  }

  /** The tokens of all the lines are the tokens of the levels. */
  lemma {:induction false} AllLinesTokens(ls: seq<TextLevel>)
    requires AllDecodable(ls)
    ensures Flatten(AllLines(ls)) == Tokens(ls)
  {
    if ls != [] {
      LevelLinesShape(ls[0]);
      FlattenAppend(LevelLines(ls[0]), AllLines(ls[1..]));
      AllLinesTokens(ls[1..]);
    }
  }

  lemma TilesOf(tb: seq<byte>, rest: seq<byte>, h: seq<nat>, c: seq<int>, t: seq<int>)
    requires |h| == 6 && |t| == h[0] * h[1] && |tb| == 2 * |t| && Values(tb, 2) == t
    ensures DecodeTiles(tb + rest, h, c)
            == if h[0] == 0 then Err(ValueError) else Ok(([h] + Lines(Chunks(c, 3)) + Lines(Chunks(t, h[0])), rest))
  {
    assert (tb + rest)[..|tb|] == tb && (tb + rest)[|tb|..] == rest;
  }

  lemma CharactersOf(cb: seq<byte>, more: seq<byte>, h: seq<nat>, c: seq<int>)
    requires |h| == 6 && |c| == 3 * h[5] && |cb| == 2 * |c| && Values(cb, 2) == c
    ensures DecodeCharacters(cb + more, h) == DecodeTiles(more, h, c)
  {
    assert (cb + more)[..|cb|] == cb && (cb + more)[|cb|..] == more;
  }

  lemma HeaderOf(hb: seq<byte>, more: seq<byte>, h: seq<nat>)
    requires |hb| == 12 && |h| == 6 && Values(hb, 2) == h
    ensures DecodeLevel(hb + more) == DecodeCharacters(more, h)
  {
    assert (hb + more)[..12] == hb && (hb + more)[12..] == more;
    ValuesRoundTrip(hb, 2, 6);
  }

  /** The bytes of a level, followed by more, decode as the level's values
      and leave what follows; a width of 0 raises ValueError. */
  lemma DecodeLevelBytes(l: TextLevel, rest: seq<byte>)
    requires Encodable(l)
    ensures DecodeLevel(LevelBytes(l) + rest)
            == if l.header[0] == 0 then Err(ValueError)
               else Ok(([l.header] + Lines(Chunks(l.characters, 3)) + Lines(Chunks(l.tiles, l.header[0])), rest))
  {
    assert Pow256(2) == 0x1_0000;
    var hb, cb, tb := Fields(l.header, 2).value, Fields(l.characters, 2).value, Fields(l.tiles, 2).value;
    assert LevelBytes(l) + rest == hb + (cb + (tb + rest));
    FieldsRoundTrip(l.header, 2);
    FieldsRoundTrip(l.characters, 2);
    FieldsRoundTrip(l.tiles, 2);
    var h: seq<nat> := l.header;
    HeaderOf(hb, cb + (tb + rest), h);
    CharactersOf(cb, tb + rest, h, l.characters);
    TilesOf(tb, rest, h, l.characters, l.tiles);
  }

  /** The bytes of a level, followed by more, decode as its lines and leave
      exactly what follows. */
  lemma DecodeLevelOf(l: TextLevel, rest: seq<byte>)
    requires Encodable(l) && l.header[0] > 0
    ensures DecodeLevel(LevelBytes(l) + rest) == Ok((LevelLines(l), rest))
  {
    DecodeLevelBytes(l, rest);
  }

  /** What the encoder writes for levels with a width decodes to their
      lines, whose tokens are the tokens the encoder read. */
  lemma {:induction false} DecodeAfterEncode(ls: seq<TextLevel>)
    requires AllDecodable(ls)
    ensures AllEncodable(ls) && LevelsBinary(Tokens(ls)) == Ok(FileBytes(ls))
    ensures LevelsText(FileBytes(ls)) == Ok(AllLines(ls))
    ensures Flatten(AllLines(ls)) == Tokens(ls)
  {
    assert AllEncodable(ls);
    EncodeLevels(ls);
    AllLinesTokens(ls);
    DecodeLevels(ls);
  }

  lemma {:induction false} DecodeLevels(ls: seq<TextLevel>)
    requires AllDecodable(ls)
    ensures AllEncodable(ls) && LevelsText(FileBytes(ls)) == Ok(AllLines(ls))
  {
    assert AllEncodable(ls);
    if ls != [] {
      assert Encodable(ls[0]) && ls[0].header[0] > 0 && AllDecodable(ls[1..]);
      var bs := FileBytes(ls);
      assert |LevelBytes(ls[0])| >= 12;
      DecodeLevelOf(ls[0], FileBytes(ls[1..]));
      LevelsTextStep(bs, LevelLines(ls[0]), FileBytes(ls[1..]));
      DecodeLevels(ls[1..]);
    }
  }

  /** A level of width 0 encodes, but its decoding raises ValueError. */
  lemma ZeroWidthRaises(l: TextLevel, rest: seq<byte>)
    requires Encodable(l) && l.header[0] == 0
    ensures DecodeLevel(LevelBytes(l) + rest) == Err(ValueError)
  {
    DecodeLevelBytes(l, rest);
  }
}
