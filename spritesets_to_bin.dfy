// The spriteset encoder (assets/spritesets_to_bin.py): each line of
// spritesets.txt, read as whitespace-separated integers, becomes one record
// of spritesets.bin. Fields 0 and 1 (the sprite width and height) take one
// byte each, fields 2 to 7 (the size of the sheet in sprites, the two
// offsets, the gap and the texture index) two bytes each, and fields 8 to 10
// (the colour made transparent) one byte each: 17 bytes for a full line.
// Fields past the eleventh are not written.
//
// The lines are given as the integers `int` makes of their tokens; a token
// that is not an integer is not part of this model.

module SpritesetsToBin {
  import opened Arith
  import opened Bytes

  const RecordSize: nat := 17
  const FieldCount: nat := 11

  /** The number of bytes field i of a line takes. */
  function FieldWidth(i: nat): nat
  {
    if 2 <= i < 8 then 2 else 1
  }

  /** Every field that is written fits its width. */
  predicate Fits(line: seq<int>)
  {
    forall i :: 0 <= i < |line| && i < FieldCount ==> 0 <= line[i] < Pow256(FieldWidth(i))
  }

  /** The fields of a run, each below 256^width, as Fields states it. */
  lemma RunFits(line: seq<int>, lo: nat, hi: nat, width: nat)
    requires lo <= hi <= |line| && hi <= FieldCount
    requires forall i :: lo <= i < hi ==> FieldWidth(i) == width
    ensures Fields(line[lo..hi], width).Ok? <==> forall i :: lo <= i < hi ==> 0 <= line[i] < Pow256(FieldWidth(i))
  {
    var run := line[lo..hi];
    if !Fields(run, width).Ok? {
      var k :| 0 <= k < |run| && !(0 <= run[k] < Pow256(width));
      assert run[k] == line[lo + k];
    } else {
      forall i | lo <= i < hi
        ensures 0 <= line[i] < Pow256(FieldWidth(i))
      {
        assert line[i] == run[i - lo];
      }
    }
  }

  /** The record of one line: the three runs of fields, each written
      through `to_bytes`, which raises OverflowError for a value that does
      not fit (negative ones included). A line of at least eleven fields
      makes 17 bytes. */
  function SpritesetBytes(line: seq<int>): (r: Result<seq<byte>>)
    ensures r.Ok? <==> Fits(line)
    ensures r.Err? ==> r.error == OverflowError
    ensures r.Ok? && |line| >= FieldCount ==> |r.value| == RecordSize
  {
    var n := |line|;
    var a, b := Min(2, n), Min(8, n);
    var c := Min(11, n);
    RunFits(line, 0, a, 1);
    RunFits(line, a, b, 2);
    RunFits(line, b, c, 1);
    Cat(Fields(line[..a], 1), Cat(Fields(line[a..b], 2), Fields(line[b..c], 1)))
  }

  /** Fields past the eleventh change nothing. */
  lemma ExtraFieldsIgnored(line: seq<int>)
    requires |line| >= FieldCount
    ensures SpritesetBytes(line) == SpritesetBytes(line[..FieldCount])
  {
    var short := line[..FieldCount];
    assert short[..2] == line[..2] && short[2..8] == line[2..8] && short[8..11] == line[8..11];
  }

  /** The file the script writes for the lines, in line order, or the
      exception it raises. */
  function SpritesetsBinary(lines: seq<seq<int>>): Result<seq<byte>>
  {
    if lines == [] then Ok([]) else Cat(SpritesetBytes(lines[0]), SpritesetsBinary(lines[1..]))
  }

  /** A line written in full. */
  predicate WellFormed(line: seq<int>)
  {
    |line| >= FieldCount && Fits(line)
  }

  /** Lines written in full make 17 bytes each. */
  lemma {:induction false} FileLength(lines: seq<seq<int>>)
    requires forall i :: 0 <= i < |lines| ==> WellFormed(lines[i])
    ensures SpritesetsBinary(lines).Ok?
    ensures |SpritesetsBinary(lines).value| == RecordSize * |lines|
  {
    if lines != [] {
      assert WellFormed(lines[0]);
      FileLength(lines[1..]);
    }
  }

  /** The file from line k on: line k's record, then the rest. */
  lemma SpritesetsBinaryStep(lines: seq<seq<int>>, k: nat)
    requires k < |lines|
    ensures SpritesetsBinary(lines[k..]) == Cat(SpritesetBytes(lines[k]), SpritesetsBinary(lines[k + 1..]))
  {
    assert lines[k..][1..] == lines[k + 1..];
  }

  /** The script: each line, its three runs of fields written in turn. */
  method SpritesetsToBinary(lines: seq<seq<int>>) returns (r: Result<seq<byte>>)
    ensures r == SpritesetsBinary(lines)
  {
    var out: seq<byte> := [];
    CatEmpty(SpritesetsBinary(lines));
    for k := 0 to |lines|
      invariant SpritesetsBinary(lines) == Cat(Ok(out), SpritesetsBinary(lines[k..]))
    {
      var line := lines[k];
      SpritesetsBinaryStep(lines, k);
      CatAssoc(Ok(out), SpritesetBytes(line), SpritesetsBinary(lines[k + 1..]));
      var n := |line|;
      var a, b, c := Min(2, n), Min(8, n), Min(11, n);
      var sizes := WriteFields(line[..a], 1);
      var sheet := WriteFields(line[a..b], 2);
      var alpha := WriteFields(line[b..c], 1);
      assert SpritesetBytes(line) == Cat(sizes, Cat(sheet, alpha));
      if sizes.Err? || sheet.Err? || alpha.Err? {
        var e := if sizes.Err? then sizes.error else if sheet.Err? then sheet.error else alpha.error;
        return Err(e);
      }
      AppendAssoc(sizes.value, sheet.value, alpha.value);
      AppendAssoc(out, sizes.value + sheet.value, alpha.value);
      out := out + (sizes.value + sheet.value) + alpha.value;
    }
    assert lines[|lines|..] == [];
    assert out + [] == out;
    r := Ok(out);
  }
}
