// The tile/action maps encoder (sample-assets/generators/maps_to_bin.py):
// one group per matching text file, one pair of two-byte values per line,
// and the round trip through the engine's tile-to-solid mapper loader.

module MapsToBin {
  import opened Bytes
  import opened StreamReader
  import opened Generators
  import opened UnorderedMap
  import opened TileSolidMapper
  import opened LoaderTileSolidMapper

  /** One line: unpacking it into two values raises ValueError unless it
      holds exactly two; each is then written on two bytes. */
  function PairBytes(line: seq<int>): (r: Result<seq<byte>>)
    ensures r.Ok? ==> |r.value| == 4
  {
    if |line| != 2 then Err(ValueError) else Cat(ToBytes(line[0], 2), ToBytes(line[1], 2))
  }

  /** The pairs of the lines, in order. */
  function PairsBytes(lines: seq<seq<int>>): (r: Result<seq<byte>>)
    ensures r.Ok? ==> |r.value| == 4 * |lines|
  {
    if lines == [] then Ok([]) else Cat(PairBytes(lines[0]), PairsBytes(lines[1..]))
  }

  /** A group: the first digit of the file name and the number of lines,
      each on two bytes, then the pairs; 4 + 4 * count bytes in all. */
  function GroupBytes(file: TextFile): (r: Result<seq<byte>>)
    ensures r.Ok? ==> |r.value| == 4 + 4 * |file.lines|
  {
    Cat(Cat(GroupIndexBytes(file.name), ToBytes(|file.lines|, 2)), PairsBytes(file.lines))
  }

  /** `maps_to_binary`: the groups of the files whose path matches, in the
      order of `files`. */
  function MapsBinary(files: seq<TextFile>, matches: string -> bool): Result<seq<byte>>
  {
    DirectoryBinary(files, matches, GroupBytes)
  }

  // ---------------------------------------------------------------------
  // What encodes

  /** A line that encodes: two values, each below 65536. */
  predicate EncodablePair(line: seq<int>)
  {
    |line| == 2 && 0 <= line[0] < 0x1_0000 && 0 <= line[1] < 0x1_0000
  }

  /** A line encodes exactly when it is a pair of two-byte values; a line of
      another length raises ValueError, a value out of range OverflowError. */
  lemma PairEncodes(line: seq<int>)
    ensures PairBytes(line).Ok? <==> EncodablePair(line)
    ensures PairBytes(line).Err? ==> PairBytes(line).error == if |line| != 2 then ValueError else OverflowError
  {
    assert Pow256(2) == 0x1_0000;
  }

  /** The pairs of a file encode exactly when every line does. */
  lemma {:induction false} PairsEncode(lines: seq<seq<int>>)
    ensures PairsBytes(lines).Ok? <==> forall k :: 0 <= k < |lines| ==> EncodablePair(lines[k])
  {
    if lines != [] {
      PairEncodes(lines[0]);
      PairsEncode(lines[1..]);
      assert forall k :: 1 <= k < |lines| ==> lines[k] == lines[1..][k - 1];
    }
  }

  /** A group encodes exactly when the file name has a digit, there are
      fewer than 65536 lines and every line is a pair that encodes. */
  lemma GroupEncodes(file: TextFile)
    ensures GroupBytes(file).Ok?
            <==> FirstDigit(file.name).Some? && |file.lines| < 0x1_0000
                 && forall k :: 0 <= k < |file.lines| ==> EncodablePair(file.lines[k])
  {
    PairsEncode(file.lines);
    assert Pow256(2) == 0x1_0000;
  }

  // ---------------------------------------------------------------------
  // The loops of the generator

  /** The body of the loop over the lines of a file. */
  method WritePair(line: seq<int>) returns (r: Result<seq<byte>>)
    ensures r == PairBytes(line)
  {
    if |line| != 2 {
      return Err(ValueError);
    }
    var action := ToBytes(line[0], 2);
    if action.Err? {
      return Err(action.error);
    }
    var spriteIndex := ToBytes(line[1], 2);
    if spriteIndex.Err? {
      return Err(spriteIndex.error);
    }
    r := Ok(action.value + spriteIndex.value);
  }

  /** The body of the loop over the files, for a file that matches. */
  method WriteGroup(file: TextFile) returns (r: Result<seq<byte>>)
    ensures r == GroupBytes(file)
  {
    var index := GroupIndexBytes(file.name);
    if index.Err? {
      return Err(index.error);
    }
    var count := ToBytes(|file.lines|, 2);
    if count.Err? {
      return Err(count.error);
    }
    var out := index.value + count.value;
    var k := 0;
    assert file.lines[k..] == file.lines;
    CatEmpty(PairsBytes(file.lines));
    while k < |file.lines|
      invariant 0 <= k <= |file.lines|
      invariant GroupBytes(file) == Cat(Ok(out), PairsBytes(file.lines[k..]))
    {
      assert file.lines[k..][1..] == file.lines[k + 1..];
      var pair := WritePair(file.lines[k]);
      CatAssoc(Ok(out), pair, PairsBytes(file.lines[k + 1..]));
      if pair.Err? {
        return Err(pair.error);
      }
      out := out + pair.value;
      k := k + 1;
    }
    assert out + [] == out;
    r := Ok(out);
  }

  /** `maps_to_binary` over the files of the directory, in the order the
      directory lists them. */
  method MapsToBinary(files: seq<TextFile>, matches: string -> bool) returns (r: Result<seq<byte>>)
    ensures r == MapsBinary(files, matches)
  {
    var out: seq<byte> := [];
    var k := 0;
    CatEmpty(MapsBinary(files, matches));
    while k < |files|
      invariant 0 <= k <= |files|
      invariant MapsBinary(files, matches) == Cat(Ok(out), MapsBinary(files[k..], matches))
    {
      assert files[k..][1..] == files[k + 1..];
      if matches(files[k].path) {
        var group := WriteGroup(files[k]);
        CatAssoc(Ok(out), group, MapsBinary(files[k + 1..], matches));
        if group.Err? {
          return Err(group.error);
        }
        out := out + group.value;
      } else {
        CatEmpty(MapsBinary(files[k + 1..], matches));
      }
      k := k + 1;
    }
    assert out + [] == out;
    r := Ok(out);
  }

  // ---------------------------------------------------------------------
  // Round trip through LoaderTileSolidMapper::load

  predicate EncodedFile(file: TextFile)
  {
    GroupBytes(file).Ok?
  }

  predicate EncodedFiles(files: seq<TextFile>)
  {
    forall k :: 0 <= k < |files| ==> EncodedFile(files[k])
  }

  /** The (first, second) pairs of the lines. */
  function PairsOf(lines: seq<seq<int>>): (r: seq<(int, int)>)
    requires forall k :: 0 <= k < |lines| ==> EncodablePair(lines[k])
    ensures |r| == |lines|
  {
    if lines == [] then []
    else
      assert forall k :: 1 <= k < |lines| ==> lines[1..][k - 1] == lines[k];
      assert EncodablePair(lines[0]);
      [(lines[0][0], lines[0][1])] + PairsOf(lines[1..])
  }

  /** The mapper of a file: its pairs assigned in order. */
  function MapperOf(file: TextFile): Mapper
    requires EncodedFile(file)
  {
    GroupEncodes(file);
    Mapper(AssignAll(map[], PairsOf(file.lines)))
  }

  /** The mappers of the files, a group index met again keeping its first
      mapper. */
  function MappersOf(acc: map<int, Mapper>, files: seq<TextFile>): map<int, Mapper>
    requires EncodedFiles(files)
    decreases |files|
  {
    if files == [] then acc
    else
      assert EncodedFile(files[0]);
      GroupEncodes(files[0]);
      assert forall k :: 1 <= k < |files| ==> files[1..][k - 1] == files[k];
      MappersOf(Emplace(acc, FirstDigit(files[0].name).value, MapperOf(files[0])), files[1..])
  }

  /** The pairs of the lines: the first line's, then the others'. */
  lemma PairsBytesCons(lines: seq<seq<int>>, rest: seq<byte>)
    requires lines != [] && PairsBytes(lines).Ok?
    ensures PairBytes(lines[0]).Ok? && PairsBytes(lines[1..]).Ok?
    ensures PairsBytes(lines).value + rest == PairBytes(lines[0]).value + (PairsBytes(lines[1..]).value + rest)
  {
    var first, others := PairBytes(lines[0]), PairsBytes(lines[1..]);
    assert PairsBytes(lines) == Cat(first, others);
    AppendAssoc(first.value, others.value, rest);
  }

  /** A pair written on four bytes reads back as the line's two values. */
  lemma ReadEncodedPair(line: seq<int>, rest: seq<byte>)
    requires PairBytes(line).Ok?
    ensures EncodablePair(line)
    ensures U16(PairBytes(line).value + rest) == line[0]
    ensures U16(Rest(PairBytes(line).value + rest, 2)) == line[1]
    ensures Rest(PairBytes(line).value + rest, 4) == rest
  {
    PairEncodes(line);
    var action, sprite := ToBytes(line[0], 2).value, ToBytes(line[1], 2).value;
    var bs := PairBytes(line).value + rest;
    assert bs == action + (sprite + rest);
    U16OfField(line[0], sprite + rest);
    U16OfField(line[1], rest);
    assert Rest(bs, 2) == sprite + rest;
  }

  /** The pairs of the lines read back as the lines, leaving what follows. */
  lemma {:induction false} ReadEncodedPairs(lines: seq<seq<int>>, rest: seq<byte>)
    requires PairsBytes(lines).Ok?
    ensures forall k :: 0 <= k < |lines| ==> EncodablePair(lines[k])
    ensures ReadPairs(PairsBytes(lines).value + rest, |lines|) == PairsOf(lines)
    ensures Rest(PairsBytes(lines).value + rest, 4 * |lines|) == rest
  {
    PairsEncode(lines);
    if lines != [] {
      PairsBytesCons(lines, rest);
      assert forall k :: 1 <= k < |lines| ==> lines[1..][k - 1] == lines[k];
      ReadEncodedPairs(lines[1..], rest);
      ReadEncodedPairsCons(lines, rest);
    } else {
      assert [] + rest == rest;
    }
  }

  /** The step of the induction: the first pair, then the others. */
  lemma ReadEncodedPairsCons(lines: seq<seq<int>>, rest: seq<byte>)
    requires lines != [] && PairsBytes(lines).Ok?
    requires forall k :: 0 <= k < |lines| ==> EncodablePair(lines[k])
    requires PairBytes(lines[0]).Ok? && PairsBytes(lines[1..]).Ok?
    requires ReadPairs(PairsBytes(lines[1..]).value + rest, |lines| - 1) == PairsOf(lines[1..])
    requires Rest(PairsBytes(lines[1..]).value + rest, 4 * (|lines| - 1)) == rest
    ensures ReadPairs(PairsBytes(lines).value + rest, |lines|) == PairsOf(lines)
    ensures Rest(PairsBytes(lines).value + rest, 4 * |lines|) == rest
  {
    PairsBytesCons(lines, rest);
    var pair, others := PairBytes(lines[0]).value, PairsBytes(lines[1..]).value;
    var bs := pair + (others + rest);
    ReadEncodedPair(lines[0], others + rest);
    RestRest(bs, 4, 4 * (|lines| - 1));
  }

  /** One group read by the loader: index and size on two bytes each, then
      the group's pairs. */
  lemma MappersReadGroup(index: seq<byte>, size: seq<byte>, body: seq<byte>, acc: map<int, Mapper>)
    requires |index| == 2 && |size| == 2
    ensures var (mapper, rest) := GroupRead(body, LittleEndian(size));
      MappersRead(index + size + body, acc) == MappersRead(rest, Emplace(acc, LittleEndian(index), mapper))
  {
    var bs := index + size + body;
    U16IsRead(bs);
    U16IsRead(Rest(bs, 2));
    assert Padded(bs, 2) == index && Rest(bs, 2) == size + body;
    assert Padded(size + body, 2) == size && Rest(size + body, 2) == body;
    RestRest(bs, 2, 2);
  }

  /** The bytes of a group: its index, its size and its pairs. */
  lemma GroupBytesParts(file: TextFile, tail: seq<byte>)
    requires GroupBytes(file).Ok?
    ensures GroupIndexBytes(file.name).Ok? && ToBytes(|file.lines|, 2).Ok? && PairsBytes(file.lines).Ok?
    ensures GroupBytes(file).value + tail
            == GroupIndexBytes(file.name).value + ToBytes(|file.lines|, 2).value + (PairsBytes(file.lines).value + tail)
  {
    var head := Cat(GroupIndexBytes(file.name), ToBytes(|file.lines|, 2));
    assert GroupBytes(file) == Cat(head, PairsBytes(file.lines));
    AppendAssoc(head.value, PairsBytes(file.lines).value, tail);
  }

  /** Loading one encoded group emplaces its mapper under the group index
      and goes on with what follows. */
  lemma LoadEncodedGroup(file: TextFile, tail: seq<byte>, acc: map<int, Mapper>)
    requires EncodedFile(file)
    ensures FirstDigit(file.name).Some?
    ensures MappersRead(GroupBytes(file).value + tail, acc)
            == MappersRead(tail, Emplace(acc, FirstDigit(file.name).value, MapperOf(file)))
  {
    GroupEncodes(file);
    GroupBytesParts(file, tail);
    var index, size := GroupIndexBytes(file.name).value, ToBytes(|file.lines|, 2).value;
    var pairs := PairsBytes(file.lines).value;
    MappersReadGroup(index, size, pairs + tail, acc);
    ReadEncodedPairs(file.lines, tail);
  }

  /** Loading what the encoder wrote gives, for each file, the map of its
      pairs under the first digit of its name. */
  lemma {:induction false} LoadAfterEncode(files: seq<TextFile>, acc: map<int, Mapper>)
    requires EncodedFiles(files)
    ensures MapsBinary(files, _ => true).Ok?
    ensures MappersRead(MapsBinary(files, _ => true).value, acc) == MappersOf(acc, files)
  {
    var all: string -> bool := _ => true;
    if files != [] {
      var file, others := files[0], files[1..];
      assert EncodedFile(file);
      assert forall k :: 0 <= k < |others| ==> others[k] == files[k + 1];
      GroupEncodes(file);
      var next := Emplace(acc, FirstDigit(file.name).value, MapperOf(file));
      LoadAfterEncode(others, next);
      var tail := MapsBinary(others, all).value;
      assert MapsBinary(files, all).value == GroupBytes(file).value + tail;
      LoadEncodedGroup(file, tail, acc);
    }
  }

  /** The same for a directory: the files that do not match are skipped. */
  lemma LoadAfterEncodeMatching(files: seq<TextFile>, matches: string -> bool)
    requires forall k :: 0 <= k < |files| && matches(files[k].path) ==> EncodedFile(files[k])
    ensures MapsBinary(files, matches).Ok? && EncodedFiles(Matching(files, matches))
    ensures MappersRead(MapsBinary(files, matches).value, map[]) == MappersOf(map[], Matching(files, matches))
  {
    OnlyMatchingFiles(files, matches, GroupBytes);
    var kept := Matching(files, matches);
    MatchingKeeps(files, matches, EncodedFile);
    SameBinary(kept, matches, GroupBytes);
    LoadAfterEncode(kept, map[]);
  }
}
