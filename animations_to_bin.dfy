// The animations encoder (sample-assets/generators/animations_to_bin.py):
// one group per matching text file, one record per line "d f1 .. fn", and
// the round trip through the engine's animation loader.

module AnimationsToBin {
  import opened Bytes
  import opened StreamReader
  import opened Generators
  import opened AnimationPlayer
  import opened UnorderedMap

  /** One line "d f1 .. fn": n on one byte (the length of the line minus the
      duration), d on one byte, then each frame on two bytes. An empty line
      makes n = -1, which `to_bytes` refuses. */
  function RecordBytes(line: seq<int>): (r: Result<seq<byte>>)
    ensures r.Ok? ==> |r.value| == 2 + 2 * (|line| - 1)
  {
    if line == [] then Err(OverflowError)
    else Cat(ToBytes(|line| - 1, 1), Cat(ToBytes(line[0], 1), Fields(line[1..], 2)))
  }

  /** The records of the lines, in order. */
  function LinesBytes(lines: seq<seq<int>>): (r: Result<seq<byte>>)
  {
    if lines == [] then Ok([]) else Cat(RecordBytes(lines[0]), LinesBytes(lines[1..]))
  }

  /** A group: the first digit of the file name and the number of lines,
      each on two bytes, then the records. */
  function GroupBytes(file: TextFile): Result<seq<byte>>
  {
    Cat(Cat(GroupIndexBytes(file.name), ToBytes(|file.lines|, 2)), LinesBytes(file.lines))
  }

  /** `animations_to_binary`: the groups of the files whose path matches, in
      the order of `files`. */
  function AnimationsBinary(files: seq<TextFile>, matches: string -> bool): Result<seq<byte>>
  {
    DirectoryBinary(files, matches, GroupBytes)
  }

  // ---------------------------------------------------------------------
  // What encodes

  /** A line that encodes: at most 255 frames, a duration and frames that
      fit their fields. */
  predicate EncodableLine(line: seq<int>)
  {
    1 <= |line| <= 256 && 0 <= line[0] < 256 && forall i :: 1 <= i < |line| ==> 0 <= line[i] < 0x1_0000
  }

  /** A record encodes exactly when its line does. */
  lemma RecordEncodes(line: seq<int>)
    ensures RecordBytes(line).Ok? <==> EncodableLine(line)
  {
    if line != [] {
      var frames := line[1..];
      assert forall i :: 1 <= i < |line| ==> line[i] == frames[i - 1];
      assert Pow256(1) == 256 && Pow256(2) == 0x1_0000;
    }
  }

  /** The records of a file encode exactly when every line does. */
  lemma {:induction false} LinesEncode(lines: seq<seq<int>>)
    ensures LinesBytes(lines).Ok? <==> forall k :: 0 <= k < |lines| ==> EncodableLine(lines[k])
  {
    if lines != [] {
      RecordEncodes(lines[0]);
      LinesEncode(lines[1..]);
      assert forall k :: 1 <= k < |lines| ==> lines[k] == lines[1..][k - 1];
    }
  }

  /** A group encodes exactly when the file name has a digit, there are
      fewer than 65536 lines and every line encodes. */
  lemma GroupEncodes(file: TextFile)
    ensures GroupBytes(file).Ok?
            <==> FirstDigit(file.name).Some? && |file.lines| < 0x1_0000
                 && forall k :: 0 <= k < |file.lines| ==> EncodableLine(file.lines[k])
  {
    LinesEncode(file.lines);
    assert Pow256(2) == 0x1_0000;
  }

  // ---------------------------------------------------------------------
  // The loops of the generator

  /** The body of the loop over the lines of a file. */
  method WriteRecord(line: seq<int>) returns (r: Result<seq<byte>>)
    ensures r == RecordBytes(line)
  {
    if line == [] {
      return Err(OverflowError);
    }
    var count := ToBytes(|line| - 1, 1);
    if count.Err? {
      return Err(count.error);
    }
    var duration := ToBytes(line[0], 1);
    if duration.Err? {
      return Err(duration.error);
    }
    var frames := WriteFields(line[1..], 2);
    if frames.Err? {
      return Err(frames.error);
    }
    assert count.value + (duration.value + frames.value) == count.value + duration.value + frames.value;
    r := Ok(count.value + duration.value + frames.value);
  }

  /** The body of the loop over the files, for a file that matches. */
  method WriteGroup(file: TextFile) returns (r: Result<seq<byte>>)
    ensures r == GroupBytes(file)
  {
    var index := GroupIndexBytes(file.name);
    if index.Err? {
      return Err(index.error);
    }
    var count := ToBytes(|file.lines|, 2);
    if count.Err? {
      return Err(count.error);
    }
    var out := index.value + count.value;
    var k := 0;
    assert file.lines[k..] == file.lines;
    CatEmpty(LinesBytes(file.lines));
    while k < |file.lines|
      invariant 0 <= k <= |file.lines|
      invariant GroupBytes(file) == Cat(Ok(out), LinesBytes(file.lines[k..]))
    {
      assert file.lines[k..][1..] == file.lines[k + 1..];
      var record := WriteRecord(file.lines[k]);
      CatAssoc(Ok(out), record, LinesBytes(file.lines[k + 1..]));
      if record.Err? {
        return Err(record.error);
      }
      out := out + record.value;
      k := k + 1;
    }
    assert out + [] == out;
    r := Ok(out);
  }

  /** `animations_to_binary` over the files of the directory, in the order
      the directory lists them. */
  method AnimationsToBinary(files: seq<TextFile>, matches: string -> bool) returns (r: Result<seq<byte>>)
    ensures r == AnimationsBinary(files, matches)
  {
    var out: seq<byte> := [];
    var k := 0;
    CatEmpty(AnimationsBinary(files, matches));
    while k < |files|
      invariant 0 <= k <= |files|
      invariant AnimationsBinary(files, matches) == Cat(Ok(out), AnimationsBinary(files[k..], matches))
    {
      assert files[k..][1..] == files[k + 1..];
      if matches(files[k].path) {
        var group := WriteGroup(files[k]);
        CatAssoc(Ok(out), group, AnimationsBinary(files[k + 1..], matches));
        if group.Err? {
          return Err(group.error);
        }
        out := out + group.value;
      } else {
        CatEmpty(AnimationsBinary(files[k + 1..], matches));
      }
      k := k + 1;
    }
    assert out + [] == out;
    r := Ok(out);
  }

  // ---------------------------------------------------------------------
  // Round trip through AnimationPlayerLoader::load

  /** A line with at least one frame: its record has a non-zero period. */
  predicate HasFrames(line: seq<int>)
  {
    |line| >= 2
  }

  predicate AnimatedFile(file: TextFile)
  {
    GroupBytes(file).Ok? && forall k :: 0 <= k < |file.lines| ==> HasFrames(file.lines[k])
  }

  predicate AnimatedFiles(files: seq<TextFile>)
  {
    forall k :: 0 <= k < |files| ==> AnimatedFile(files[k])
  }

  /** The animation the loader builds from a line: the frames, their number
      as the period and the duration. */
  function AnimationOf(line: seq<int>): (a: Animation)
    requires EncodableLine(line) && HasFrames(line)
    ensures WellFormedRecord(a)
  {
    Animation(line[1..], |line| - 1, line[0])
  }

  function AnimationsOf(lines: seq<seq<int>>): (r: seq<Animation>)
    requires forall k :: 0 <= k < |lines| ==> EncodableLine(lines[k]) && HasFrames(lines[k])
    ensures |r| == |lines| && WellFormedRecords(r)
  {
    if lines == [] then []
    else
      assert forall k :: 1 <= k < |lines| ==> lines[1..][k - 1] == lines[k];
      [AnimationOf(lines[0])] + AnimationsOf(lines[1..])
  }

  /** The map of a group, animations keyed by their first sprite. */
  function GroupOf(file: TextFile): map<int, Animation>
    requires AnimatedFile(file)
  {
    GroupEncodes(file);
    EmplaceAll(map[], AnimationsOf(file.lines))
  }

  /** The players of the groups, a group index met again keeping its first
      group. */
  function PlayersOf(acc: map<int, map<int, Animation>>, files: seq<TextFile>): map<int, map<int, Animation>>
    requires AnimatedFiles(files)
    decreases |files|
  {
    if files == [] then acc
    else
      assert AnimatedFile(files[0]);
      GroupEncodes(files[0]);
      assert forall k :: 1 <= k < |files| ==> files[1..][k - 1] == files[k];
      PlayersOf(Emplace(acc, FirstDigit(files[0].name).value, GroupOf(files[0])), files[1..])
  }

  /** A value written on one byte is that byte. */
  lemma OneByte(v: int)
    requires 0 <= v < 256
    ensures ToBytes(v, 1) == Ok([v])
  {
    assert Pow256(1) == 256;
    assert LittleEndianBytes(v / 256, 0) == [];
    assert LittleEndianBytes(v, 1) == [v % 256] + LittleEndianBytes(v / 256, 0) == [v];
  }

  /** The record of a line with frames reads back as its animation. */
  lemma ReadEncodedRecord(line: seq<int>, rest: seq<byte>)
    requires RecordBytes(line).Ok? && HasFrames(line)
    ensures EncodableLine(line)
    ensures ReadRecord(RecordBytes(line).value + rest) == Ok((AnimationOf(line), rest))
  {
    RecordEncodes(line);
    var frames := line[1..];
    OneByte(|line| - 1);
    OneByte(line[0]);
    var body := Fields(frames, 2).value;
    assert RecordBytes(line).value == [|line| - 1, line[0]] + body;
    var bs := RecordBytes(line).value + rest;
    assert bs == [|line| - 1, line[0]] + (body + rest);
    SplitAppend([|line| - 1, line[0]], body + rest);
    ReadU16sOfFields(frames, rest);
  }

  /** A record of a line holding only a duration has period 0: the loader
      indexes an empty vector, which is undefined. */
  lemma DurationOnlyLineIsUndefined(duration: int, rest: seq<byte>)
    requires 0 <= duration < 256
    ensures RecordBytes([duration]).Ok?
    ensures ReadRecord(RecordBytes([duration]).value + rest) == Err(Undefined)
  {
    OneByte(0);
    OneByte(duration);
  }

  /** The records of the lines: the first line's, then the others'. */
  lemma LinesBytesCons(lines: seq<seq<int>>, rest: seq<byte>)
    requires lines != [] && LinesBytes(lines).Ok?
    ensures RecordBytes(lines[0]).Ok? && LinesBytes(lines[1..]).Ok?
    ensures LinesBytes(lines).value + rest == RecordBytes(lines[0]).value + (LinesBytes(lines[1..]).value + rest)
  {
    var first, others := RecordBytes(lines[0]), LinesBytes(lines[1..]);
    assert LinesBytes(lines) == Cat(first, others);
    AppendAssoc(first.value, others.value, rest);
  }

  /** The records of the lines read back as their animations, in order. */
  lemma {:induction false} GroupRecordsOfLines(lines: seq<seq<int>>, rest: seq<byte>)
    requires LinesBytes(lines).Ok? && forall k :: 0 <= k < |lines| ==> HasFrames(lines[k])
    ensures forall k :: 0 <= k < |lines| ==> EncodableLine(lines[k])
    ensures GroupRecords(LinesBytes(lines).value + rest, |lines|) == Ok((AnimationsOf(lines), rest))
  {
    LinesEncode(lines);
    if lines != [] {
      LinesBytesCons(lines, rest);
      assert forall k :: 1 <= k < |lines| ==> lines[1..][k - 1] == lines[k];
      GroupRecordsOfLines(lines[1..], rest);
      GroupRecordsOfLinesCons(lines, rest);
    } else {
      assert [] + rest == rest;
    }
  }

  /** The step of the induction: the first record, then the others. */
  lemma GroupRecordsOfLinesCons(lines: seq<seq<int>>, rest: seq<byte>)
    requires lines != [] && LinesBytes(lines).Ok?
    requires forall k :: 0 <= k < |lines| ==> EncodableLine(lines[k]) && HasFrames(lines[k])
    requires LinesBytes(lines[1..]).Ok? && RecordBytes(lines[0]).Ok?
    requires GroupRecords(LinesBytes(lines[1..]).value + rest, |lines| - 1) == Ok((AnimationsOf(lines[1..]), rest))
    ensures GroupRecords(LinesBytes(lines).value + rest, |lines|) == Ok((AnimationsOf(lines), rest))
  {
    LinesBytesCons(lines, rest);
    var record, others := RecordBytes(lines[0]).value, LinesBytes(lines[1..]).value;
    var first := AnimationOf(lines[0]);
    assert AnimationsOf(lines) == [first] + AnimationsOf(lines[1..]);
    ReadEncodedRecord(lines[0], others + rest);
    GroupRecordsStep(record + (others + rest), |lines|, first, others + rest, AnimationsOf(lines[1..]), rest);
  }

  /** One group read by the loader: index and size on two bytes each, then
      the group's records. */
  lemma PlayersReadGroup(index: seq<byte>, size: seq<byte>, body: seq<byte>, acc: map<int, map<int, Animation>>)
    requires |index| == 2 && |size| == 2
    ensures var group := GroupRead(body, LittleEndian(size), map[]);
      PlayersRead(index + size + body, acc)
      == if group.Err? then Err(group.error)
         else PlayersRead(group.value.1, Emplace(acc, LittleEndian(index), group.value.0))
  {
    var bs := index + size + body;
    assert Padded(bs, 2) == index && Rest(bs, 2) == size + body;
    assert Padded(size + body, 2) == size && Rest(size + body, 2) == body;
  }

  /** Loading what the encoder wrote gives, for each matching file, its
      animations keyed by first sprite under the first digit of its name,
      when every line has a frame. */
  lemma {:induction false} LoadAfterEncode(files: seq<TextFile>, acc: map<int, map<int, Animation>>)
    requires AnimatedFiles(files)
    ensures AnimationsBinary(files, _ => true).Ok?
    ensures PlayersRead(AnimationsBinary(files, _ => true).value, acc) == Ok(PlayersOf(acc, files))
  {
    var all: string -> bool := _ => true;
    if files != [] {
      var file, others := files[0], files[1..];
      assert AnimatedFile(file);
      assert forall k :: 0 <= k < |others| ==> others[k] == files[k + 1];
      var next := Emplace(acc, FirstDigit(file.name).value, GroupOf(file));
      LoadAfterEncode(others, next);
      var tail := AnimationsBinary(others, all).value;
      assert AnimationsBinary(files, all).value == GroupBytes(file).value + tail;
      LoadEncodedGroup(file, tail, acc);
    }
  }

  /** The bytes of a group: its index, its size and its records. */
  lemma GroupBytesParts(file: TextFile, tail: seq<byte>)
    requires GroupBytes(file).Ok?
    ensures GroupIndexBytes(file.name).Ok? && ToBytes(|file.lines|, 2).Ok? && LinesBytes(file.lines).Ok?
    ensures GroupBytes(file).value + tail
            == GroupIndexBytes(file.name).value + ToBytes(|file.lines|, 2).value + (LinesBytes(file.lines).value + tail)
  {
    var head := Cat(GroupIndexBytes(file.name), ToBytes(|file.lines|, 2));
    assert GroupBytes(file) == Cat(head, LinesBytes(file.lines));
    AppendAssoc(head.value, LinesBytes(file.lines).value, tail);
  }

  /** Loading one encoded group emplaces its map under the group index and
      goes on with what follows. */
  lemma LoadEncodedGroup(file: TextFile, tail: seq<byte>, acc: map<int, map<int, Animation>>)
    requires AnimatedFile(file)
    ensures FirstDigit(file.name).Some?
    ensures PlayersRead(GroupBytes(file).value + tail, acc)
            == PlayersRead(tail, Emplace(acc, FirstDigit(file.name).value, GroupOf(file)))
  {
    GroupEncodes(file);
    GroupBytesParts(file, tail);
    var index, size := GroupIndexBytes(file.name).value, ToBytes(|file.lines|, 2).value;
    var records := LinesBytes(file.lines).value;
    PlayersReadGroup(index, size, records + tail, acc);
    GroupRecordsOfLines(file.lines, tail);
    GroupReadEmplacesRecords(records + tail, |file.lines|, map[]);
  }

  /** The same for a directory: the files that do not match are skipped. */
  lemma LoadAfterEncodeMatching(files: seq<TextFile>, matches: string -> bool)
    requires forall k :: 0 <= k < |files| && matches(files[k].path) ==> AnimatedFile(files[k])
    ensures AnimationsBinary(files, matches).Ok? && AnimatedFiles(Matching(files, matches))
    ensures PlayersRead(AnimationsBinary(files, matches).value, map[]) == Ok(PlayersOf(map[], Matching(files, matches)))
  {
    OnlyMatchingFiles(files, matches, GroupBytes);
    var kept := Matching(files, matches);
    MatchingKeeps(files, matches, AnimatedFile);
    SameBinary(kept, matches, GroupBytes);
    LoadAfterEncode(kept, map[]);
  }
}
