// What the Python asset generators that read a directory of text files have
// in common (sample-assets/generators/animations_to_bin.py and
// maps_to_bin.py): the files, the regular expression that selects them and
// the group index taken from the first digit of a file's name.

module Generators {
  import opened Bytes

  /** A text file of the input directory: its path, its name and its lines,
      each already split on white space and read as integers. */
  datatype TextFile = TextFile(path: string, name: string, lines: seq<seq<int>>)

  datatype Option<T> = None | Some(value: T)

  predicate IsDigit(c: char)
  {
    '0' <= c <= '9'
  }

  /** `re.search(r'\d', name)[0]` read with `int`: the first digit of the
      name, or nothing when it has none. */
  function FirstDigit(name: string): (r: Option<nat>)
    ensures r.None? <==> forall i :: 0 <= i < |name| ==> !IsDigit(name[i])
    ensures r.Some? ==> exists i :: 0 <= i < |name| && IsDigit(name[i])
                          && (forall j :: 0 <= j < i ==> !IsDigit(name[j]))
                          && r.value == name[i] as int - '0' as int
    ensures r.Some? ==> r.value < 10
  {
    if name == [] then None
    else if IsDigit(name[0]) then Some(name[0] as int - '0' as int)
    else
      var r := FirstDigit(name[1..]);
      assert forall i :: 1 <= i < |name| ==> name[i] == name[1..][i - 1];
      if r.Some? then
        ghost var k :| 0 <= k < |name[1..]| && IsDigit(name[1..][k])
                       && (forall j :: 0 <= j < k ==> !IsDigit(name[1..][j]))
                       && r.value == name[1..][k] as int - '0' as int;
        assert IsDigit(name[k + 1]) && forall j :: 0 <= j < k + 1 ==> !IsDigit(name[j]);
        r
      else r
  }

  /** The two bytes of a group index: subscripting the `None` of a name
      without a digit raises TypeError. */
  function GroupIndexBytes(name: string): (r: Result<seq<byte>>)
    ensures r.Err? <==> FirstDigit(name).None?
    ensures r.Err? ==> r.error == TypeError
    ensures r.Ok? ==> |r.value| == 2 && LittleEndian(r.value) == FirstDigit(name).value
  {
    match FirstDigit(name)
    case None => Err(TypeError)
    case Some(d) => ToBytes(d, 2)
  }

  // ---------------------------------------------------------------------
  // The loop over the directory

  /** The loop of a generator over the files of its directory, in the order
      the directory lists them: the group of each file whose path matches the
      regular expression, one after the other; the first group that fails
      stops the generator. */
  function DirectoryBinary(files: seq<TextFile>, matches: string -> bool,
                           group: TextFile -> Result<seq<byte>>): Result<seq<byte>>
  {
    if files == [] then Ok([])
    else Cat(if matches(files[0].path) then group(files[0]) else Ok([]), DirectoryBinary(files[1..], matches, group))
  }

  /** The files whose path matches, in order. */
  function Matching(files: seq<TextFile>, matches: string -> bool): (r: seq<TextFile>)
    ensures forall k :: 0 <= k < |r| ==> matches(r[k].path)
    ensures |r| <= |files|
  {
    if files == [] then []
    else if matches(files[0].path) then [files[0]] + Matching(files[1..], matches)
    else Matching(files[1..], matches)
  }

  /** Only the files whose path matches are encoded: the others add no byte
      and raise nothing. */
  lemma {:induction false} OnlyMatchingFiles(files: seq<TextFile>, matches: string -> bool,
                                             group: TextFile -> Result<seq<byte>>)
    ensures DirectoryBinary(files, matches, group) == DirectoryBinary(Matching(files, matches), matches, group)
  {
    if files != [] {
      OnlyMatchingFiles(files[1..], matches, group);
      if !matches(files[0].path) {
        CatEmpty(DirectoryBinary(files[1..], matches, group));
      } else {
        var kept := Matching(files, matches);
        assert kept[0] == files[0] && kept[1..] == Matching(files[1..], matches);
      }
    }
  }

  /** What holds of every matching file holds of every file kept. */
  lemma {:induction false} MatchingKeeps(files: seq<TextFile>, matches: string -> bool, property: TextFile -> bool)
    requires forall k :: 0 <= k < |files| && matches(files[k].path) ==> property(files[k])
    ensures forall k :: 0 <= k < |Matching(files, matches)| ==> property(Matching(files, matches)[k])
  {
    if files != [] {
      assert forall k :: 1 <= k < |files| ==> files[1..][k - 1] == files[k];
      MatchingKeeps(files[1..], matches, property);
      var kept, later := Matching(files, matches), Matching(files[1..], matches);
      if matches(files[0].path) {
        assert forall k :: 1 <= k < |kept| ==> kept[k] == later[k - 1];
      }
    }
  }

  /** On files that all match, any regular expression gives what the one
      that matches everything gives. */
  lemma {:induction false} SameBinary(files: seq<TextFile>, matches: string -> bool,
                                      group: TextFile -> Result<seq<byte>>)
    requires forall k :: 0 <= k < |files| ==> matches(files[k].path)
    ensures DirectoryBinary(files, matches, group) == DirectoryBinary(files, _ => true, group)
  {
    if files != [] {
      assert forall k :: 1 <= k < |files| ==> files[1..][k - 1] == files[k];
      SameBinary(files[1..], matches, group);
    }
  }
}
