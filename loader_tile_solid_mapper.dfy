// LoaderTileSolidMapper (engine/libflatkiss-data/libflatkiss/data/
// loader_tile_solid_mapper.cpp): groups of (tile, solid) pairs read to the
// end of the file, each group a TileSolidMapper under its group index.

module LoaderTileSolidMapper {
  import opened Bytes
  import opened StreamReader
  import opened UnorderedMap
  import opened TileSolidMapper

  // ---------------------------------------------------------------------
  // The pairs of a group and the map they build

  /** The `count` (tile, solid) pairs of a group, each two two-byte reads;
      reads past the end of the file give zeros. */
  function ReadPairs(bs: seq<byte>, count: nat): (pairs: seq<(int, int)>)
    ensures |pairs| == count
    decreases count
  {
    if count == 0 then [] else [(U16(bs), U16(Rest(bs, 2)))] + ReadPairs(Rest(bs, 4), count - 1)
  }

  /** `tiles_to_solids[tile] = solid` for each pair in order: a later pair
      for the same tile overwrites the earlier one. */
  function AssignAll(acc: map<int, int>, pairs: seq<(int, int)>): map<int, int>
    decreases |pairs|
  {
    if pairs == [] then acc else AssignAll(acc[pairs[0].0 := pairs[0].1], pairs[1..])
  }

  /** `loadGroup`: the mapper of the pairs and the stream after them. */
  function GroupRead(bs: seq<byte>, count: nat): (Mapper, seq<byte>)
  {
    (Mapper(AssignAll(map[], ReadPairs(bs, count))), Rest(bs, 4 * count))
  }

  /** `load`: index and size on two bytes each, then the group, until the
      end of the file; an index met again keeps its first mapper. */
  function MappersRead(bs: seq<byte>, acc: map<int, Mapper>): map<int, Mapper>
    decreases |bs|
  {
    if bs == [] then acc
    else
      var index, size := U16(bs), U16(Rest(bs, 2));
      var (mapper, rest) := GroupRead(Rest(bs, 4), size);
      MappersRead(rest, Emplace(acc, index, mapper))
  }

  // ---------------------------------------------------------------------
  // What a group holds

  /** The tiles of the map are those of the accumulator and those of the
      pairs. */
  lemma {:induction false} AssignedKeys(acc: map<int, int>, pairs: seq<(int, int)>, tile: int)
    ensures tile in AssignAll(acc, pairs) <==> tile in acc || exists k :: 0 <= k < |pairs| && pairs[k].0 == tile
    decreases |pairs|
  {
    if pairs != [] {
      AssignedKeys(acc[pairs[0].0 := pairs[0].1], pairs[1..], tile);
      if exists k :: 0 <= k < |pairs| && pairs[k].0 == tile {
        var k :| 0 <= k < |pairs| && pairs[k].0 == tile;
        if k > 0 {
          assert pairs[1..][k - 1].0 == tile;
        }
      }
    }
  }

  /** The solid of a tile is that of the last pair naming it. */
  lemma {:induction false} LaterPairWins(acc: map<int, int>, pairs: seq<(int, int)>, k: nat)
    requires k < |pairs|
    requires forall j :: k < j < |pairs| ==> pairs[j].0 != pairs[k].0
    ensures pairs[k].0 in AssignAll(acc, pairs) && AssignAll(acc, pairs)[pairs[k].0] == pairs[k].1
    decreases k
  {
    var next := acc[pairs[0].0 := pairs[0].1];
    if k == 0 {
      UnassignedKeeps(next, pairs[1..], pairs[0].0);
    } else {
      assert forall j :: k - 1 < j < |pairs[1..]| ==> pairs[1..][j] == pairs[j + 1];
      LaterPairWins(next, pairs[1..], k - 1);
    }
  }

  /** A tile that no pair names keeps its solid. */
  lemma {:induction false} UnassignedKeeps(acc: map<int, int>, pairs: seq<(int, int)>, tile: int)
    requires tile in acc
    requires forall j :: 0 <= j < |pairs| ==> pairs[j].0 != tile
    ensures tile in AssignAll(acc, pairs) && AssignAll(acc, pairs)[tile] == acc[tile]
    decreases |pairs|
  {
    if pairs != [] {
      assert forall j :: 0 <= j < |pairs[1..]| ==> pairs[1..][j] == pairs[j + 1];
      UnassignedKeeps(acc[pairs[0].0 := pairs[0].1], pairs[1..], tile);
    }
  }

  /** A loaded mapper contains exactly the tiles its pairs name. */
  lemma LoadedContains(bs: seq<byte>, count: nat, tile: int)
    ensures Contains(GroupRead(bs, count).0, tile) <==> exists k :: 0 <= k < count && ReadPairs(bs, count)[k].0 == tile
  {
    var pairs := ReadPairs(bs, count);
    AssignedKeys(map[], pairs, tile);
    if exists k :: 0 <= k < count && pairs[k].0 == tile {
      var j :| 0 <= j < count && pairs[j].0 == tile;
      assert tile in AssignAll(map[], pairs);
      assert exists k :: 0 <= k < count && ReadPairs(bs, count)[k].0 == tile;
    }
  }

  /** A loaded mapper maps a tile to the solid of the last pair naming it. */
  lemma LoadedSolid(bs: seq<byte>, count: nat, k: nat)
    requires k < count
    requires forall j :: k < j < count ==> ReadPairs(bs, count)[j].0 != ReadPairs(bs, count)[k].0
    ensures SolidIndexForTileIndex(GroupRead(bs, count).0, ReadPairs(bs, count)[k].0) == Ok(ReadPairs(bs, count)[k].1)
  {
    LaterPairWins(map[], ReadPairs(bs, count), k);
  }

  /** A group index already loaded keeps its first mapper whatever follows. */
  lemma {:induction false} FirstGroupWins(bs: seq<byte>, acc: map<int, Mapper>, index: int)
    requires index in acc
    ensures index in MappersRead(bs, acc) && MappersRead(bs, acc)[index] == acc[index]
    decreases |bs|
  {
    if bs != [] {
      var (mapper, rest) := GroupRead(Rest(bs, 4), U16(Rest(bs, 2)));
      FirstGroupWins(rest, Emplace(acc, U16(bs), mapper), index);
    }
  }

  /** The group indices loaded are those of the accumulator and those read. */
  lemma {:induction false} LoadedIndices(bs: seq<byte>, acc: map<int, Mapper>)
    ensures acc.Keys <= MappersRead(bs, acc).Keys
    ensures bs != [] ==> U16(bs) in MappersRead(bs, acc)
    decreases |bs|
  {
    if bs != [] {
      var (mapper, rest) := GroupRead(Rest(bs, 4), U16(Rest(bs, 2)));
      LoadedIndices(rest, Emplace(acc, U16(bs), mapper));
    }
  }

  // ---------------------------------------------------------------------
  // The loops of the loader

  /** `loadGroup`: `groupSize` passes, each reading a tile and a solid and
      assigning one to the other. */
  method LoadGroup(stream: seq<byte>, groupSize: nat) returns (mapper: Mapper, rest: seq<byte>)
    ensures (mapper, rest) == GroupRead(stream, groupSize)
  {
    var tilesToSolids: map<int, int> := map[];
    rest := stream;
    var left := groupSize;
    while left > 0
      invariant AssignAll(tilesToSolids, ReadPairs(rest, left)) == AssignAll(map[], ReadPairs(stream, groupSize))
      invariant Rest(rest, 4 * left) == Rest(stream, 4 * groupSize)
    {
      var tileIndex := U16(rest);
      var solidIndex := U16(Rest(rest, 2));
      RestRest(rest, 4, 4 * (left - 1));
      rest := Rest(rest, 4);
      tilesToSolids := tilesToSolids[tileIndex := solidIndex];
      left := left - 1;
    }
    mapper := Mapper(tilesToSolids);
  }

  /** `LoaderTileSolidMapper::load` on the bytes of the file. */
  method Load(data: seq<byte>) returns (mappers: map<int, Mapper>)
    ensures mappers == MappersRead(data, map[])
  {
    mappers := map[];
    var rest := data;
    while rest != []
      invariant MappersRead(data, map[]) == MappersRead(rest, mappers)
      decreases |rest|
    {
      var groupIndex := U16(rest);
      var groupSize := U16(Rest(rest, 2));
      var mapper, after := LoadGroup(Rest(rest, 4), groupSize);
      mappers := Emplace(mappers, groupIndex, mapper);
      rest := after;
    }
  }
}
