// The tile-to-solid map of a level (engine/libflatkiss-model/libflatkiss/
// model/tile_solid_mapper.cpp): an immutable map from tile index to solid
// index, built once by the loader.

module TileSolidMapper {
  import opened Bytes

  /** A `TileSolidMapper`: the map is moved in by the constructor and never
      changes afterwards, which a value of a datatype expresses. */
  datatype Mapper = Mapper(tilesToSolids: map<int, int>)

  /** `contains`: the tile has a solid. */
  predicate Contains(mapper: Mapper, tileIndex: int)
  {
    tileIndex in mapper.tilesToSolids
  }

  /** `solidIndexForTileIndex`: the solid of the tile, or invalid_argument
      for a tile the map does not hold. */
  function SolidIndexForTileIndex(mapper: Mapper, tileIndex: int): (r: Result<int>)
    ensures r.Ok? <==> Contains(mapper, tileIndex)
    ensures r.Ok? ==> r.value == mapper.tilesToSolids[tileIndex]
    ensures r.Err? ==> r.error == InvalidArgument
  {
    if tileIndex in mapper.tilesToSolids then Ok(mapper.tilesToSolids[tileIndex]) else Err(InvalidArgument)
  }
}
