# flatkiss — a Dafny model of the editors, the asset codecs and the engine logic

flatkiss is a small 2D tile engine (C++, SDL) with Python tooling around it.
This project models three parts of it in Dafny and proves properties of the model.

- **The level editors** (`editor.py`, `levels/editor.py`).
  - The conversion between the engine's top-left tile numbering and pyglet's bottom-left one.
  - The row reversal applied to a level on load and on save, as written and as its comment intends it.
  - Picking a tile of the tileset from a pixel.
  - The animation frame shown at a tick.
  - Painting a cell of the flat row-major tile list.
  - The unsaved-changes flag of the window caption.
  - Loading and saving levels in the binary files.
- **The binary asset formats.** Each format has a Python encoder (text to binary) and a decoder (a C++ engine loader or a Python script). All fields are fixed-width little-endian integers. The formats are levels, animations, solids, tile/action maps, spritesets and characters.
  - Every encoder is a method proved against a specification function.
  - Every loader is a method whose loop is proved against a specification function.
  - Round-trip lemmas state that what an encoder writes loads back as the values it was given.
  - The shared pieces are:
    - `Bytes`: `to_bytes`, runs of fixed-width fields, little-endian values;
    - `StreamReader`: `StreamReader::read` and the reads of `std::istream::read` into zero-initialised fields;
    - `UnorderedMap`: `emplace` against subscript assignment;
    - `Generators`: the directory of text files and the group index taken from a file name.
- **The engine logic.**
  - The bounding box of a solid.
  - The integer collision tests.
  - The navigator: clamping to the level, stopping before the first colliding step, sliding and side-stepping.
  - The tile-to-solid mapper.
  - The character's facing/animation-tick state machine.

Where the source mutates state, the model does too:
- The editor levels and the character are classes whose methods update their fields.
- Every loop of the source is a `while` or `for` loop with its invariants.

Where the source is pure, the model is a function.

Some conventions hold across the model:
- C++ undefined behaviour is the error `Undefined`. Examples: an out-of-range `vector::operator[]`, or a bounding box of a solid with no shapes.
- A C++ exception or a Python exception is the error of that name.
- C++ integer division truncates toward zero; the model writes it out (`Arith.TDiv`).
- Native byte order is taken to be little-endian.

## Model

| member | source | states |
|---|---|---|
| Grid.ReverseTileIndexColumnRow | editor.py:43-55 | the conversion keeps a tile's column and sends row j of the tileset to row height-1-j |
| Grid.ReverseTileIndexInvolution | editor.py:43-55 | converting a tile index twice gives the index back, for every integer index |
| Grid.ReverseTileIndexInRange | editor.py:43-55 | a tile of the tileset is converted into a tile of the tileset (0 <= t' < width*height) |
| Grid.Reversed | editor.py:328 | `reversed` of a list keeps its length |
| Grid.ReverseIndices | editor.py:327 | converting every tile index of a list keeps its length |
| Grid.RowsOfGrid | editor.py:328-329 | cutting a grid of h full rows every w tiles gives h rows of w tiles |
| Grid.RowOfGrid | editor.py:328-329 | row j of that cut is the slice of cells j*w to j*w+w-1 |
| Grid.FlattenAt | editor.py:327-330 | flattening rows of width w puts element i of row k at k*w+i |
| Grid.FlipRowsAt | editor.py:328-330 | on a grid of h rows, cell (i, j) of the row-flipped grid is cell (i, h-1-j) of the original |
| Grid.FlipRowsInvolution | editor.py:328-330 | flipping the rows twice gives the grid back |
| Grid.ReversedLevelAt | editor.py:323-330 | cell (i, j) of the reversed level is the converted tile of cell (i, h-1-j) |
| Grid.ReversedLevelInvolution | editor.py:323-330 | reversing a level twice (rows cut at the level's width) restores it, as the editor's save-then-reverse-back relies on |
| Grid.FlipsCommute | editor.py:327-330 | converting the indices and flipping the rows commute |
| Grid.MapRows | levels/editor.py:286-290 | row m of the mapped rows is row m with every index converted |
| Grid.RowsMap | levels/editor.py:276-278 | cutting the converted tiles into rows equals converting each row of the cut |
| Grid.FlattenMap | levels/editor.py:276-278 | flattening converted rows equals converting the flattened rows |
| Editor.AsWrittenReverseDuplicatesTiles | editor.py:327-330 | as written (slices of width stepped by height), a level 2 tiles wide and 1 high comes back with 3 tiles |
| Editor.AsWrittenAgreesOnSquareLevels | editor.py:327-330 | on a square level the code as written equals the intended reversal |
| Editor.ConvertTiles | editor.py:50-55 | converting a list of tiles raises ZeroDivisionError exactly when the tileset has width 0 and the list is not empty, and keeps the list's length otherwise |
| Editor.AsWrittenReversesAgain | editor.py:327-330 | a level the reversal as written accepted is accepted by a second reversal, so the second reversal of save never raises |
| Editor.SquareLevelRestored | editor.py:327-330 | on a square level of n x n tiles, a second reversal as written restores the tiles the first one reversed |
| Editor.TopRowMeetsTopOffset | editor.py:376-411 | with the bottom offset `_Tileset.__init__` computes, every tile of the tileset's top row ends exactly `top_offset` pixels below the top of the image, and tile column i starts i cells right of the left offset |
| Editor.PickInvertsTile | editor.py:405-416 | every pixel of the cell of tile t, picked in the tileset window, selects tile t |
| Editor.PickedTileContainsPoint | editor.py:405-416 | a pick within the tileset's columns lands on a tile whose cell contains the point |
| Editor.PaintChangesOneCell | editor.py:332-343 | painting cell (i, j) of a w x h grid changes that cell and no other |
| Editor.Level.constructor | editor.py:309-315 | the level holds the index, tiles, dimensions and tileset index given |
| Editor.Level.Reverse | editor.py:323-330 | as written (rows of width tiles started every height tiles): the tiles become ReversedLevelAsWritten of the old tiles; height 0 raises ValueError and a tileset of width 0 with a tile to convert ZeroDivisionError, the tiles unchanged |
| Editor.Level.SetTileIndex | editor.py:332-333 | cell j*width+i is assigned, with Python's negative indexing; an index out of the list raises IndexError and changes nothing |
| Editor.Field | editor.py:278 | an unsigned 16-bit field is below 0x10000 |
| Editor.FieldOfWritten | editor.py:278-298 | a value written with to_bytes(2, 'little') reads back |
| Editor.FieldReencodes | editor.py:278-298 | a field read re-encodes to the two bytes it was read from |
| Editor.ReadTiles | editor.py:279-280 | n tiles are read exactly when 2n bytes remain (StructError otherwise), leaving the bytes after them |
| Editor.ReadLevel | editor.py:274-280 | a level read has width*height tiles and 16-bit dimensions, and consumes a prefix of at least 6 bytes |
| Editor.ReadLevels | editor.py:273-280 | the passes of the loop consume a prefix and yield a well-shaped level |
| Editor.LevelWithIndex | editor.py:265-282 | the level returned has one tile per cell; the rest is a suffix of the file |
| Editor.ReadLevelWithIndex | editor.py:265-282 | the loop returns the level of LevelWithIndex (or its error) and the file position after it |
| Editor.ReadLevelsStep | editor.py:273-280 | one pass reads the header, then the tiles, then the passes left |
| Editor.ReadEncodedLevel | editor.py:278-298 | a level written by save reads back as the same level, leaving what follows |
| Editor.ReadLevelReencodes | editor.py:278-298 | the bytes a level was read from are exactly the bytes save writes for it |
| Editor.ReadWrittenLevels | editor.py:273-298 | reading k levels of a file of written levels gives level k-1 and leaves levels k on |
| Editor.LoadFindsLevel | editor.py:259-282 | loading level n of a file of written levels gives level n |
| Editor.ReadLevelsSnoc | editor.py:273-280 | one more pass reads one more level from where the others stopped |
| Editor.Overwrite | editor.py:289-298 | a write at offset pos of a file opened 'rb+' replaces those bytes, keeps the rest and may extend the file |
| Editor.SavePosition | editor.py:290-292 | the level is written at a position inside the file, after levels 0 to index-1 |
| Editor.SaveAfterLoadKeepsFile | editor.py:285-301 | saving a level exactly as it was loaded leaves the file unchanged |
| Editor.OverwriteInPlace | editor.py:289-298 | writing bytes over the same bytes changes nothing |
| Editor.Save | editor.py:285-301 | the file gets the level reversed as written into the engine's coordinates, at its position; an error of that reversal leaves the level unchanged; after a save the level is reversed again as written, after another error it stays in the engine's coordinates |
| Editor.ReadEditorAnimation | editor.py:117-126 | a record read has period bs[0] > 0 frames and consumes 2 + 2*period bytes; with a tileset of width 0 no record is read, and a complete record with frames raises ZeroDivisionError |
| Editor.ReadEditorGroup | editor.py:113-128 | a group read consumes a prefix of the bytes |
| Editor.ReadGroupOfAnimations | editor.py:113-128 | the loop returns the group ReadEditorGroup defines, or its error |
| Editor.ReadAnimationRecord | editor.py:118-126 | the loop body returns the record ReadEditorAnimation defines, or its error |
| Editor.ReadEditorGroupStep | editor.py:117-127 | a group of count records is the first record stored under its first frame, then count-1 records |
| Editor.LoadAnimations | editor.py:100-111 | the loop over groups returns the animations of the first group of index 0, or StructError when none |
| Editor.Controller.constructor | editor.py:196-201 | the state `__init__` leaves: the level and tileset given, the engine's tile 0 converted selected, and tile 0 shown as saved |
| Editor.Controller.Open | editor.py:190-201 | `__init__`: the error of loading the level, else the error of the reversal as written, else ZeroDivisionError for a tileset of width 0, else a new controller whose level holds the loaded header and the tiles reversed as written |
| Editor.Controller.OnLocationSelected | editor.py:233-235 | paints the selected tile at (i, j) and marks the level unsaved; nothing else changes |
| Editor.Controller.OnTileSelected | editor.py:241-243 | the tile to paint with becomes tileIndex; the level is marked unsaved |
| Editor.Controller.OnSaveRequested | editor.py:237-239 | the file gets the level reversed as written into the engine's coordinates; only a save without exception marks it saved, and the level is then reversed again as written |
| LevelsEditor.AnimationRecords | levels/editor.py:116-130 | every record read from the headerless animations file has at least one frame |
| LevelsEditor.LaterRecordWins | levels/editor.py:126-127 | a tile has an animation exactly when some record starts with it, and then the last such record is the one kept |
| LevelsEditor.LoadAnimationsToEnd | levels/editor.py:116-130 | the loop reading records until the end of the file returns LoadedAnimations (the keyed records, or the error) |
| LevelsEditor.PrependedTwice | levels/editor.py:119-128 | records read in two steps are the records read in one |
| LevelsEditor.AnimatedTileIndexFor | levels/editor.py:141-147 | a tile without an animation is shown as itself |
| LevelsEditor.AnimatedFrame | levels/editor.py:141-145 | an animated tile shows frame (tick mod period*duration) div duration of its animation (Python floor division) |
| LevelsEditor.AnimationIsPeriodic | levels/editor.py:141-145 | the frame shown repeats every period*duration ticks |
| LevelsEditor.Level.constructor | levels/editor.py:305-308 | the level holds the tiles and dimensions given |
| LevelsEditor.Level.SetTileIndex | levels/editor.py:313-314 | cell j*width+i is assigned, with Python's negative indexing; IndexError otherwise and nothing changes |
| LevelsEditor.LoadedTileCount | levels/editor.py:268-278 | a level file loads exactly when its length is even, giving length/2 tiles |
| LevelsEditor.Load | levels/editor.py:267-280 | the level holds the tiles LoadedTiles defines (unpacked, rows flipped, indices converted) or the error, ZeroDivisionError for a tileset of width 0 |
| LevelsEditor.Save | levels/editor.py:282-297 | the nested loops and the writes produce SavedBytes of the level, or its error (IndexError or, for a tileset of width 0, ZeroDivisionError at the first cell) |
| LevelsEditor.SaveRowsAreConvertedRows | levels/editor.py:285-290 | on a full grid the rows save builds are the rows of the level with their indices converted |
| LevelsEditor.SavedBytesOfGrid | levels/editor.py:282-297 | on a full grid save writes the level reversed back into the engine's coordinates |
| LevelsEditor.SaveAfterLoad | levels/editor.py:267-297 | saving a level just loaded from a file of width x height tiles writes the file back unchanged |
| LevelsEditor.LoadAfterSave | levels/editor.py:267-297 | loading what save wrote gives the level's tiles back |
| AnimationPlayer.AnimatedSpriteIndexFor | src/animation_player.cpp:22-32 | a sprite without an animation is shown as itself |
| AnimationPlayer.AnimatedSprite | src/animation_player.cpp:22-32 | for a tick that is not negative, an animated sprite shows sprite (tick mod period*duration) div duration of its animation |
| AnimationPlayer.AnimationIsPeriodic | src/animation_player.cpp:22-32 | the sprite shown repeats every period*duration ticks |
| AnimationPlayer.NegativeTickIsUndefined | src/animation_player.cpp:29-31 | a negative tick gives a negative step with C++'s truncating %: undefined behaviour |
| AnimationPlayer.AnimationDurationForSpriteIndex | src/animation_player.cpp:34-41 | the duration reported is a byte; 0 for a sprite without an animation |
| AnimationPlayer.ZeroDurationIsNotAnimated | src/animation_player.cpp:22-41 | a sprite reported with duration 0 is shown as itself when not animated, and is undefined (division by 0) when animated |
| AnimationPlayer.ReadRecord | src/animation_player.cpp:70-78 | a record read consumes a prefix of the bytes and its vector holds its period of sprites |
| AnimationPlayer.GroupRead | src/animation_player.cpp:66-86 | a group read consumes a prefix of the bytes |
| AnimationPlayer.GroupRecords | src/animation_player.cpp:69-83 | a group of count records reads count well-formed records |
| AnimationPlayer.GroupRecordsStep | src/animation_player.cpp:69-83 | a group whose first record reads goes on after it |
| AnimationPlayer.GroupReadEmplacesRecords | src/animation_player.cpp:69-85 | the group read is its records emplaced in order under their first sprite |
| AnimationPlayer.EmplacedKeys | src/animation_player.cpp:79-82 | a key is bound after emplacing exactly when it was bound before or some record starts with it; bound keys keep their animation |
| AnimationPlayer.FirstRecordWins | src/animation_player.cpp:79-82 | `emplace` keeps the first record of each first sprite |
| AnimationPlayer.LoadGroup | src/animation_player.cpp:66-86 | the loop returns the group GroupRead defines, or its error |
| AnimationPlayer.LoadNext | src/animation_player.cpp:70-82 | one pass reads a record and emplaces it, and the group goes on from there |
| AnimationPlayer.GroupReadFails | src/animation_player.cpp:70-78 | a group fails where its next record fails |
| AnimationPlayer.GroupReadNext | src/animation_player.cpp:69-83 | after a record is read the group goes on with it emplaced |
| AnimationPlayer.LoadRecord | src/animation_player.cpp:70-78 | the two gets and the block read return the record ReadRecord defines, or its error |
| AnimationPlayer.Load | src/animation_player.cpp:43-64 | the loop over groups returns PlayersRead of the file |
| Generators.FirstDigit | sample-assets/generators/animations_to_bin.py:33 | the group index is the first digit of the file name (every earlier character is not a digit), below 10; none exactly when the name has no digit |
| Generators.GroupIndexBytes | sample-assets/generators/animations_to_bin.py:33 | the index bytes are two little-endian bytes of the first digit; a name without a digit raises TypeError, and only then |
| Generators.Matching | sample-assets/generators/animations_to_bin.py:27-28 | the files kept all match the regular expression, and there are no more of them than files |
| Generators.OnlyMatchingFiles | sample-assets/generators/animations_to_bin.py:27-28 | files that do not match add no byte and raise nothing: the output is that of the matching files alone |
| Generators.MatchingKeeps | sample-assets/generators/maps_to_bin.py:27-28 | what holds of every matching file holds of every file kept |
| Generators.SameBinary | sample-assets/generators/maps_to_bin.py:27-28 | on files that all match, any regular expression gives the output of one matching everything |
| UnorderedMap.Emplace | src/animation_player.cpp:79-82 | `emplace` binds the key, keeps the value of a key already present and keeps every other binding |
| AnimationsToBin.RecordBytes | sample-assets/generators/animations_to_bin.py:36-41 | the record of a line "d f1 .. fn" has 2 + 2n bytes |
| AnimationsToBin.RecordEncodes | sample-assets/generators/animations_to_bin.py:36-41 | a record encodes exactly when the line has 1 to 256 numbers and the duration and frames fit their fields |
| AnimationsToBin.LinesEncode | sample-assets/generators/animations_to_bin.py:36-41 | the records of a file encode exactly when every line does |
| AnimationsToBin.GroupEncodes | sample-assets/generators/animations_to_bin.py:32-41 | a group encodes exactly when the name has a digit, there are fewer than 65536 lines and every line encodes |
| AnimationsToBin.WriteRecord | sample-assets/generators/animations_to_bin.py:37-41 | the writes of the loop body produce RecordBytes of the line, or its error |
| AnimationsToBin.WriteGroup | sample-assets/generators/animations_to_bin.py:29-41 | the writes for a matching file produce GroupBytes of the file, or its error |
| AnimationsToBin.AnimationsToBinary | sample-assets/generators/animations_to_bin.py:25-41 | the loop over the directory produces AnimationsBinary of the files, or the first error |
| AnimationsToBin.AnimationOf | src/animation_player.cpp:75-82 | the animation the loader builds from a line holds its frames, their number as period, and the duration |
| AnimationsToBin.AnimationsOf | src/animation_player.cpp:69-83 | one well-formed animation per line |
| AnimationsToBin.OneByte | sample-assets/generators/animations_to_bin.py:38-39 | a value below 256 written on one byte is that byte |
| AnimationsToBin.ReadEncodedRecord | src/animation_player.cpp:70-78 | the record of a line with frames reads back as its animation, leaving what follows |
| AnimationsToBin.DurationOnlyLineIsUndefined | src/animation_player.cpp:75-80 | a line holding only a duration is written with period 0, and the loader indexes an empty vector: undefined |
| AnimationsToBin.LinesBytesCons | sample-assets/generators/animations_to_bin.py:36-41 | the records of the lines are the first line's record followed by the others' |
| AnimationsToBin.GroupRecordsOfLines | src/animation_player.cpp:69-83 | the records of the lines read back as their animations, in order |
| AnimationsToBin.GroupRecordsOfLinesCons | src/animation_player.cpp:69-83 | the induction step: the first record, then the others |
| AnimationsToBin.PlayersReadGroup | src/animation_player.cpp:49-59 | the loader reads a group index and size on two bytes each, then the group, and emplaces it |
| AnimationsToBin.LoadAfterEncode | src/animation_player.cpp:43-86 | loading what the encoder wrote gives, for each file, its lines' animations keyed by first frame under the file's digit, the first group of a digit kept |
| AnimationsToBin.GroupBytesParts | sample-assets/generators/animations_to_bin.py:32-41 | a group's bytes are its index, its size and its records |
| AnimationsToBin.LoadEncodedGroup | src/animation_player.cpp:49-59 | loading one encoded group emplaces its map under the group index and goes on with what follows |
| AnimationsToBin.LoadAfterEncodeMatching | sample-assets/generators/animations_to_bin.py:25-41 | over a directory, the loader gives the groups of the matching files only |
| TileSolidMapper.SolidIndexForTileIndex | engine/libflatkiss-model/libflatkiss/model/tile_solid_mapper.cpp:38-44 | the solid of a tile is returned exactly when the mapper contains the tile; otherwise invalid_argument is thrown |
| LoaderTileSolidMapper.ReadPairs | engine/libflatkiss-data/libflatkiss/data/loader_tile_solid_mapper.cpp:59-67 | a group of count entries reads count (tile, solid) pairs |
| LoaderTileSolidMapper.AssignedKeys | engine/libflatkiss-data/libflatkiss/data/loader_tile_solid_mapper.cpp:59-67 | the tiles of the map are those of the accumulator and those some pair names |
| LoaderTileSolidMapper.LaterPairWins | engine/libflatkiss-data/libflatkiss/data/loader_tile_solid_mapper.cpp:66 | subscript assignment: the solid of a tile is that of the last pair naming it |
| LoaderTileSolidMapper.UnassignedKeeps | engine/libflatkiss-data/libflatkiss/data/loader_tile_solid_mapper.cpp:66 | a tile that no pair names keeps its solid |
| LoaderTileSolidMapper.LoadedContains | engine/libflatkiss-data/libflatkiss/data/loader_tile_solid_mapper.cpp:56-70 | a loaded mapper contains exactly the tiles its pairs name |
| LoaderTileSolidMapper.LoadedSolid | engine/libflatkiss-data/libflatkiss/data/loader_tile_solid_mapper.cpp:56-70 | a loaded mapper maps a tile to the solid of the last pair naming it |
| LoaderTileSolidMapper.FirstGroupWins | engine/libflatkiss-data/libflatkiss/data/loader_tile_solid_mapper.cpp:46-48 | `emplace`: a group index already loaded keeps its first mapper whatever follows |
| LoaderTileSolidMapper.LoadedIndices | engine/libflatkiss-data/libflatkiss/data/loader_tile_solid_mapper.cpp:39-49 | the group indices loaded include those of the accumulator and the index read first |
| LoaderTileSolidMapper.LoadGroup | engine/libflatkiss-data/libflatkiss/data/loader_tile_solid_mapper.cpp:56-70 | the loop of loadGroup returns the mapper GroupRead defines and the stream after it |
| LoaderTileSolidMapper.Load | engine/libflatkiss-data/libflatkiss/data/loader_tile_solid_mapper.cpp:33-54 | the loop over groups returns MappersRead of the file |
| MapsToBin.PairBytes | sample-assets/generators/maps_to_bin.py:38-41 | a line is written on 4 bytes |
| MapsToBin.PairsBytes | sample-assets/generators/maps_to_bin.py:37-41 | the lines of a file are written on 4 bytes each |
| MapsToBin.GroupBytes | sample-assets/generators/maps_to_bin.py:32-41 | a group is written on 4 bytes of header plus 4 per line |
| MapsToBin.PairEncodes | sample-assets/generators/maps_to_bin.py:38-40 | a line encodes exactly when it is two values below 65536; otherwise ValueError for a line of another length and OverflowError for a value out of range |
| MapsToBin.PairsEncode | sample-assets/generators/maps_to_bin.py:37-40 | the pairs of a file encode exactly when every line does |
| MapsToBin.GroupEncodes | sample-assets/generators/maps_to_bin.py:32-40 | a group encodes exactly when the name has a digit, there are fewer than 65536 lines and every line encodes |
| MapsToBin.WritePair | sample-assets/generators/maps_to_bin.py:38-40 | the writes of the loop body produce PairBytes of the line, or its error |
| MapsToBin.WriteGroup | sample-assets/generators/maps_to_bin.py:28-40 | the writes for a matching file produce GroupBytes of the file, or its error |
| MapsToBin.MapsToBinary | sample-assets/generators/maps_to_bin.py:25-40 | the loop over the directory produces MapsBinary of the files, or the first error |
| MapsToBin.PairsOf | sample-assets/generators/maps_to_bin.py:37-40 | one (action, index) pair per line |
| MapsToBin.PairsBytesCons | sample-assets/generators/maps_to_bin.py:37-40 | the pairs of the lines are the first line's followed by the others' |
| MapsToBin.ReadEncodedPair | engine/libflatkiss-data/libflatkiss/data/loader_tile_solid_mapper.cpp:60-65 | a pair written on four bytes reads back as the line's two values, leaving what follows |
| MapsToBin.ReadEncodedPairs | engine/libflatkiss-data/libflatkiss/data/loader_tile_solid_mapper.cpp:59-67 | the pairs of the lines read back as the lines, leaving what follows |
| MapsToBin.ReadEncodedPairsCons | engine/libflatkiss-data/libflatkiss/data/loader_tile_solid_mapper.cpp:59-67 | the induction step: the first pair, then the others |
| MapsToBin.MappersReadGroup | engine/libflatkiss-data/libflatkiss/data/loader_tile_solid_mapper.cpp:39-49 | the loader reads index and size on two bytes each, then the group, and emplaces it |
| MapsToBin.GroupBytesParts | sample-assets/generators/maps_to_bin.py:32-40 | a group's bytes are its index, its size and its pairs |
| MapsToBin.LoadEncodedGroup | engine/libflatkiss-data/libflatkiss/data/loader_tile_solid_mapper.cpp:39-49 | loading one encoded group emplaces its mapper under the group index and goes on with what follows |
| MapsToBin.LoadAfterEncode | engine/libflatkiss-data/libflatkiss/data/loader_tile_solid_mapper.cpp:33-70 | loading what the encoder wrote gives, for each file, the map of its pairs under its digit, the first group of a digit kept |
| MapsToBin.LoadAfterEncodeMatching | sample-assets/generators/maps_to_bin.py:25-40 | over a directory, the loader gives the mappers of the matching files only |
| Solid.BoundingBox | engine/libflatkiss-model/libflatkiss/model/solid.cpp:41-67 | the box is undefined (its width overflows int64) exactly when the solid has no shape |
| Solid.NewSolid | engine/libflatkiss-model/libflatkiss/model/solid.cpp:32-37 | the constructor keeps the shapes and succeeds exactly when they have a bounding box |
| Solid.ComputeBoundingBox | engine/libflatkiss-model/libflatkiss/model/solid.cpp:41-67 | the two loops updating the four accumulators compute BoundingBox |
| Solid.Create | engine/libflatkiss-model/libflatkiss/model/solid.cpp:32-37 | the constructor with the loops builds NewSolid |
| Solid.HullContains | engine/libflatkiss-model/libflatkiss/model/solid.cpp:50-63 | every shape visited lies within the extremes accumulated |
| Solid.ShapesInsideBox | engine/libflatkiss-model/libflatkiss/model/solid.cpp:41-67 | every ellipse and every rectangle lies inside the bounding box |
| Solid.ShapeInInt64 | engine/libflatkiss-model/libflatkiss/model/solid.cpp:45-48 | a shape whose coordinates are 64-bit has a 64-bit extent |
| Solid.HullTouched | engine/libflatkiss-model/libflatkiss/model/solid.cpp:50-63 | each side of the accumulated extremes is reached by one of the shapes |
| Solid.HullTouchedStep | engine/libflatkiss-model/libflatkiss/model/solid.cpp:50-63 | one more shape keeps every side reached by a shape |
| Solid.BoxIsMinimal | engine/libflatkiss-model/libflatkiss/model/solid.cpp:41-67 | the box is the smallest containing the shapes: each of its sides is touched by a shape, for shapes within the 64-bit range |
| Solid.MoveEllipses | engine/libflatkiss-model/libflatkiss/model/positioned_solid.cpp:40-49 | the ellipses in level coordinates are the solid's ellipses moved by the position, one for one |
| Solid.MoveRectangles | engine/libflatkiss-model/libflatkiss/model/positioned_solid.cpp:51-60 | the rectangles in level coordinates are the solid's rectangles moved by the position, one for one |
| Solid.MoveWiden | engine/libflatkiss-model/libflatkiss/model/solid.cpp:50-63 | moving commutes with taking one more shape into the extremes |
| Solid.HullMoves | engine/libflatkiss-model/libflatkiss/model/positioned_solid.cpp:40-60 | the extremes of the moved shapes are the moved extremes |
| Solid.ShapeMoves | engine/libflatkiss-model/libflatkiss/model/positioned_solid.cpp:40-60 | the extent of a moved shape is the moved extent |
| Solid.MovedBoundingBox | engine/libflatkiss-model/libflatkiss/model/positioned_solid.cpp:32-34 | the absolute box of a positioned solid (its box moved by its position) is the box of its absolute shapes |
| Solid.BoxOfMove | engine/libflatkiss-model/libflatkiss/model/positioned_solid.cpp:32-34 | the box of moved extremes is the moved box |
| LoaderSolid.ReadPieces | engine/libflatkiss-data/libflatkiss/data/loader_solid.cpp:57-62 | a solid of size n reads n pieces of five bytes |
| LoaderSolid.ShapesOfPieces | engine/libflatkiss-data/libflatkiss/data/loader_solid.cpp:64-71 | one ellipse per piece of type 1, one rectangle per piece of type 0; pieces of any other type add nothing |
| LoaderSolid.AllPiecesKept | engine/libflatkiss-data/libflatkiss/data/loader_solid.cpp:64-71 | the shapes are as many as the pieces exactly when every piece has type 0 or 1 |
| LoaderSolid.FirstSolidWins | engine/libflatkiss-data/libflatkiss/data/loader_solid.cpp:44-46 | `emplace`: a solid index already loaded keeps its first solid whatever follows |
| LoaderSolid.LoadedSolidsWellFormed | engine/libflatkiss-data/libflatkiss/data/loader_solid.cpp:36-75 | every solid loaded was built by the Solid constructor: it has a shape and the box of its shapes |
| LoaderSolid.LoadSolid | engine/libflatkiss-data/libflatkiss/data/loader_solid.cpp:54-75 | the loop of loadSolid returns the solid SolidRead defines and the stream after its pieces |
| LoaderSolid.EllipsesStep | engine/libflatkiss-data/libflatkiss/data/loader_solid.cpp:57-71 | one piece read: its ellipse, if it is one, comes before those of the pieces after it |
| LoaderSolid.RectanglesStep | engine/libflatkiss-data/libflatkiss/data/loader_solid.cpp:57-71 | one piece read: its rectangle, if it is one, comes before those of the pieces after it |
| LoaderSolid.Load | engine/libflatkiss-data/libflatkiss/data/loader_solid.cpp:36-52 | the loop over groups returns SolidsRead of the file |
| SolidsToBin.PiecesOf | sample-assets/generators/solids_to_bin.py:32-34 | the list of a solid after n lines has at most n pieces |
| SolidsToBin.GroupLines | sample-assets/generators/solids_to_bin.py:30-34 | the loop builds the dictionary: keys in insertion order, each key's list the rests of the lines naming it; IndexError exactly when a line is empty |
| SolidsToBin.PiecesOfAbsent | sample-assets/generators/solids_to_bin.py:30-34 | an index no line has named has an empty list |
| SolidsToBin.IndicesOfLines | sample-assets/generators/solids_to_bin.py:30-34 | the keys are the first integers of the lines, each once |
| SolidsToBin.IndicesGrow | sample-assets/generators/solids_to_bin.py:30-37 | later lines only add keys after the earlier ones: the order is that of first appearance |
| SolidsToBin.LineInItsGroup | sample-assets/generators/solids_to_bin.py:34 | every line's rest lands in the list of its first integer |
| SolidsToBin.GroupFromLines | sample-assets/generators/solids_to_bin.py:34 | every list holds only rests of lines naming its key |
| SolidsToBin.SolidsBinary | sample-assets/generators/solids_to_bin.py:26-43 | an empty line raises IndexError before anything is written |
| SolidsToBin.WriteGroup | sample-assets/generators/solids_to_bin.py:38-43 | the writes of one group produce GroupBytes, or its error |
| SolidsToBin.SolidsToBinary | sample-assets/generators/solids_to_bin.py:26-43 | the dictionary, then one group per key in insertion order: SolidsBinary of the lines |
| SolidsToBin.PiecesRead | engine/libflatkiss-data/libflatkiss/data/loader_solid.cpp:57-62 | one piece read per piece written |
| SolidsToBin.PiecesEncodable | sample-assets/generators/solids_to_bin.py:32-34 | the lists of encodable lines hold encodable pieces |
| SolidsToBin.FieldsOfBytes | sample-assets/generators/solids_to_bin.py:41-43 | values of one byte are written as themselves |
| SolidsToBin.ReadEncodedPiece | engine/libflatkiss-data/libflatkiss/data/loader_solid.cpp:58-62 | a written piece reads back as its five values, leaving what follows |
| SolidsToBin.PiecesBytesCons | sample-assets/generators/solids_to_bin.py:41-43 | the pieces of a group are the first one's bytes, then the others' |
| SolidsToBin.ReadEncodedPieces | engine/libflatkiss-data/libflatkiss/data/loader_solid.cpp:57-62 | the written pieces read back as the pieces, leaving what follows |
| SolidsToBin.ReadEncodedPiecesCons | engine/libflatkiss-data/libflatkiss/data/loader_solid.cpp:57-62 | the induction step: the first piece, then the others |
| SolidsToBin.GroupBytesParts | sample-assets/generators/solids_to_bin.py:38-43 | a group's bytes are its index, its size and its pieces |
| SolidsToBin.LoadEncodedGroup | engine/libflatkiss-data/libflatkiss/data/loader_solid.cpp:41-46 | loading one written group emplaces the solid of its pieces under its index and goes on with what follows |
| SolidsToBin.LoadEncodedGroups | engine/libflatkiss-data/libflatkiss/data/loader_solid.cpp:36-52 | loading the groups of the given indices builds their solids |
| SolidsToBin.LoadAfterEncode | engine/libflatkiss-data/libflatkiss/data/loader_solid.cpp:36-75 | loading what the generator wrote gives, under each solid index in order of first appearance, the solid of the pieces of the lines naming it |
| Collider.RectanglesCollideShareCell | engine/libflatkiss-logic/libflatkiss/logic/collider.cpp:163-182 | two rectangles collide exactly when some cell of the first (right and bottom edges excluded) is a point of the second (edges included) |
| Collider.RectanglesCollideAsymmetric | engine/libflatkiss-logic/libflatkiss/logic/collider.cpp:163-182 | of two rectangles side by side, the left does not reach the right but the right reaches the left through the shared edge |
| Collider.InsideEllipseExtent | engine/libflatkiss-logic/libflatkiss/logic/collider.cpp:184-189 | a point the ellipse test accepts lies within the radii of the centre |
| Collider.EllipseContainsVertices | engine/libflatkiss-logic/libflatkiss/logic/collider.cpp:184-189 | the centre, vertices and co-vertices of an ellipse pass the ellipse test |
| Collider.AsWrittenCollidesFromAfar | engine/libflatkiss-logic/libflatkiss/logic/collider.cpp:146-158 | as written, an ellipse centred within the rectangle's columns anywhere below its top edge collides, however far away |
| Collider.AsWrittenFarCircle | engine/libflatkiss-logic/libflatkiss/logic/collider.cpp:146-158 | a 10x10 rectangle at the origin and a unit circle centred 990 below it collide as written, though their boxes do not overlap |
| Collider.CollisionNeedsOverlap | engine/libflatkiss-logic/libflatkiss/logic/collider.cpp:119-161 | corrected as the comment at lines 121-136 describes: a collision needs the rectangle to meet the box of the ellipse |
| Collider.CollisionFromInside | engine/libflatkiss-logic/libflatkiss/logic/collider.cpp:119-161 | corrected: an ellipse whose centre is within the rectangle's columns and whose bottom vertex lies in the rectangle collides |
| Collider.EllipsePairsNeverCount | engine/libflatkiss-logic/libflatkiss/logic/collider.cpp:191-220 | solids collide exactly when a pair other than two ellipses does, under the rectangle-ellipse test as written; solids made only of ellipses never collide |
| Collider.IntendedCollisionIsFound | engine/libflatkiss-logic/libflatkiss/logic/collider.cpp:119-161 | a rectangle and an ellipse that collide under the corrected test collide as written: the code as written only adds collisions |
| Collider.IntendedSolidCollisionIsFound | engine/libflatkiss-logic/libflatkiss/logic/collider.cpp:191-220 | solids whose shapes collide under the corrected test collide under the loops as written |
| Collider.AsWrittenFarSolids | engine/libflatkiss-logic/libflatkiss/logic/collider.cpp:191-220 | a solid of the rectangle (0, 0, 10, 10) and a solid of the unit circle at (5, 1000) collide as written, and not under the corrected test |
| Collider.CollideEllipse | engine/libflatkiss-logic/libflatkiss/logic/collider.cpp:193-204 | the two inner loops for an ellipse of the first solid return true exactly when it meets a shape of the second, rectangles tested as written |
| Collider.CollideRectangle | engine/libflatkiss-logic/libflatkiss/logic/collider.cpp:206-217 | the two inner loops for a rectangle of the first solid return true exactly when it meets a shape of the second, ellipses tested as written |
| Collider.CollideSolids | engine/libflatkiss-logic/libflatkiss/logic/collider.cpp:191-220 | the loops return true exactly when the shapes of the solids, placed at their positions, collide, with the rectangle-ellipse test as written |
| Navigator.ClampInBounds | engine/libflatkiss-logic/libflatkiss/logic/navigator.cpp:32-43 | an object no larger than the bound ends inside it, one already strictly inside does not move, and clamping twice is clamping once |
| Navigator.ClampSolidInLevel | engine/libflatkiss-logic/libflatkiss/logic/navigator.cpp:45-56 | the absolute bounding box of a clamped solid lies within the level when the box fits it |
| Navigator.NearestFromStops | engine/libflatkiss-logic/libflatkiss/logic/navigator.cpp:103-118 | the loop from step k stops at the step before the first colliding step, or at the destination when none collides |
| Navigator.StopPastEnd | engine/libflatkiss-logic/libflatkiss/logic/navigator.cpp:103-118 | past the last step the walk ends at the destination |
| Navigator.StopHere | engine/libflatkiss-logic/libflatkiss/logic/navigator.cpp:106-113 | a colliding step k stops the walk at step k-1 |
| Navigator.StopLater | engine/libflatkiss-logic/libflatkiss/logic/navigator.cpp:103-114 | a free step k leaves the walk where the walk from step k+1 stops |
| Navigator.FreeStepsExtend | engine/libflatkiss-logic/libflatkiss/logic/navigator.cpp:103-114 | a free step k followed by free steps k+1.. gives free steps k.. |
| Navigator.FindNearest | engine/libflatkiss-logic/libflatkiss/logic/navigator.cpp:90-119 | the loop returns the point of the step before the first colliding step (steps scaled with truncating division), or the destination; this is Nearest |
| Navigator.LastStep | engine/libflatkiss-logic/libflatkiss/logic/navigator.cpp:101-105 | the last step reaches the destination |
| Navigator.FirstStep | engine/libflatkiss-logic/libflatkiss/logic/navigator.cpp:109-112 | step 0 is the starting point |
| Navigator.NearestIsFree | engine/libflatkiss-logic/libflatkiss/logic/navigator.cpp:90-119 | from a free position towards a destination that collides, the nearest position is free |
| Navigator.MoveByDirect | engine/libflatkiss-logic/libflatkiss/logic/navigator.cpp:129-170 | a clamped destination equal to the position gives the position, not side-stepped; a free one is reached directly |
| Navigator.SidesteppedOnlyBySideStep | engine/libflatkiss-logic/libflatkiss/logic/navigator.cpp:138-166 | a move side-steps only when side-stepping is on, the destination collides, the solid can get neither nearer nor slide, and it then moves |
| Navigator.SideStepOnlyAlongAxis | engine/libflatkiss-logic/libflatkiss/logic/navigator.cpp:182-203 | only a move along an axis side-steps |
| Navigator.SlideTriesXFirst | engine/libflatkiss-logic/libflatkiss/logic/navigator.cpp:262-280 | sliding takes the move along X alone when it leads somewhere, else the move along Y alone |
| Navigator.PlainMoveIsFree | engine/libflatkiss-logic/libflatkiss/logic/navigator.cpp:121-171 | a plain move (no slide, no side-step) from a free position ends at a free position |
| Navigator.MoveIsFree | engine/libflatkiss-logic/libflatkiss/logic/navigator.cpp:121-171 | a solid that starts free is never moved into a tile: every branch of moveBy ends at a free position |
| Navigator.SideStepIsFree | engine/libflatkiss-logic/libflatkiss/logic/navigator.cpp:182-203 | a side-step from a free position ends at a free position |
| Navigator.SideStepAlongIsFree | engine/libflatkiss-logic/libflatkiss/logic/navigator.cpp:205-260 | either direction of a side-step steps only to a free position |
| Character.DirectionsOf | engine/libflatkiss-model/libflatkiss/model/character.cpp:106-117 | West or East is in the set exactly when dx is negative or positive, North or South exactly when dy is negative or positive, and the set is empty only for the zero displacement |
| Character.CurrentAction | engine/libflatkiss-model/libflatkiss/model/character.cpp:47-60 | the action chosen walks exactly in the direction faced |
| Character.First | engine/libflatkiss-model/libflatkiss/model/character.cpp:125 | the first element of a non-empty direction set belongs to it and precedes every other in the set's order |
| Character.Facing | engine/libflatkiss-model/libflatkiss/model/character.cpp:104-128 | for a non-zero displacement the new facing is one of its directions; the facing changes exactly when the displacement has directions and the current one is not among them, and then it becomes the least of them |
| Character.FacingIsIdempotent | engine/libflatkiss-model/libflatkiss/model/character.cpp:119-127 | turning twice for the same displacement is turning once |
| Character.WalkKeepsFacing | engine/libflatkiss-model/libflatkiss/model/character.cpp:119-127 | moving the way the current action walks never turns the character |
| Character.SpriteIndexForAction | engine/libflatkiss-model/libflatkiss/model/action_sprite_mapper.cpp:35-41 | succeeds exactly for a mapped action, with its sprite; otherwise raises invalid_argument |
| Character.SpriteIndex | engine/libflatkiss-model/libflatkiss/model/character.cpp:83-87 | raises invalid_argument when the current action has no sprite, else is the animation player's sprite for the action's sprite at the tick |
| Character.ResetTickAsWritten | engine/libflatkiss-model/libflatkiss/model/character.cpp:79-80 | fails exactly when the displayed sprite cannot be computed; otherwise lies in -1 .. 254 |
| Character.ResetTick | engine/libflatkiss-model/libflatkiss/model/character.cpp:73-81 | defined exactly when the current action has a sprite, and then lies in -1 .. 254 |
| Character.ResetThenAnimates | engine/libflatkiss-model/libflatkiss/model/character.cpp:74-78 | after the reset the first frame of the action's animation shows, and the very next tick shows the second frame |
| Character.ResetOfStillSprite | engine/libflatkiss-model/libflatkiss/model/character.cpp:73-81 | for an action whose sprite is not animated both the reset as written and the intended one give tick -1, and the action's sprite shows at every tick |
| Character.AsWrittenOnFirstFrame | engine/libflatkiss-model/libflatkiss/model/character.cpp:73-81 | while the first sprite of the action's animation shows, the reset as written equals the intended reset |
| Character.AsWrittenResetLeavesFrames | engine/libflatkiss-model/libflatkiss/model/character.cpp:79-80 | a character on the second frame of a two-frame walk is reset to tick -1, where the sprite lookup is undefined |
| Character.ResetByActionSprite | engine/libflatkiss-model/libflatkiss/model/character.cpp:74-80 | in the same state the reset by the action's sprite gives tick 0, showing the first frame, and tick 1 shows the second |
| Character.TurnFor | engine/libflatkiss-model/libflatkiss/model/character.cpp:104-128 | the new facing is Facing of the old; an unchanged facing changes nothing; a change resets the tick as written, by the sprite the new facing shows at the old tick, and fails exactly when that sprite lookup fails (invalid_argument or undefined), leaving the tick alone |
| Character.Turn | engine/libflatkiss-model/libflatkiss/model/character.cpp:91-102 | a character that moved faces one of the directions it moved in; one that did not move resets its tick as written (raising, unchanged, when the shown sprite cannot be looked up) and turns toward the desired displacement |
| Character.AsWrittenBlockedTurn | engine/libflatkiss-model/libflatkiss/model/character.cpp:91-102 | a blocked character facing South on tick 1 of the two-frame walk ends on tick -1, where the intended reset gives 0 |
| Character.StraightWalkTicks | engine/libflatkiss-model/libflatkiss/model/character.cpp:95-97 | moving the way the character faces keeps its facing and adds exactly one tick |
| Character.Character.constructor | engine/libflatkiss-model/libflatkiss/model/character.cpp:35-45 | a new character faces South, on tick 0, at its initial position |
| Character.Character.ResetAnimationTick | engine/libflatkiss-model/libflatkiss/model/character.cpp:73-81 | the tick becomes ResetTickAsWritten (the duration of the sprite shown now, minus one), or the method raises and the state is unchanged |
| Character.Character.UpdateFacingDirectionForDisplacement | engine/libflatkiss-model/libflatkiss/model/character.cpp:104-128 | the new facing, tick and outcome are those of TurnFor, with the reset as written |
| Character.Character.UpdateFacingDirection | engine/libflatkiss-model/libflatkiss/model/character.cpp:91-102 | the new facing, tick and outcome are those of Turn, with the reset as written |
| Character.Character.MoveBy | engine/libflatkiss-model/libflatkiss/model/character.cpp:62-67 | the facing logic sees the displacement actually made; the character stands at the navigator's position unless that logic raised |
| Character.ReadRecord | engine/libflatkiss-model/libflatkiss/model/character.cpp:147-171 | a record takes 25 bytes off the stream, or the whole stream when fewer are left |
| Character.RecordsReadCount | engine/libflatkiss-model/libflatkiss/model/character.cpp:146-178 | the loop reads one record per 25 bytes, rounding up |
| Character.ReadInt64 | engine/libflatkiss-model/libflatkiss/model/character.cpp:155-157 | an eight-byte two's-complement field reads back as the int64 written |
| Character.ReadU16 | engine/libflatkiss-model/libflatkiss/model/character.cpp:159-168 | a two-byte field reads back as the value written |
| Character.ReadU8 | engine/libflatkiss-model/libflatkiss/model/character.cpp:170-171 | a one-byte field reads back as the value written |
| Character.ReadRecordBytes | engine/libflatkiss-model/libflatkiss/model/character.cpp:147-171 | a record laid out as the loader reads it reads back, leaving the stream after its 25 bytes |
| Character.RecordsRoundTrip | engine/libflatkiss-model/libflatkiss/model/character.cpp:146-178 | a file of such records reads back record for record |
| Character.Place | engine/libflatkiss-model/libflatkiss/model/character.cpp:172-176 | succeeds exactly when the spriteset index is in range and the three keys exist; an out-of-range spriteset index is undefined behaviour; the position is the tile position times the tile size, and the four indices are the record's |
| Character.PlaceAll | engine/libflatkiss-model/libflatkiss/model/character.cpp:146-178 | succeeds exactly when every record can be placed, with one controller type per record, in file order, and character i is the placement of record i |
| Character.LoadAfterWrite | engine/libflatkiss-model/libflatkiss/model/character.cpp:134-182 | characters written in the loader's layout load one per record, each with its own controller type, its four indices and its position (x times the tile width, y times the tile height) |
| Character.Load | engine/libflatkiss-model/libflatkiss/model/character.cpp:134-182 | the loop computes CharactersRead of the file's bytes |
| Bytes.ListIndex | editor.py:332-333 | a Python list index succeeds exactly for -n <= k < n, lands inside the list, and is k itself for a non-negative k |
| Bytes.LittleEndianRoundTrip | assets/spritesets_to_bin.py:28-32 | the little-endian bytes of a value below 256^n decode to that value |
| Bytes.LittleEndianBytesRoundTrip | assets/spritesets_to_bin.py:28-32 | re-encoding the value of a byte string on its own length gives the string back |
| Bytes.ToBytes | assets/spritesets_to_bin.py:28 | to_bytes(n, 'little') succeeds exactly for 0 <= v < 256^n, and then writes n bytes whose little-endian value is v |
| Bytes.Fields | assets/spritesets_to_bin.py:27-32 | a run of writes succeeds exactly when every value fits the width, writes width bytes per value, and otherwise raises OverflowError |
| Bytes.FieldsRoundTrip | assets/spritesets_to_bin.py:27-32 | the values of the fields written are the values given |
| Bytes.ValuesRoundTrip | assets/spritesets_to_bin.py:27-32 | the values read from whole fields re-encode to the same bytes |
| Bytes.FieldsAppend | assets/spritesets_to_bin.py:27-32 | writing two runs of fields is writing their concatenation, the first failure winning |
| Bytes.WriteFields | assets/spritesets_to_bin.py:29-30 | the write loop produces Fields of the values: the bytes, or the first value's OverflowError |
| StreamReader.Read | engine/libflatkiss-data/libflatkiss/data/stream_reader.cpp:26-37 | the value is the n-byte little-endian read of the stream, missing bytes counting as 0, as an int64; the stream advances by n bytes or to its end |
| StreamReader.ReadValueBounds | engine/libflatkiss-data/libflatkiss/data/stream_reader.cpp:26-37 | a read of at most seven bytes is non-negative, below 256^n, and is the unsigned value of the bytes |
| StreamReader.ReadOneByte | engine/libflatkiss-data/libflatkiss/data/stream_reader.cpp:26-37 | a one-byte read is the next byte, or 0 at the end of the stream |
| StreamReader.ShortRead | engine/libflatkiss-data/libflatkiss/data/stream_reader.cpp:29-31 | a read past the end of the stream has the value of the bytes that were there and leaves the stream empty |
| StreamReader.ReadWritten | engine/libflatkiss-data/libflatkiss/data/stream_reader.cpp:26-37 | a value written with to_bytes(n, 'little') reads back, and the stream stands after its n bytes |
| StreamReader.PaddedSplit | engine/libflatkiss-data/libflatkiss/data/stream_reader.cpp:29-31 | reading a + b bytes is reading a bytes and then b |
| StreamReader.U16IsRead | engine/libflatkiss-data/libflatkiss/data/stream_reader.cpp:26-37 | the two-byte read written out is the value of read(stream, 2) |
| StreamReader.U8IsRead | engine/libflatkiss-data/libflatkiss/data/stream_reader.cpp:26-37 | the one-byte read written out is the value of read(stream, 1) |
| StreamReader.U16OfField | engine/libflatkiss-data/libflatkiss/data/stream_reader.cpp:26-37 | a value written on two bytes reads back whatever follows it |
| StreamReader.U8OfField | engine/libflatkiss-data/libflatkiss/data/stream_reader.cpp:26-37 | a value written on one byte reads back whatever follows it |
| StreamReader.ReadU16sIsBlockRead | engine/libflatkiss-data/libflatkiss/data/loader_level.cpp:67-71 | reading n two-byte values one by one is reading the whole block of 2n bytes at once into zeroed values |
| StreamReader.ReadU16sOfFields | engine/libflatkiss-data/libflatkiss/data/stream_reader.cpp:26-37 | values written as two-byte fields read back in order, leaving what follows |
| StreamReader.ReadU8sOfFields | engine/libflatkiss-data/libflatkiss/data/stream_reader.cpp:26-37 | values written as one-byte fields read back in order, leaving what follows |
| StreamReader.ReadU16sRange | engine/libflatkiss-data/libflatkiss/data/stream_reader.cpp:26-37 | every value of consecutive two-byte reads lies in 0 .. 65535 |
| LevelsToBin.LevelBytes | assets/levels_to_bin.py:36-45 | a level takes two bytes for each header value, character value and tile |
| LevelsToBin.HeaderInRange | assets/levels_to_bin.py:36-41 | once the header is written every header value lies in 0 .. 65535 |
| LevelsToBin.Mark | assets/levels_to_bin.py:32-33 | the end of the characters' tokens lies between 6 and the number of tokens |
| LevelsToBin.End | assets/levels_to_bin.py:34 | the end of the tiles' tokens lies between that of the characters and the number of tokens |
| LevelsToBin.EncodeLevel | assets/levels_to_bin.py:24-47 | fewer than six tokens raise IndexError and nothing else does; the only other error is OverflowError; a pass consumes a non-empty prefix of the tokens and writes two bytes per token consumed |
| LevelsToBin.HeaderOverflow | assets/levels_to_bin.py:36-41 | a header value outside 0 .. 65535 raises OverflowError, before any character or tile is written |
| LevelsToBin.BodyOverflow | assets/levels_to_bin.py:42-45 | once the header fits, a character or tile token outside 0 .. 65535 raises OverflowError |
| LevelsToBin.LevelsBinaryFails | assets/levels_to_bin.py:24-47 | a pass that raises ends the script with that exception |
| LevelsToBin.LevelsBinaryStep | assets/levels_to_bin.py:24-47 | a pass that succeeds writes its level ahead of what the later passes write |
| LevelsToBin.LevelsToBinary | assets/levels_to_bin.py:24-47 | the loop produces LevelsBinary of the tokens |
| LevelsToBin.EncodeLevelOf | assets/levels_to_bin.py:24-47 | the tokens of a well-formed level, followed by more, encode as the level's bytes and leave exactly the tokens that follow |
| LevelsToBin.EncodeLevels | assets/levels_to_bin.py:24-47 | levels given in full encode to their bytes, one after the other |
| LevelsToBin.FileLength | assets/levels_to_bin.py:24-47 | the file holds two bytes per token |
| LevelsToBin.ShortLastLevel | assets/levels_to_bin.py:34 | a last level with fewer tiles than its header announces is written as far as its tokens go, without an error |
| LevelsFromBin.FlattenChunks | levels/levels_from_bin.py:40-45 | the rows of values hold the values in order, with or without the empty line of an empty run |
| LevelsFromBin.ChunksShape | levels/levels_from_bin.py:44 | k * n values make n rows of k |
| LevelsFromBin.Unpack | levels/levels_from_bin.py:32-35 | struct.unpack of n values succeeds exactly on 2n bytes, giving n values, and otherwise raises struct.error |
| LevelsFromBin.DecodeLevel | levels/levels_from_bin.py:29-48 | fewer than twelve bytes raise struct.error; the only errors are struct.error and ValueError; a pass consumes a non-empty prefix of the bytes |
| LevelsFromBin.DecodeCharacters | levels/levels_from_bin.py:33-34 | the characters' slice raises struct.error or ValueError only, and leaves a suffix of the bytes |
| LevelsFromBin.DecodeTiles | levels/levels_from_bin.py:35-48 | the tiles' slice raises struct.error or ValueError only, and leaves a suffix of the bytes |
| LevelsFromBin.LevelsTextFails | levels/levels_from_bin.py:29-48 | a pass that raises ends the script with that exception |
| LevelsFromBin.LevelsTextStep | levels/levels_from_bin.py:29-48 | a pass that succeeds writes its lines ahead of what the later passes write |
| LevelsFromBin.LevelsToText | levels/levels_from_bin.py:29-51 | the loop produces LevelsText of the bytes |
| LevelsFromBin.LevelLinesShape | levels/levels_from_bin.py:37-45 | a level's lines hold its tokens in order: one header line, a line per character or one empty line, a line per row of tiles or one empty line, each row width tiles long |
| LevelsFromBin.AllLinesTokens | levels/levels_from_bin.py:29-51 | the tokens of all the lines are the tokens of the levels |
| LevelsFromBin.DecodeLevelBytes | levels/levels_from_bin.py:29-48 | the bytes of a level, followed by more, decode to its lines and leave what follows, or raise ValueError for a width of 0 |
| LevelsFromBin.DecodeLevelOf | levels/levels_from_bin.py:29-48 | the bytes of a level with a width, followed by more, decode as its lines and leave exactly what follows |
| LevelsFromBin.DecodeAfterEncode | levels/levels_from_bin.py:29-51 | what the encoder writes for levels with a width decodes to their lines, whose tokens are the tokens the encoder read |
| LevelsFromBin.DecodeLevels | levels/levels_from_bin.py:29-51 | the file of levels with a width decodes to their lines |
| LevelsFromBin.ZeroWidthRaises | levels/levels_from_bin.py:44 | a level of width 0 encodes, but decoding it raises ValueError |
| LoaderLevel.PlaceCharacters | engine/libflatkiss-data/libflatkiss/data/loader_level.cpp:52-65 | the characters are built exactly when there are none, or the spriteset and every template index exist; one character per triple; otherwise undefined behaviour |
| LoaderLevel.CharacterPositions | engine/libflatkiss-data/libflatkiss/data/loader_level.cpp:57-64 | character i copies template i's index and stands at its (x, y) times the sprite size of the level's spriteset |
| LoaderLevel.PlaceFails | engine/libflatkiss-data/libflatkiss/data/loader_level.cpp:57-64 | one template or spriteset index out of range makes the whole level undefined |
| LoaderLevel.TilesLayout | engine/libflatkiss-data/libflatkiss/data/loader_level.cpp:66-71 | the tile vector has 2 * width * height entries: entry i of the first half is the two bytes 2i bytes into the block, the second half stays zero |
| LoaderLevel.ReadLevel | engine/libflatkiss-data/libflatkiss/data/loader_level.cpp:43-76 | a pass over a non-empty stream consumes bytes; its only errors are undefined behaviour and out_of_range |
| LoaderLevel.ReadBody | engine/libflatkiss-data/libflatkiss/data/loader_level.cpp:52-76 | the body's only errors are undefined behaviour and out_of_range, and it leaves a suffix of the stream |
| LoaderLevel.LevelsReadFails | engine/libflatkiss-data/libflatkiss/data/loader_level.cpp:43-77 | a level that cannot be built ends the load with its error |
| LoaderLevel.LevelsReadStep | engine/libflatkiss-data/libflatkiss/data/loader_level.cpp:43-77 | a level that can be built comes before the levels the rest of the file yields |
| LoaderLevel.TripleAt | engine/libflatkiss-data/libflatkiss/data/loader_level.cpp:53-56 | the (index, x, y) of character i is read 6i bytes into the characters |
| LoaderLevel.ReadCharacters | engine/libflatkiss-data/libflatkiss/data/loader_level.cpp:53-65 | the character loop computes PlaceCharacters of the triples read |
| LoaderLevel.LoadLevel | engine/libflatkiss-data/libflatkiss/data/loader_level.cpp:44-76 | one pass of the loop computes ReadLevel of the stream |
| LoaderLevel.Load | engine/libflatkiss-data/libflatkiss/data/loader_level.cpp:34-82 | the loop computes LevelsRead of the file's bytes |
| LoaderLevel.ReadLevelOf | engine/libflatkiss-data/libflatkiss/data/loader_level.cpp:43-76 | a level as the encoder writes it, followed by more, loads as that level and leaves the stream after it |
| LoaderLevel.LoadAfterEncode | engine/libflatkiss-data/libflatkiss/data/loader_level.cpp:34-82 | the file the encoder writes for levels whose indices exist loads as those levels, in order |
| SpritesetsToBin.SpritesetBytes | assets/spritesets_to_bin.py:26-32 | a line is written exactly when each of its first eleven fields fits its width, otherwise OverflowError; a line of at least eleven fields makes 17 bytes |
| SpritesetsToBin.ExtraFieldsIgnored | assets/spritesets_to_bin.py:27-32 | fields past the eleventh change nothing |
| SpritesetsToBin.FileLength | assets/spritesets_to_bin.py:25-32 | lines of eleven fields that fit make a file of 17 bytes per line |
| SpritesetsToBin.SpritesetsToBinary | assets/spritesets_to_bin.py:25-32 | the loop writes SpritesetsBinary of the lines: their records in order, or the first OverflowError |
| LoaderSpriteset.ReadSpriteset | engine/libflatkiss-data/libflatkiss/data/loader_spriteset.cpp:36-72 | a record consumes bytes from a non-empty stream, and exactly 17 when that many are there |
| LoaderSpriteset.SpritesetsReadCount | engine/libflatkiss-data/libflatkiss/data/loader_spriteset.cpp:34-73 | one spriteset per 17 bytes, rounding up; length / 17 for a file of whole records |
| LoaderSpriteset.RecordFields | engine/libflatkiss-data/libflatkiss/data/loader_spriteset.cpp:48-72 | the eleven reads at their offsets make the record, the fifth field the top offset and the sixth the left offset |
| LoaderSpriteset.Load | engine/libflatkiss-data/libflatkiss/data/loader_spriteset.cpp:29-78 | the loop computes SpritesetsRead of the file's bytes |
| LoaderSpriteset.ReadRecordOf | engine/libflatkiss-data/libflatkiss/data/loader_spriteset.cpp:48-72 | the record of a line written in full reads back as that line's spriteset, field 4 the top offset and field 5 the left offset, leaving what follows |
| LoaderSpriteset.LoadAfterEncode | engine/libflatkiss-data/libflatkiss/data/loader_spriteset.cpp:29-78 | the file the encoder writes for lines written in full loads as one spriteset per line, in line order |

## Left out

- Windows, rendering and input: the pyglet windows of the editors, the SDL renderer, textures, events and keyboard state. They are UI and foreign calls.
- File I/O.
  - Files are modelled as the byte sequences they hold, and the text files as the integers of their lines.
  - What a script has already written when it raises is not modelled; an encoder's result is its bytes or its exception.
  - Opening a file that does not exist is not modelled.
- Configuration readers, argument parsing, the `generate_assets.py` orchestrator and the picture fetch. They are plumbing around the modelled functions.
- Tokens that are not integers. `int(token)` raising ValueError is not modelled; the text files are given as integers.
- Directory iteration order and the regular expression that selects the files. Both are inputs: the directory is a sequence of entries and the regex match is a predicate parameter (`Generators`).
- The text formatting of `levels/levels_from_bin.py`. Zero padding, spaces and newlines are left out; a line is modelled by its values.
- The seconds-based animation duration of `editor.py`. It is floating point; the model keeps the duration byte the editor reads.
- The tileset picture and its loading in the editors. The tileset is its size in tiles, its tile size and its gap.
- Editor.Controller.Caption: models the caption as the selected tile and the unsaved flag, not its text.
- Editor.Controller.Open: the windows `__init__` creates are not modelled, nor the animations file they load; an exception while loading the animations is not among its errors.
- Generators.FirstDigit: only the ASCII digits '0' to '9' are digits. Python's `\d` on a `str` also matches the other Unicode decimal digits, and `int` converts them; a name whose only digit is, say, ARABIC-INDIC DIGIT THREE is written under index 3 by the scripts and raises TypeError in the model. The Unicode digit table is not modelled.
- Generators.GroupIndexBytes: follows FirstDigit, so it shares that gap: a name whose first decimal digit is not ASCII gives a different index, or TypeError, in the model.
- The tileset width of `levels/editor.py` comes from the configuration. The model's width in tiles is a natural number, so a negative width is not modelled.
- The floating-point collision tests (circle/segment math, ellipse against ellipse). The integer `collide` for two ellipses returns false, and that is what the model states.
- 64-bit overflow.
  - The collision tests, the navigator and the character positions are computed on unbounded integers.
  - The bounding box of a solid is modelled with its int64 limits, since the empty solid depends on them.
- Character.Character.MoveBy: the navigator's answer is a parameter. `Navigator.MoveBy` models that answer on its own.
- The character's animation tick is unbounded; int64 overflow of the tick is not modelled.
- The collision of a solid with the tiles (`collidesWithTiles`, `solidCollidesWithTileAtPosition`) is an abstract predicate of the scene (`Navigator.Scene.collides`). The tile-to-solid lookup behind it is `TileSolidMapper`.
- The order of `CardinalDirection` in a `std::set` follows its enumerator order. The declaring header is not part of this model; the order West, South, East, North of `currentAction` is assumed.
- A level's characters copy a character template. The template's spriteset, mapper, animation player, controllers and solid are represented by the template's index.
- A spriteset line with fewer than eleven fields writes a shorter record, which the model does write. The loader then reads across record boundaries; the model states only the round trip of full lines.
- Duplicate and legacy variants of the modelled logic are left out:
  - the `src/` copies of the collision, navigator, level and animation code;
  - the older encoders under `assets/` and `levels/` other than `assets/levels_to_bin.py` and `assets/spritesets_to_bin.py`;
  - the engine's `level.cpp` and `animation_player.cpp`.
- The engine loaders that read whole C structs with `reinterpret_cast` (animation players, action-sprite mappers, character templates). Their layout depends on struct padding.
- The stroll controller (random) and the viewport clamp of the main loop.

## Findings

The modelled operations behave as the code is written. Each corrected definition below is stated beside them, with its intended property proved.

| source | as written | input that shows it | evidently intended | confidence | as-written member | corrected member |
|---|---|---|---|---|---|---|
| editor.py:327-330 | `_Level.reverse` slices rows of `width` tiles but starts a row every `height` tiles | a level 2 tiles wide and 1 high: rows start at 0 and 1, giving the rows [t0, t1] and [t1], so the level grows from 2 tiles to 3 | start a row every `width` tiles, so that the reversal is a permutation of the tiles and its own inverse | high (not executed) | Editor.AsWrittenReverseDuplicatesTiles | Grid.ReversedLevelInvolution |
| engine/libflatkiss-logic/libflatkiss/logic/collider.cpp:146-158 | the second test of rectangle against ellipse is implied by its first disjunct, so any ellipse whose centre is level with the rectangle horizontally and below its top collides | the rectangle (0, 0, 10, 10) and the circle of centre (5, 1000) and radius 1 collide | the ellipse's box overlaps the rectangle on both axes | high (not executed) | Collider.AsWrittenFarCircle | Collider.CollisionNeedsOverlap |
| engine/libflatkiss-model/libflatkiss/model/character.cpp:79-80 | `resetAnimationTick` takes the duration of the sprite shown now, but animations are keyed by their first sprite only; on a later frame the duration is 0 and the tick becomes -1 | a walk-down animation of sprites 7 then 8, one tick each, facing South on tick 1 (sprite 8 shown): the tick becomes -1, where the frame index is -1 | the duration of the current action's first sprite, minus one, so that the next tick starts the animation | medium (not executed) | Character.AsWrittenResetLeavesFrames | Character.ResetThenAnimates |
