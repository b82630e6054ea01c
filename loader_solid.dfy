// LoaderSolid (engine/libflatkiss-data/libflatkiss/data/loader_solid.cpp):
// groups of five-byte pieces read to the end of the file, each group a
// Solid under its solid index.

module LoaderSolid {
  import opened Bytes
  import opened StreamReader
  import opened UnorderedMap
  import opened Solid

  /** One piece as stored: its collision type, position and size. */
  datatype Piece = Piece(kind: int, x: int, y: int, width: int, height: int)

  /** A piece: five one-byte reads. */
  function ReadPiece(bs: seq<byte>): Piece
  {
    Piece(U8(bs), U8(Rest(bs, 1)), U8(Rest(bs, 2)), U8(Rest(bs, 3)), U8(Rest(bs, 4)))
  }

  /** The `count` pieces of a solid, five bytes each; reads past the end of
      the file give zeros. */
  function ReadPieces(bs: seq<byte>, count: nat): (pieces: seq<Piece>)
    ensures |pieces| == count
    decreases count
  {
    if count == 0 then [] else [ReadPiece(bs)] + ReadPieces(Rest(bs, 5), count - 1)
  }

  /** The ellipses of a solid: the pieces of type 1, in order, the size
      giving the radii. */
  function EllipsesOf(pieces: seq<Piece>): seq<PositionedEllipse>
  {
    if pieces == [] then []
    else
      var p := pieces[0];
      (if p.kind == 1 then [PositionedEllipse(p.x, p.y, p.width, p.height)] else []) + EllipsesOf(pieces[1..])
  }

  /** The rectangles of a solid: the pieces of type 0, in order. */
  function RectanglesOf(pieces: seq<Piece>): seq<PositionedRectangle>
  {
    if pieces == [] then []
    else
      var p := pieces[0];
      (if p.kind == 0 then [PositionedRectangle(p.x, p.y, p.width, p.height)] else []) + RectanglesOf(pieces[1..])
  }

  /** `loadSolid`: the solid built from the pieces, and the stream after
      them. A solid without a rectangle or an ellipse has no bounding box
      (the computation overflows). */
  function SolidRead(bs: seq<byte>, count: nat): (Result<Solid>, seq<byte>)
  {
    var pieces := ReadPieces(bs, count);
    (NewSolid(EllipsesOf(pieces), RectanglesOf(pieces)), Rest(bs, 5 * count))
  }

  /** `load`: index and size on two bytes each, then the solid, until the
      end of the file; an index met again keeps its first solid. */
  function SolidsRead(bs: seq<byte>, acc: map<int, Solid>): Result<map<int, Solid>>
    decreases |bs|
  {
    if bs == [] then Ok(acc)
    else
      var index, size := U16(bs), U16(Rest(bs, 2));
      var (solid, rest) := SolidRead(Rest(bs, 4), size);
      if solid.Err? then Err(solid.error)
      else SolidsRead(rest, Emplace(acc, index, solid.value))
  }

  // ---------------------------------------------------------------------
  // What a solid holds

  /** The number of pieces of one collision type. */
  function CountKind(pieces: seq<Piece>, kind: int): nat
  {
    if pieces == [] then 0 else (if pieces[0].kind == kind then 1 else 0) + CountKind(pieces[1..], kind)
  }

  /** There is one ellipse per piece of type 1 and one rectangle per piece
      of type 0; pieces of any other type add nothing. */
  lemma {:induction false} ShapesOfPieces(pieces: seq<Piece>)
    ensures |EllipsesOf(pieces)| == CountKind(pieces, 1)
    ensures |RectanglesOf(pieces)| == CountKind(pieces, 0)
    ensures |EllipsesOf(pieces)| + |RectanglesOf(pieces)| <= |pieces|
  {
    if pieces != [] {
      ShapesOfPieces(pieces[1..]);
    }
  }

  /** Every piece of type 0 or 1 becomes a shape: the shapes are as many as
      the pieces exactly when no piece has another type. */
  lemma {:induction false} AllPiecesKept(pieces: seq<Piece>)
    ensures |EllipsesOf(pieces)| + |RectanglesOf(pieces)| == |pieces|
            <==> forall k :: 0 <= k < |pieces| ==> pieces[k].kind == 0 || pieces[k].kind == 1
  {
    ShapesOfPieces(pieces);
    if pieces != [] {
      AllPiecesKept(pieces[1..]);
      ShapesOfPieces(pieces[1..]);
      assert forall k :: 1 <= k < |pieces| ==> pieces[k] == pieces[1..][k - 1];
    }
  }

  /** A solid index already loaded keeps its first solid whatever follows. */
  lemma {:induction false} FirstSolidWins(bs: seq<byte>, acc: map<int, Solid>, index: int)
    requires index in acc && SolidsRead(bs, acc).Ok?
    ensures index in SolidsRead(bs, acc).value && SolidsRead(bs, acc).value[index] == acc[index]
    decreases |bs|
  {
    if bs != [] {
      var (solid, rest) := SolidRead(Rest(bs, 4), U16(Rest(bs, 2)));
      FirstSolidWins(rest, Emplace(acc, U16(bs), solid.value), index);
    }
  }

  /** Every solid loaded was built by the Solid constructor, so it has
      at least one shape and its box is that of its shapes. */
  lemma {:induction false} LoadedSolidsWellFormed(bs: seq<byte>, acc: map<int, Solid>)
    requires forall i :: i in acc ==> WellFormed(acc[i])
    requires SolidsRead(bs, acc).Ok?
    ensures forall i :: i in SolidsRead(bs, acc).value ==> WellFormed(SolidsRead(bs, acc).value[i])
    decreases |bs|
  {
    if bs != [] {
      var (solid, rest) := SolidRead(Rest(bs, 4), U16(Rest(bs, 2)));
      LoadedSolidsWellFormed(rest, Emplace(acc, U16(bs), solid.value));
    }
  }

  // ---------------------------------------------------------------------
  // The loops of the loader

  /** `loadSolid`: `solidSize` passes, each reading five bytes and keeping
      a rectangle for type 0, an ellipse for type 1 and nothing otherwise. */
  method LoadSolid(stream: seq<byte>, solidSize: nat) returns (solid: Result<Solid>, rest: seq<byte>)
    ensures (solid, rest) == SolidRead(stream, solidSize)
  {
    var rectangles: seq<PositionedRectangle> := [];
    var ellipses: seq<PositionedEllipse> := [];
    ghost var allEllipses, allRectangles := EllipsesOf(ReadPieces(stream, solidSize)), RectanglesOf(ReadPieces(stream, solidSize));
    rest := stream;
    var left := solidSize;
    while left > 0
      invariant ellipses + EllipsesOf(ReadPieces(rest, left)) == allEllipses
      invariant rectangles + RectanglesOf(ReadPieces(rest, left)) == allRectangles
      invariant Rest(rest, 5 * left) == Rest(stream, 5 * solidSize)
    {
      var p := ReadPiece(rest);
      ghost var before := (ellipses, rectangles);
      if p.kind == 0 {
        rectangles := rectangles + [PositionedRectangle(p.x, p.y, p.width, p.height)];
      } else if p.kind == 1 {
        ellipses := ellipses + [PositionedEllipse(p.x, p.y, p.width, p.height)];
      }
      EllipsesStep(before.0, ellipses, rest, left);
      RectanglesStep(before.1, rectangles, rest, left);
      RestRest(rest, 5, 5 * (left - 1));
      rest := Rest(rest, 5);
      left := left - 1;
    }
    assert ellipses + [] == ellipses && rectangles + [] == rectangles;
    solid := Create(ellipses, rectangles);
  }

  /** One piece read: its ellipse, if it is one, comes before those of the
      pieces after it. */
  lemma EllipsesStep(ellipses: seq<PositionedEllipse>, next: seq<PositionedEllipse>, bs: seq<byte>, count: nat)
    requires count > 0
    requires var p := ReadPiece(bs);
             next == if p.kind == 1 then ellipses + [PositionedEllipse(p.x, p.y, p.width, p.height)] else ellipses
    ensures ellipses + EllipsesOf(ReadPieces(bs, count)) == next + EllipsesOf(ReadPieces(Rest(bs, 5), count - 1))
  {
    var pieces, p := ReadPieces(bs, count), ReadPiece(bs);
    assert pieces[0] == p && pieces[1..] == ReadPieces(Rest(bs, 5), count - 1);
    var later := EllipsesOf(pieces[1..]);
    if p.kind == 1 {
      AppendAssoc(ellipses, [PositionedEllipse(p.x, p.y, p.width, p.height)], later);
    } else {
      assert EllipsesOf(pieces) == [] + later;
    }
  }

  /** One piece read: its rectangle, if it is one, comes before those of
      the pieces after it. */
  lemma RectanglesStep(rectangles: seq<PositionedRectangle>, next: seq<PositionedRectangle>, bs: seq<byte>, count: nat)
    requires count > 0
    requires var p := ReadPiece(bs);
             next == if p.kind == 0 then rectangles + [PositionedRectangle(p.x, p.y, p.width, p.height)] else rectangles
    ensures rectangles + RectanglesOf(ReadPieces(bs, count)) == next + RectanglesOf(ReadPieces(Rest(bs, 5), count - 1))
  {
    var pieces, p := ReadPieces(bs, count), ReadPiece(bs);
    assert pieces[0] == p && pieces[1..] == ReadPieces(Rest(bs, 5), count - 1);
    var later := RectanglesOf(pieces[1..]);
    if p.kind == 0 {
      AppendAssoc(rectangles, [PositionedRectangle(p.x, p.y, p.width, p.height)], later);
    } else {
      assert RectanglesOf(pieces) == [] + later;
    }
  }

  /** `LoaderSolid::load` on the bytes of the file. */
  method Load(data: seq<byte>) returns (solids: Result<map<int, Solid>>)
    ensures solids == SolidsRead(data, map[])
  {
    var solidsPerIndex: map<int, Solid> := map[];
    var rest := data;
    while rest != []
      invariant SolidsRead(data, map[]) == SolidsRead(rest, solidsPerIndex)
      decreases |rest|
    {
      var solidIndex := U16(rest);
      var solidSize := U16(Rest(rest, 2));
      var solid, after := LoadSolid(Rest(rest, 4), solidSize);
      if solid.Err? {
        return Err(solid.error);
      }
      solidsPerIndex := Emplace(solidsPerIndex, solidIndex, solid.value);
      rest := after;
    }
    solids := Ok(solidsPerIndex);
  }
}
