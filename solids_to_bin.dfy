// The solids encoder (sample-assets/generators/solids_to_bin.py): the lines
// "index type x y width height" of one text file grouped by solid index, in
// the order the indices first appear, each group written as its index, its
// number of pieces and the pieces one byte per value; and the round trip
// through the engine's solid loader.

module SolidsToBin {
  import opened Bytes
  import opened StreamReader
  import opened UnorderedMap
  import opened Solid
  import opened LoaderSolid

  // ---------------------------------------------------------------------
  // The grouping: a defaultdict(list) keyed by the first integer of a line

  /** An empty line has no first integer: `integers[0]` raises IndexError. */
  predicate NoEmptyLine(lines: seq<seq<int>>)
  {
    forall k :: 0 <= k < |lines| ==> lines[k] != []
  }

  /** The keys of the dictionary after the first n lines, in insertion
      order: an index is added the first time a line names it. */
  function Indices(lines: seq<seq<int>>, n: nat): seq<int>
    requires n <= |lines|
  {
    if n == 0 then []
    else
      var earlier, line := Indices(lines, n - 1), lines[n - 1];
      if line == [] || line[0] in earlier then earlier else earlier + [line[0]]
  }

  /** The list of solid `index` after the first n lines: the rest of each
      line naming it, in the order of the lines. */
  function PiecesOf(lines: seq<seq<int>>, n: nat, index: int): (pieces: seq<seq<int>>)
    requires n <= |lines|
    ensures |pieces| <= n
  {
    if n == 0 then []
    else
      var line := lines[n - 1];
      PiecesOf(lines, n - 1, index) + (if line != [] && line[0] == index then [line[1..]] else [])
  }

  /** The dictionary as the generator builds it: its keys in insertion
      order and the list under each key. */
  datatype Groups = Groups(order: seq<int>, pieces: map<int, seq<seq<int>>>)

  /** The loop over the lines: each line's rest appended to the list of its
      first integer, a new key starting an empty list; IndexError at the
      first empty line. */
  method GroupLines(lines: seq<seq<int>>) returns (r: Result<Groups>)
    ensures r.Err? <==> !NoEmptyLine(lines)
    ensures r.Err? ==> r.error == IndexError
    ensures r.Ok? ==> r.value.order == Indices(lines, |lines|)
    ensures r.Ok? ==> forall index :: index in r.value.pieces <==> index in r.value.order
    ensures r.Ok? ==> forall index :: index in r.value.pieces ==> r.value.pieces[index] == PiecesOf(lines, |lines|, index)
  {
    var order: seq<int> := [];
    var pieces: map<int, seq<seq<int>>> := map[];
    var i := 0;
    while i < |lines|
      invariant 0 <= i <= |lines|
      invariant forall k :: 0 <= k < i ==> lines[k] != []
      invariant Grouped(lines, i, order, pieces)
    {
      var line := lines[i];
      if line == [] {
        return Err(IndexError);
      }
      var index := line[0];
      GroupStep(lines, i, order, pieces);
      var before := if index in pieces then pieces[index] else [];
      if index !in pieces {
        order := order + [index];
      }
      pieces := pieces[index := before + [line[1..]]];
      i := i + 1;
    }
    r := Ok(Groups(order, pieces));
  }

  /** The dictionary after the first n lines: its keys in insertion order,
      each holding the rests of the lines naming it. */
  ghost predicate Grouped(lines: seq<seq<int>>, n: nat, order: seq<int>, pieces: map<int, seq<seq<int>>>)
    requires n <= |lines|
  {
    && order == Indices(lines, n)
    && (forall index :: index in pieces <==> index in order)
    && (forall index :: index in pieces ==> pieces[index] == PiecesOf(lines, n, index))
  }

  /** One more line: its rest appended to the list of its first integer, a
      new key starting an empty list at the end of the order. */
  lemma GroupStep(lines: seq<seq<int>>, i: nat, order: seq<int>, pieces: map<int, seq<seq<int>>>)
    requires i < |lines| && lines[i] != [] && Grouped(lines, i, order, pieces)
    ensures var index := lines[i][0];
      var before := if index in pieces then pieces[index] else [];
      Grouped(lines, i + 1, if index in pieces then order else order + [index], pieces[index := before + [lines[i][1..]]])
  {
    var index := lines[i][0];
    if index !in pieces {
      PiecesOfAbsent(lines, i, index);
    }
    var before := if index in pieces then pieces[index] else [];
    var after := pieces[index := before + [lines[i][1..]]];
    forall other | other in after
      ensures after[other] == PiecesOf(lines, i + 1, other)
    {
      if other != index {
        assert PiecesOf(lines, i + 1, other) == PiecesOf(lines, i, other) + [];
      }
    }
  }

  /** An index no line has named has an empty list. */
  lemma {:induction false} PiecesOfAbsent(lines: seq<seq<int>>, n: nat, index: int)
    requires n <= |lines| && index !in Indices(lines, n)
    ensures PiecesOf(lines, n, index) == []
  {
    if n > 0 {
      PiecesOfAbsent(lines, n - 1, index);
    }
  }

  // ---------------------------------------------------------------------
  // What the grouping keeps

  /** The keys are the first integers of the lines, each once. */
  lemma {:induction false} IndicesOfLines(lines: seq<seq<int>>, n: nat)
    requires n <= |lines|
    ensures forall index :: index in Indices(lines, n) <==> exists k :: 0 <= k < n && lines[k] != [] && lines[k][0] == index
    ensures forall i, j :: 0 <= i < j < |Indices(lines, n)| ==> Indices(lines, n)[i] != Indices(lines, n)[j]
  {
    if n > 0 {
      IndicesOfLines(lines, n - 1);
    }
  }

  /** Later lines only add keys after the earlier ones: the order is that
      of first appearance. */
  lemma {:induction false} IndicesGrow(lines: seq<seq<int>>, m: nat, n: nat)
    requires m <= n <= |lines|
    ensures |Indices(lines, m)| <= |Indices(lines, n)|
    ensures Indices(lines, n)[..|Indices(lines, m)|] == Indices(lines, m)
  {
    if m < n {
      IndicesGrow(lines, m, n - 1);
      var earlier := Indices(lines, n - 1);
      assert Indices(lines, n)[..|earlier|] == earlier;
    }
  }

  /** Every line lands in the list of its first integer ... */
  lemma {:induction false} LineInItsGroup(lines: seq<seq<int>>, n: nat, k: nat)
    requires k < n <= |lines| && lines[k] != []
    ensures lines[k][1..] in PiecesOf(lines, n, lines[k][0])
  {
    if k < n - 1 {
      LineInItsGroup(lines, n - 1, k);
    }
  }

  /** ... and every list holds only the rests of lines naming its key. */
  lemma {:induction false} GroupFromLines(lines: seq<seq<int>>, n: nat, index: int)
    requires n <= |lines|
    ensures forall piece :: piece in PiecesOf(lines, n, index) ==>
              exists k :: 0 <= k < n && lines[k] != [] && lines[k][0] == index && lines[k][1..] == piece
  {
    if n > 0 {
      GroupFromLines(lines, n - 1, index);
    }
  }

  // ---------------------------------------------------------------------
  // The bytes

  /** The pieces of one solid, each value on one byte. */
  function PiecesBytes(pieces: seq<seq<int>>): Result<seq<byte>>
  {
    if pieces == [] then Ok([]) else Cat(Fields(pieces[0], 1), PiecesBytes(pieces[1..]))
  }

  /** A group: the solid index and the number of its pieces on two bytes
      each, then the pieces. */
  function GroupBytes(index: int, pieces: seq<seq<int>>): Result<seq<byte>>
  {
    Cat(Cat(ToBytes(index, 2), ToBytes(|pieces|, 2)), PiecesBytes(pieces))
  }

  /** The groups of the given indices, in order. */
  function GroupsBytes(lines: seq<seq<int>>, indices: seq<int>): Result<seq<byte>>
  {
    if indices == [] then Ok([])
    else Cat(GroupBytes(indices[0], PiecesOf(lines, |lines|, indices[0])), GroupsBytes(lines, indices[1..]))
  }

  /** `solids_to_binary` on the lines of the file: IndexError before
      anything is written if a line is empty, else the groups in the order
      of the dictionary. */
  function SolidsBinary(lines: seq<seq<int>>): (r: Result<seq<byte>>)
    ensures !NoEmptyLine(lines) ==> r == Err(IndexError)
  {
    if !NoEmptyLine(lines) then Err(IndexError) else GroupsBytes(lines, Indices(lines, |lines|))
  }

  // ---------------------------------------------------------------------
  // The loops of the generator

  /** The loop over the pieces of one solid. */
  method WriteGroup(index: int, pieces: seq<seq<int>>) returns (r: Result<seq<byte>>)
    ensures r == GroupBytes(index, pieces)
  {
    var indexBytes := ToBytes(index, 2);
    if indexBytes.Err? {
      return Err(indexBytes.error);
    }
    var sizeBytes := ToBytes(|pieces|, 2);
    if sizeBytes.Err? {
      return Err(sizeBytes.error);
    }
    var out := indexBytes.value + sizeBytes.value;
    var k := 0;
    assert pieces[k..] == pieces;
    while k < |pieces|
      invariant 0 <= k <= |pieces|
      invariant GroupBytes(index, pieces) == Cat(Ok(out), PiecesBytes(pieces[k..]))
    {
      assert pieces[k..][1..] == pieces[k + 1..];
      var piece := WriteFields(pieces[k], 1);
      CatAssoc(Ok(out), piece, PiecesBytes(pieces[k + 1..]));
      if piece.Err? {
        return Err(piece.error);
      }
      out := out + piece.value;
      k := k + 1;
    }
    assert out + [] == out;
    r := Ok(out);
  }

  /** `solids_to_binary`: the dictionary, then one group per key in
      insertion order. */
  method SolidsToBinary(lines: seq<seq<int>>) returns (r: Result<seq<byte>>)
    ensures r == SolidsBinary(lines)
  {
    var groups := GroupLines(lines);
    if groups.Err? {
      return Err(groups.error);
    }
    var order, pieces := groups.value.order, groups.value.pieces;
    var out: seq<byte> := [];
    var k := 0;
    CatEmpty(GroupsBytes(lines, order));
    while k < |order|
      invariant 0 <= k <= |order|
      invariant SolidsBinary(lines) == Cat(Ok(out), GroupsBytes(lines, order[k..]))
    {
      assert order[k..][1..] == order[k + 1..];
      var group := WriteGroup(order[k], pieces[order[k]]);
      CatAssoc(Ok(out), group, GroupsBytes(lines, order[k + 1..]));
      if group.Err? {
        return Err(group.error);
      }
      out := out + group.value;
      k := k + 1;
    }
    assert out + [] == out;
    r := Ok(out);
  }

  // ---------------------------------------------------------------------
  // Round trip through LoaderSolid::load

  /** A line the loader reads back: a solid index that fits two bytes and
      five values (type, x, y, width, height) that fit one byte each. */
  predicate EncodableLine(line: seq<int>)
  {
    |line| == 6 && 0 <= line[0] < 0x1_0000 && forall i :: 1 <= i < 6 ==> 0 <= line[i] < 256
  }

  predicate EncodableLines(lines: seq<seq<int>>)
  {
    |lines| < 0x1_0000 && forall k :: 0 <= k < |lines| ==> EncodableLine(lines[k])
  }

  /** The rest of an encodable line: five values of one byte. */
  predicate EncodablePiece(piece: seq<int>)
  {
    |piece| == 5 && forall i :: 0 <= i < 5 ==> 0 <= piece[i] < 256
  }

  /** The piece the loader reads for a written piece. */
  function PieceOf(piece: seq<int>): Piece
    requires |piece| == 5
  {
    Piece(piece[0], piece[1], piece[2], piece[3], piece[4])
  }

  function PiecesRead(pieces: seq<seq<int>>): (r: seq<Piece>)
    requires forall j :: 0 <= j < |pieces| ==> EncodablePiece(pieces[j])
    ensures |r| == |pieces|
  {
    if pieces == [] then []
    else
      assert forall j :: 1 <= j < |pieces| ==> pieces[1..][j - 1] == pieces[j];
      assert EncodablePiece(pieces[0]);
      [PieceOf(pieces[0])] + PiecesRead(pieces[1..])
  }

  /** The lists of encodable lines hold encodable pieces. */
  lemma {:induction false} PiecesEncodable(lines: seq<seq<int>>, n: nat, index: int)
    requires n <= |lines| && forall k :: 0 <= k < |lines| ==> EncodableLine(lines[k])
    ensures forall j :: 0 <= j < |PiecesOf(lines, n, index)| ==> EncodablePiece(PiecesOf(lines, n, index)[j])
  {
    if n > 0 {
      PiecesEncodable(lines, n - 1, index);
      var line := lines[n - 1];
      assert EncodableLine(line);
      assert forall i :: 0 <= i < 5 ==> line[1..][i] == line[i + 1];
    }
  }

  /** The solid the loader builds from the pieces of one group. */
  function SolidOfPieces(pieces: seq<seq<int>>): Result<Solid>
    requires forall j :: 0 <= j < |pieces| ==> EncodablePiece(pieces[j])
  {
    var read := PiecesRead(pieces);
    NewSolid(EllipsesOf(read), RectanglesOf(read))
  }

  /** The solids of the groups of the given indices, emplaced in order; the
      first group without a shape stops the load. */
  function SolidsOf(lines: seq<seq<int>>, indices: seq<int>, acc: map<int, Solid>): Result<map<int, Solid>>
    requires forall k :: 0 <= k < |lines| ==> EncodableLine(lines[k])
  {
    if indices == [] then Ok(acc)
    else
      PiecesEncodable(lines, |lines|, indices[0]);
      var solid := SolidOfPieces(PiecesOf(lines, |lines|, indices[0]));
      if solid.Err? then Err(solid.error)
      else SolidsOf(lines, indices[1..], Emplace(acc, indices[0], solid.value))
  }

  /** Values of one byte are written as themselves. */
  lemma {:induction false} FieldsOfBytes(vs: seq<int>)
    requires forall i :: 0 <= i < |vs| ==> 0 <= vs[i] < 256
    ensures Fields(vs, 1).Ok?
    ensures |Fields(vs, 1).value| == |vs| && forall i :: 0 <= i < |vs| ==> Fields(vs, 1).value[i] == vs[i]
  {
    if vs != [] {
      assert forall i :: 1 <= i < |vs| ==> vs[1..][i - 1] == vs[i];
      FieldsOfBytes(vs[1..]);
      assert LittleEndianBytes(vs[0], 1) == [vs[0]] + LittleEndianBytes(vs[0] / 256, 0);
      assert Pow256(1) == 256;
    }
  }

  /** A written piece reads back as its five values, leaving what follows. */
  lemma ReadEncodedPiece(piece: seq<int>, rest: seq<byte>)
    requires EncodablePiece(piece)
    ensures Fields(piece, 1).Ok?
    ensures ReadPiece(Fields(piece, 1).value + rest) == PieceOf(piece)
    ensures Rest(Fields(piece, 1).value + rest, 5) == rest
  {
    FieldsOfBytes(piece);
    var written := Fields(piece, 1).value;
    var bs := written + rest;
    assert forall i :: 0 <= i < 5 ==> Rest(bs, i)[0] == piece[i];
    assert bs[5..] == rest;
  }

  /** The pieces of a group: the first one's bytes, then the others'. */
  lemma PiecesBytesCons(pieces: seq<seq<int>>, rest: seq<byte>)
    requires pieces != [] && PiecesBytes(pieces).Ok?
    ensures Fields(pieces[0], 1).Ok? && PiecesBytes(pieces[1..]).Ok?
    ensures PiecesBytes(pieces).value + rest == Fields(pieces[0], 1).value + (PiecesBytes(pieces[1..]).value + rest)
  {
    var first, others := Fields(pieces[0], 1), PiecesBytes(pieces[1..]);
    assert PiecesBytes(pieces) == Cat(first, others);
    AppendAssoc(first.value, others.value, rest);
  }

  /** The written pieces read back as the pieces, leaving what follows. */
  lemma {:induction false} ReadEncodedPieces(pieces: seq<seq<int>>, rest: seq<byte>)
    requires forall j :: 0 <= j < |pieces| ==> EncodablePiece(pieces[j])
    ensures PiecesBytes(pieces).Ok?
    ensures ReadPieces(PiecesBytes(pieces).value + rest, |pieces|) == PiecesRead(pieces)
    ensures Rest(PiecesBytes(pieces).value + rest, 5 * |pieces|) == rest
  {
    if pieces == [] {
      assert [] + rest == rest;
    } else {
      assert forall j :: 1 <= j < |pieces| ==> pieces[1..][j - 1] == pieces[j];
      ReadEncodedPieces(pieces[1..], rest);
      ReadEncodedPiecesCons(pieces, rest);
    }
  }

  /** The step of the induction: the first piece, then the others. */
  lemma ReadEncodedPiecesCons(pieces: seq<seq<int>>, rest: seq<byte>)
    requires pieces != [] && forall j :: 0 <= j < |pieces| ==> EncodablePiece(pieces[j])
    requires PiecesBytes(pieces[1..]).Ok?
    requires ReadPieces(PiecesBytes(pieces[1..]).value + rest, |pieces| - 1) == PiecesRead(pieces[1..])
    requires Rest(PiecesBytes(pieces[1..]).value + rest, 5 * (|pieces| - 1)) == rest
    ensures PiecesBytes(pieces).Ok?
    ensures ReadPieces(PiecesBytes(pieces).value + rest, |pieces|) == PiecesRead(pieces)
    ensures Rest(PiecesBytes(pieces).value + rest, 5 * |pieces|) == rest
  {
    var others := PiecesBytes(pieces[1..]).value;
    assert EncodablePiece(pieces[0]);
    ReadEncodedPiece(pieces[0], others + rest);
    var first := Fields(pieces[0], 1).value;
    assert PiecesBytes(pieces) == Ok(first + others);
    AppendAssoc(first, others, rest);
    var bs := first + (others + rest);
    RestRest(bs, 5, 5 * (|pieces| - 1));
  }

  /** The bytes of a group: its index, its size and its pieces. */
  lemma GroupBytesParts(index: int, pieces: seq<seq<int>>, tail: seq<byte>)
    requires GroupBytes(index, pieces).Ok?
    ensures ToBytes(index, 2).Ok? && ToBytes(|pieces|, 2).Ok? && PiecesBytes(pieces).Ok?
    ensures GroupBytes(index, pieces).value + tail
            == ToBytes(index, 2).value + (ToBytes(|pieces|, 2).value + (PiecesBytes(pieces).value + tail))
  {
    var i, s, p := ToBytes(index, 2).value, ToBytes(|pieces|, 2).value, PiecesBytes(pieces).value;
    assert GroupBytes(index, pieces).value == (i + s) + p;
    AppendAssoc(i + s, p, tail);
    AppendAssoc(i, s, p + tail);
  }

  /** Loading one written group emplaces the solid of its pieces under its
      index and goes on with what follows. */
  lemma LoadEncodedGroup(index: int, pieces: seq<seq<int>>, tail: seq<byte>, acc: map<int, Solid>)
    requires 0 <= index < 0x1_0000 && |pieces| < 0x1_0000
    requires forall j :: 0 <= j < |pieces| ==> EncodablePiece(pieces[j])
    ensures GroupBytes(index, pieces).Ok?
    ensures var solid := SolidOfPieces(pieces);
      SolidsRead(GroupBytes(index, pieces).value + tail, acc)
      == if solid.Err? then Err(solid.error) else SolidsRead(tail, Emplace(acc, index, solid.value))
  {
    assert Pow256(2) == 0x1_0000;
    ReadEncodedPieces(pieces, tail);
    GroupBytesParts(index, pieces, tail);
    var i, s, body := ToBytes(index, 2).value, ToBytes(|pieces|, 2).value, PiecesBytes(pieces).value + tail;
    var bs := i + (s + body);
    U16OfField(index, s + body);
    U16OfField(|pieces|, body);
    assert Rest(bs, 2) == s + body;
    assert Rest(s + body, 2) == body;
    RestRest(bs, 2, 2);
  }

  /** Loading the groups of the given indices builds their solids. */
  lemma {:induction false} LoadEncodedGroups(lines: seq<seq<int>>, indices: seq<int>, acc: map<int, Solid>)
    requires EncodableLines(lines)
    requires forall j :: 0 <= j < |indices| ==> 0 <= indices[j] < 0x1_0000
    ensures GroupsBytes(lines, indices).Ok?
    ensures SolidsRead(GroupsBytes(lines, indices).value, acc) == SolidsOf(lines, indices, acc)
  {
    if indices != [] {
      var index, others := indices[0], indices[1..];
      assert forall j :: 1 <= j < |indices| ==> others[j - 1] == indices[j];
      var pieces := PiecesOf(lines, |lines|, index);
      PiecesEncodable(lines, |lines|, index);
      var solid := SolidOfPieces(pieces);
      LoadEncodedGroups(lines, others, if solid.Ok? then Emplace(acc, index, solid.value) else acc);
      var tail := GroupsBytes(lines, others).value;
      LoadEncodedGroup(index, pieces, tail, acc);
    }
  }

  /** Loading what the generator wrote from encodable lines gives, under
      each solid index in the order of first appearance, the solid of the
      pieces of the lines naming it. */
  lemma LoadAfterEncode(lines: seq<seq<int>>)
    requires EncodableLines(lines)
    ensures SolidsBinary(lines).Ok?
    ensures SolidsRead(SolidsBinary(lines).value, map[]) == SolidsOf(lines, Indices(lines, |lines|), map[])
  {
    var indices := Indices(lines, |lines|);
    IndicesOfLines(lines, |lines|);
    forall j | 0 <= j < |indices|
      ensures 0 <= indices[j] < 0x1_0000
    {
      assert indices[j] in indices;
      var k :| 0 <= k < |lines| && lines[k] != [] && lines[k][0] == indices[j];
      assert EncodableLine(lines[k]);
    }
    LoadEncodedGroups(lines, indices, map[]);
  }
}
