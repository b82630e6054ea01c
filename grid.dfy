// The level grid of the two Python level editors (editor.py and
// levels/editor.py). The engine (SDL) numbers tiles and rows from the top
// left, pyglet from the bottom left; the editors convert a level between the
// two by cutting it into rows, reversing the row order and flipping every
// tile index vertically within the tileset.

module Grid {
  import opened Arith

  /** `_reverse_tile_index`: keeps the column of tile t in a tileset of
      tilesetWidth x tilesetHeight tiles and mirrors its row. Python's `%` and
      `//` by a positive divisor are Dafny's. */
  function ReverseTileIndex(t: int, tilesetWidth: int, tilesetHeight: int): int
    requires tilesetWidth > 0
  {
    var i := t % tilesetWidth;
    var j := tilesetHeight - 1 - t / tilesetWidth;
    j * tilesetWidth + i
  }

  /** Row j, column i of a row-major grid of width w is cell j*w + i. */
  lemma RowColumn(j: int, i: int, w: int)
    requires 0 <= i < w
    ensures (j * w + i) / w == j && (j * w + i) % w == i
  {
    assert w * j <= j * w + i < w * j + w;
    FloorDivUnique(j * w + i, w, j);
  }

  /** The conversion keeps the column and maps row j to row h-1-j. */
  lemma ReverseTileIndexColumnRow(t: int, w: int, h: int)
    requires w > 0
    ensures ReverseTileIndex(t, w, h) % w == t % w
    ensures ReverseTileIndex(t, w, h) / w == h - 1 - t / w
  {
    RowColumn(h - 1 - t / w, t % w, w);
  }

  /** Converting twice gives the index back, for every integer index. */
  lemma ReverseTileIndexInvolution(t: int, w: int, h: int)
    requires w > 0
    ensures ReverseTileIndex(ReverseTileIndex(t, w, h), w, h) == t
  {
    ReverseTileIndexColumnRow(t, w, h);
    var r := ReverseTileIndex(t, w, h);
    assert ReverseTileIndex(r, w, h) == (t / w) * w + t % w;
  }

  /** A tile of the tileset is converted into a tile of the tileset. */
  lemma ReverseTileIndexInRange(t: int, w: int, h: int)
    requires w > 0 && 0 <= t < w * h
    ensures 0 <= ReverseTileIndex(t, w, h) < w * h
  {
    var j := t / w;
    assert 0 <= j < h by {
      if j >= h {
        MulMonotonic(w, h, j);
      }
    }
    var rj := h - 1 - j;
    assert 0 <= rj < h;
    MulMonotonic(w, rj, h - 1);
    MulMonotonic(w, 0, rj);
    assert w * rj + t % w < w * (h - 1) + w;
  }

  /** Python `[s[i:i + width] for i in range(0, len(s), step)]`: slices of
      `width` elements starting every `step` elements, clamped at the end. */
  function Rows(s: seq<int>, step: nat, width: nat): seq<seq<int>>
    requires step > 0
    decreases |s|
  {
    if s == [] then []
    else [s[..Min(width, |s|)]] + Rows(s[Min(step, |s|)..], step, width)
  }

  /** `reversed(...)` of a list. The row order it gives a grid is stated by
      FlipRowsAt. */
  function Reversed<T>(s: seq<T>): (r: seq<T>)
    ensures |r| == |s|
  {
    seq(|s|, k requires 0 <= k < |s| => s[|s| - 1 - k])
  }

  /** `[x for row in rows for x in row]`. */
  function Flatten(rows: seq<seq<int>>): seq<int>
  {
    if rows == [] then [] else rows[0] + Flatten(rows[1..])
  }

  /** Every tile index converted: the comprehension over `_reverse_tile_index`.
      Element k is stated by ReverseIndicesAt, rows by MapRows. */
  function ReverseIndices(s: seq<int>, tilesetWidth: int, tilesetHeight: int): (r: seq<int>)
    requires tilesetWidth > 0
    ensures |r| == |s|
  {
    seq(|s|, k requires 0 <= k < |s| => ReverseTileIndex(s[k], tilesetWidth, tilesetHeight))
  }

  /** Cutting a grid of exactly h full rows of width w gives h rows of w. */
  lemma {:induction false} RowsOfGrid(s: seq<int>, w: nat, h: nat)
    requires w > 0 && |s| == w * h
    ensures |Rows(s, w, w)| == h
    ensures forall m :: 0 <= m < h ==> |Rows(s, w, w)[m]| == w
  {
    if h == 0 {
      assert s == [];
    } else {
      assert |s| == w * (h - 1) + w;
      RowsOfGrid(s[w..], w, h - 1);
      assert Rows(s, w, w) == [s[..w]] + Rows(s[w..], w, w);
    }
  }

  /** Row j of such a grid is the slice of its cells j*w to j*w + w - 1. */
  lemma {:induction false} RowOfGrid(s: seq<int>, w: nat, h: nat, j: nat)
    requires w > 0 && |s| == w * h && j < h
    ensures j * w + w <= |s| && j < |Rows(s, w, w)|
    ensures Rows(s, w, w)[j] == s[j * w..j * w + w]
  {
    MulStep(h - 1, w);
    RowsCons(s, w);
    if j > 0 {
      var tail := s[w..];
      RowOfGrid(tail, w, h - 1, j - 1);
      var a := (j - 1) * w;
      MulStep(j - 1, w);
      SliceOfDrop(s, w, a, a + w);
    }
  }

  /** A grid of at least one full row is that row followed by the rest. */
  lemma RowsCons(s: seq<int>, w: nat)
    requires 0 < w <= |s|
    ensures Rows(s, w, w) == [s[..w]] + Rows(s[w..], w, w)
  {
  }

  lemma SliceOfDrop(s: seq<int>, n: nat, a: nat, b: nat)
    requires a <= b && n + b <= |s|
    ensures s[n..][a..b] == s[n + a..n + b]
  {
  }

  /** Flattening rows of equal width w: element i of row k sits at k*w + i. */
  lemma {:induction false} FlattenAt(rows: seq<seq<int>>, w: nat, k: nat, i: nat)
    requires forall m :: 0 <= m < |rows| ==> |rows[m]| == w
    requires k < |rows| && i < w
    ensures |Flatten(rows)| == w * |rows|
    ensures k * w + i < w * |rows| && Flatten(rows)[k * w + i] == rows[k][i]
  {
    FlattenLength(rows, w);
    if k == 0 {
    } else {
      FlattenAt(rows[1..], w, k - 1, i);
      assert (k - 1) * w + i + w == k * w + i;
    }
    MulMonotonic(w, k, |rows| - 1);
  }

  lemma {:induction false} FlattenLength(rows: seq<seq<int>>, w: nat)
    requires forall m :: 0 <= m < |rows| ==> |rows[m]| == w
    ensures |Flatten(rows)| == w * |rows|
  {
    if rows != [] {
      FlattenLength(rows[1..], w);
    }
  }

  /** The row reversal of the editors, with rows cut every `width` tiles. */
  function FlipRows(s: seq<int>, width: nat): seq<int>
    requires width > 0
  {
    Flatten(Reversed(Rows(s, width, width)))
  }

  /** On a grid of h rows of width w, cell (i, j) of the flipped grid is cell
      (i, h-1-j) of the original. */
  lemma FlipRowsAt(s: seq<int>, w: nat, h: nat, i: nat, j: nat)
    requires w > 0 && |s| == w * h && i < w && j < h
    ensures |FlipRows(s, w)| == |s|
    ensures 0 <= j * w && 0 <= (h - 1 - j) * w
    ensures j * w + i < |s| && (h - 1 - j) * w + i < |s|
    ensures FlipRows(s, w)[j * w + i] == s[(h - 1 - j) * w + i]
  {
    FlipRowsLength(s, w, h);
    var rows := Rows(s, w, w);
    var rev := Reversed(rows);
    var r := h - 1 - j;
    MulMonotonic(w, 0, r);
    MulMonotonic(w, 0, j);
    RowsOfGrid(s, w, h);
    RowOfGrid(s, w, h, r);
    assert rev[j] == rows[r];
    FlattenAt(rev, w, j, i);
    assert rev[j][i] == s[r * w + i];
  }

  lemma FlipRowsLength(s: seq<int>, w: nat, h: nat)
    requires w > 0 && |s| == w * h
    ensures |FlipRows(s, w)| == |s|
  {
    RowsOfGrid(s, w, h);
    var rows := Rows(s, w, w);
    var rev := Reversed(rows);
    assert forall m :: 0 <= m < |rev| ==> rev[m] == rows[h - 1 - m];
    FlattenLength(rev, w);
  }

  /** Flipping the rows twice gives the grid back. */
  lemma FlipRowsInvolution(s: seq<int>, w: nat, h: nat)
    requires w > 0 && |s| == w * h
    ensures FlipRows(FlipRows(s, w), w) == s
  {
    var f := FlipRows(s, w);
    FlipRowsLength(s, w, h);
    FlipRowsLength(f, w, h);
    var ff := FlipRows(f, w);
    forall k | 0 <= k < |s|
      ensures |ff| == |s| && ff[k] == s[k]
    {
      var i, j := k % w, k / w;
      RowColumn(j, i, w);
      assert k == j * w + i;
      assert j < h by {
        if j >= h {
          MulMonotonic(w, h, j);
        }
      }
      FlipRowsAt(f, w, h, i, j);
      FlipRowsAt(s, w, h, i, h - 1 - j);
    }
  }

  /** `_Level.reverse` with rows cut at the level's width: the row order is
      reversed and every tile index converted. */
  function ReversedLevel(tiles: seq<int>, width: nat, tilesetWidth: int, tilesetHeight: int): seq<int>
    requires width > 0 && tilesetWidth > 0
  {
    ReverseIndices(FlipRows(tiles, width), tilesetWidth, tilesetHeight)
  }

  /** Cell (i, j) of the reversed level is the converted tile of cell
      (i, h-1-j), and the tile count is unchanged. */
  lemma ReversedLevelAt(tiles: seq<int>, w: nat, h: nat, tw: int, th: int, i: nat, j: nat)
    requires w > 0 && tw > 0 && |tiles| == w * h && i < w && j < h
    ensures var k, src := j * w + i, (h - 1 - j) * w + i;
      |ReversedLevel(tiles, w, tw, th)| == |tiles| && 0 <= k < |tiles| && 0 <= src < |tiles|
      && ReversedLevel(tiles, w, tw, th)[k] == ReverseTileIndex(tiles[src], tw, th)
  {
    var r: nat := h - 1 - j;
    MulMonotonic(w, 0, r);
    MulMonotonic(w, 0, j);
    FlipRowsAt(tiles, w, h, i, j);
    CellOfReversed(tiles, w, tw, th, j * w + i, r * w + i);
  }

  lemma CellOfReversed(tiles: seq<int>, w: nat, tw: int, th: int, k: nat, src: nat)
    requires w > 0 && tw > 0 && k < |FlipRows(tiles, w)| && src < |tiles|
    requires FlipRows(tiles, w)[k] == tiles[src]
    ensures ReversedLevel(tiles, w, tw, th)[k] == ReverseTileIndex(tiles[src], tw, th)
  {
  }

  lemma ReverseIndicesAt(s: seq<int>, tw: int, th: int, k: nat)
    requires tw > 0 && k < |s|
    ensures ReverseIndices(s, tw, th)[k] == ReverseTileIndex(s[k], tw, th)
  {
  }

  /** Reversing a level twice restores it. */
  lemma ReversedLevelInvolution(tiles: seq<int>, w: nat, h: nat, tw: int, th: int)
    requires w > 0 && tw > 0 && |tiles| == w * h
    ensures ReversedLevel(ReversedLevel(tiles, w, tw, th), w, tw, th) == tiles
  {
    var f := FlipRows(tiles, w);
    FlipRowsLength(tiles, w, h);
    var once := ReverseIndices(f, tw, th);
    FlipsCommute(f, w, tw, th);
    FlipRowsInvolution(tiles, w, h);
    var twice := ReversedLevel(once, w, tw, th);
    assert twice == ReverseIndices(ReverseIndices(FlipRows(f, w), tw, th), tw, th);
    forall k | 0 <= k < |tiles|
      ensures twice[k] == tiles[k]
    {
      ReverseTileIndexInvolution(tiles[k], tw, th);
    }
  }

  /** Converting the indices and flipping the rows commute. */
  lemma FlipsCommute(s: seq<int>, w: nat, tw: int, th: int)
    requires w > 0 && tw > 0
    ensures FlipRows(ReverseIndices(s, tw, th), w) == ReverseIndices(FlipRows(s, w), tw, th)
  {
    var rows := Rows(s, w, w);
    RowsMap(s, w, w, tw, th);
    assert Reversed(MapRows(rows, tw, th)) == MapRows(Reversed(rows), tw, th);
    FlattenMap(Reversed(rows), tw, th);
  }

  function MapRows(rows: seq<seq<int>>, tw: int, th: int): (r: seq<seq<int>>)
    requires tw > 0
    ensures |r| == |rows| && forall m :: 0 <= m < |rows| ==> r[m] == ReverseIndices(rows[m], tw, th)
  {
    seq(|rows|, m requires 0 <= m < |rows| => ReverseIndices(rows[m], tw, th))
  }

  lemma {:induction false} RowsMap(s: seq<int>, step: nat, width: nat, tw: int, th: int)
    requires step > 0 && tw > 0
    ensures Rows(ReverseIndices(s, tw, th), step, width) == MapRows(Rows(s, step, width), tw, th)
    decreases |s|
  {
    if s != [] {
      var n := Min(step, |s|);
      assert ReverseIndices(s, tw, th)[n..] == ReverseIndices(s[n..], tw, th);
      assert ReverseIndices(s, tw, th)[..Min(width, |s|)] == ReverseIndices(s[..Min(width, |s|)], tw, th);
      RowsMap(s[n..], step, width, tw, th);
      var rows := Rows(s, step, width);
      assert rows == [s[..Min(width, |s|)]] + Rows(s[n..], step, width);
      assert MapRows(rows, tw, th) == [ReverseIndices(s[..Min(width, |s|)], tw, th)] + MapRows(Rows(s[n..], step, width), tw, th);
    }
  }

  lemma {:induction false} FlattenMap(rows: seq<seq<int>>, tw: int, th: int)
    requires tw > 0
    ensures Flatten(MapRows(rows, tw, th)) == ReverseIndices(Flatten(rows), tw, th)
  {
    if rows != [] {
      var mapped := MapRows(rows, tw, th);
      assert mapped[1..] == MapRows(rows[1..], tw, th);
      FlattenMap(rows[1..], tw, th);
      assert ReverseIndices(rows[0] + Flatten(rows[1..]), tw, th)
          == ReverseIndices(rows[0], tw, th) + ReverseIndices(Flatten(rows[1..]), tw, th);
    }
  }
}
