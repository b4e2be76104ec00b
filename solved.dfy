/** The solved-state test, stated on the column-by-column view of a board and
    the tile patterns. */
module Solved {
  import opened Grid

  /** Square (x, y) comes before square (a, b) in a scan that walks the columns
      in order and the rows of each column in order. */
  predicate ColumnMajorBefore(x: int, y: int, a: int, b: int)
  {
    x < a || (x == a && y < b)
  }

  /** The first tile met by the anchor scan from square (c, r) on. The scan
      bounds both the column and the row by the board's width `w`. */
  function AnchorFrom(cols: seq<seq<int>>, w: int, h: int, c: int, r: int): (p: Option<(int, int)>)
    requires IsGrid(cols, w, h) && w <= h
    requires 0 <= c && 0 <= r
    ensures p.Some? ==>
      0 <= p.value.0 < w && 0 <= p.value.1 < w && cols[p.value.0][p.value.1] != Empty &&
      !ColumnMajorBefore(p.value.0, p.value.1, c, r)
    ensures forall x, y ::
      (0 <= x < w && 0 <= y < w && !ColumnMajorBefore(x, y, c, r) &&
       (p.None? || ColumnMajorBefore(x, y, p.value.0, p.value.1))) ==> cols[x][y] == Empty
    decreases w - c, w - r
  {
    if c >= w then None
    else if r >= w then AnchorFrom(cols, w, h, c + 1, 0)
    else if cols[c][r] != Empty then Some((c, r))
    else AnchorFrom(cols, w, h, c, r + 1)
  }

  /** The anchor the test starts from: the first tile found, or (0, 0) when the
      board holds none. */
  function Anchor(cols: seq<seq<int>>, w: int, h: int): (a: (int, int))
    requires IsGrid(cols, w, h) && w <= h
    ensures 0 <= a.0 && 0 <= a.1
  {
    match AnchorFrom(cols, w, h, 0, 0)
    case None => (0, 0)
    case Some(p) => p
  }

  /** No square of the block from `a` to `e` (both inclusive) is empty. */
  ghost predicate BlockFilled(cols: seq<seq<int>>, w: int, h: int, a: (int, int), e: (int, int))
    requires IsGrid(cols, w, h) && 0 <= a.0 && 0 <= a.1 && e.0 < w && e.1 < h
  {
    forall i, j :: a.0 <= i <= e.0 && a.1 <= j <= e.1 ==> cols[i][j] != Empty
  }

  /** Inside the block, every tile's left edge equals the right edge of the tile
      before it in its row, and its top edge the bottom edge of the tile above. */
  ghost predicate BlockMatches(cols: seq<seq<int>>, tiles: seq<Tile>, w: int, h: int, a: (int, int), e: (int, int))
    requires IsGrid(cols, w, h) && WellFormed(cols, w, h, |tiles|)
    requires 0 <= a.0 && 0 <= a.1 && e.0 < w && e.1 < h && BlockFilled(cols, w, h, a, e)
  {
    forall i, j :: a.0 <= i <= e.0 && a.1 <= j <= e.1 ==>
      (i > a.0 ==> tiles[cols[i][j]].left == tiles[cols[i - 1][j]].right) &&
      (j > a.1 ==> tiles[cols[i][j]].top == tiles[cols[i][j - 1]].bottom)
  }

  /** The row and column wraparound matches of a non-empty block: the last
      column's right edges equal the anchor column's left edges, the last row's
      bottom edges the anchor row's top edges. */
  ghost predicate BlockWraps(cols: seq<seq<int>>, tiles: seq<Tile>, w: int, h: int, a: (int, int), e: (int, int))
    requires IsGrid(cols, w, h) && WellFormed(cols, w, h, |tiles|)
    requires 0 <= a.0 && 0 <= a.1 && e.0 < w && e.1 < h && BlockFilled(cols, w, h, a, e)
  {
    (forall j :: a.0 <= e.0 && a.1 <= j <= e.1 ==> tiles[cols[e.0][j]].right == tiles[cols[a.0][j]].left) &&
    (forall i :: a.1 <= e.1 && a.0 <= i <= e.0 ==> tiles[cols[i][e.1]].bottom == tiles[cols[i][a.1]].top)
  }

  /** The four comparisons the source's test makes at square (i, j) of the
      block from `a` to `e`, as written; true when one of them finds a mismatch.
      The first two compare with the tile on the left and the tile above. The
      last two fire only on the column and the row just past the block's end,
      and compare with column 1 and row 1. */
  predicate MismatchAsWritten(cols: seq<seq<int>>, tiles: seq<Tile>, a: (int, int), e: (int, int), i: int, j: int)
  {
    var t := TileOn(cols, tiles, i, j);
    (i > a.0 && t.left != TileOn(cols, tiles, i - 1, j).right) ||
    (j > a.1 && t.top != TileOn(cols, tiles, i, j - 1).bottom) ||
    (i == e.0 + 1 && t.right != TileOn(cols, tiles, 1, j).left) ||
    (j == e.1 + 1 && t.bottom != TileOn(cols, tiles, i, 1).top)
  }

  /** Inside a filled block, the source's four comparisons find a mismatch
      nowhere exactly when the block's left and top edges match: the two
      wraparound comparisons never fire there. */
  lemma WrapClausesNeverFire(cols: seq<seq<int>>, tiles: seq<Tile>, w: int, h: int, a: (int, int), e: (int, int))
    requires IsGrid(cols, w, h) && WellFormed(cols, w, h, |tiles|)
    requires 0 <= a.0 && 0 <= a.1 && e.0 < w && e.1 < h && BlockFilled(cols, w, h, a, e)
    ensures (forall i, j :: a.0 <= i <= e.0 && a.1 <= j <= e.1 ==> !MismatchAsWritten(cols, tiles, a, e, i, j))
      <==> BlockMatches(cols, tiles, w, h, a, e)
  {
    forall i, j | a.0 <= i <= e.0 && a.1 <= j <= e.1
      ensures TileOn(cols, tiles, i, j) == tiles[cols[i][j]]
    {
    }
    if forall i, j :: a.0 <= i <= e.0 && a.1 <= j <= e.1 ==> !MismatchAsWritten(cols, tiles, a, e, i, j) {
      forall i, j | a.0 <= i <= e.0 && a.1 <= j <= e.1
        ensures i > a.0 ==> tiles[cols[i][j]].left == tiles[cols[i - 1][j]].right
        ensures j > a.1 ==> tiles[cols[i][j]].top == tiles[cols[i][j - 1]].bottom
      {
        assert !MismatchAsWritten(cols, tiles, a, e, i, j);
      }
    }
  }

  /** The verdict of the source's test, with its four comparisons as written:
      the interior-sized block from the anchor fits on the board, and no square
      of it is empty or shows a mismatch. Since the wraparound comparisons never
      fire, the verdict is the left/top test alone. */
  ghost function SolvedAsWritten(cols: seq<seq<int>>, tiles: seq<Tile>, w: int, h: int): (solved: bool)
    requires IsGrid(cols, w, h) && w <= h && WellFormed(cols, w, h, |tiles|)
    ensures var a := Anchor(cols, w, h);
      var e := (a.0 + w - 3, a.1 + h - 3);
      solved <==> e.0 < w && e.1 < h && BlockFilled(cols, w, h, a, e) && BlockMatches(cols, tiles, w, h, a, e)
  {
    var a := Anchor(cols, w, h);
    var e := (a.0 + w - 3, a.1 + h - 3);
    if e.0 >= w || e.1 >= h then false
    else if !BlockFilled(cols, w, h, a, e) then false
    else
      WrapClausesNeverFire(cols, tiles, w, h, a, e);
      forall i, j :: a.0 <= i <= e.0 && a.1 <= j <= e.1 ==> !MismatchAsWritten(cols, tiles, a, e, i, j)
  }

  /** The intended verdict for the block anchored at `a`: the interior-sized
      block fits on the board, has no gaps, its neighbouring edges match, and
      it also matches around its row and column wraparounds, so that the
      interior behaves as a torus. */
  ghost predicate TorusFrom(cols: seq<seq<int>>, tiles: seq<Tile>, w: int, h: int, a: (int, int))
    requires IsGrid(cols, w, h) && WellFormed(cols, w, h, |tiles|) && 0 <= a.0 && 0 <= a.1
  {
    var e := (a.0 + w - 3, a.1 + h - 3);
    if e.0 >= w || e.1 >= h then false
    else
      BlockFilled(cols, w, h, a, e) && BlockMatches(cols, tiles, w, h, a, e) &&
      BlockWraps(cols, tiles, w, h, a, e)
  }

  /** The verdict for a block that fits, read off its three scans. */
  lemma TorusFromFitted(cols: seq<seq<int>>, tiles: seq<Tile>, w: int, h: int, a: (int, int), e: (int, int), ok: bool)
    requires IsGrid(cols, w, h) && WellFormed(cols, w, h, |tiles|) && 0 <= a.0 && 0 <= a.1
    requires e == (a.0 + w - 3, a.1 + h - 3) && e.0 < w && e.1 < h
    requires ok == (BlockFilled(cols, w, h, a, e) && BlockMatches(cols, tiles, w, h, a, e) &&
                    BlockWraps(cols, tiles, w, h, a, e))
    ensures ok == TorusFrom(cols, tiles, w, h, a)
  {
  }

  /** The intended verdict: the block from the anchor passes `TorusFrom`. */
  ghost predicate SolvedTorus(cols: seq<seq<int>>, tiles: seq<Tile>, w: int, h: int)
    requires IsGrid(cols, w, h) && w <= h && WellFormed(cols, w, h, |tiles|)
  {
    TorusFrom(cols, tiles, w, h, Anchor(cols, w, h))
  }

  /** Every interior square holds one of `count` tiles. */
  ghost predicate InteriorIds(cols: seq<seq<int>>, w: int, h: int, count: int)
    requires IsGrid(cols, w, h)
  {
    forall c, r :: InInterior(w, h, c, r) ==> 0 <= cols[c][r] < count
  }

  /** No border square holds a tile. */
  ghost predicate BorderEmpty(cols: seq<seq<int>>, w: int, h: int)
    requires IsGrid(cols, w, h)
  {
    forall c, r :: 0 <= c < w && 0 <= r < h && !InInterior(w, h, c, r) ==> cols[c][r] == Empty
  }

  /** The border holds no tile and every interior square holds one. */
  ghost predicate InteriorLayout(cols: seq<seq<int>>, w: int, h: int, count: int)
    requires IsGrid(cols, w, h)
  {
    InteriorIds(cols, w, h, count) && BorderEmpty(cols, w, h)
  }

  /** The edge relations that generation establishes on the interior: each
      tile matches the tile before it in its row and the tile above it, the
      last interior column wraps to column 1 and the last interior row to row 1. */
  ghost predicate GeneratedMatches(cols: seq<seq<int>>, tiles: seq<Tile>, w: int, h: int)
    requires IsGrid(cols, w, h) && InteriorIds(cols, w, h, |tiles|)
  {
    forall c, r :: InInterior(w, h, c, r) ==>
      (c > 1 ==> tiles[cols[c][r]].left == tiles[cols[c - 1][r]].right) &&
      (r > 1 ==> tiles[cols[c][r]].top == tiles[cols[c][r - 1]].bottom) &&
      (c == w - 2 ==> tiles[cols[c][r]].right == tiles[cols[1][r]].left) &&
      (r == h - 2 ==> tiles[cols[c][r]].bottom == tiles[cols[c][1]].top)
  }

  /** On a board laid out as generation leaves it, the anchor is square (1, 1). */
  lemma AnchorOfLayout(cols: seq<seq<int>>, w: int, h: int, count: int)
    requires IsGrid(cols, w, h) && 3 <= w <= h && InteriorLayout(cols, w, h, count)
    ensures AnchorFrom(cols, w, h, 0, 0) == Some((1, 1))
    ensures Anchor(cols, w, h) == (1, 1)
  {
    assert InInterior(w, h, 1, 1);
  }

  /** A freshly generated board passes the source's test and the intended one. */
  lemma GeneratedIsSolved(cols: seq<seq<int>>, tiles: seq<Tile>, w: int, h: int)
    requires IsGrid(cols, w, h) && 3 <= w <= h
    requires InteriorLayout(cols, w, h, |tiles|) && GeneratedMatches(cols, tiles, w, h)
    ensures WellFormed(cols, w, h, |tiles|)
    ensures SolvedAsWritten(cols, tiles, w, h)
    ensures SolvedTorus(cols, tiles, w, h)
  {
    AnchorOfLayout(cols, w, h, |tiles|);
    var a, e := (1, 1), (w - 2, h - 2);
    assert BlockFilled(cols, w, h, a, e) by {
      forall i, j | a.0 <= i <= e.0 && a.1 <= j <= e.1
        ensures cols[i][j] != Empty
      {
        assert InInterior(w, h, i, j);
      }
    }
    assert BlockMatches(cols, tiles, w, h, a, e) by {
      forall i, j | a.0 <= i <= e.0 && a.1 <= j <= e.1
        ensures (i > a.0 ==> tiles[cols[i][j]].left == tiles[cols[i - 1][j]].right)
        ensures (j > a.1 ==> tiles[cols[i][j]].top == tiles[cols[i][j - 1]].bottom)
      {
        assert InInterior(w, h, i, j);
      }
    }
    assert BlockWraps(cols, tiles, w, h, a, e) by {
      forall j | a.1 <= j <= e.1
        ensures tiles[cols[e.0][j]].right == tiles[cols[a.0][j]].left
      {
        assert InInterior(w, h, e.0, j);
      }
      forall i | a.0 <= i <= e.0
        ensures tiles[cols[i][e.1]].bottom == tiles[cols[i][a.1]].top
      {
        assert InInterior(w, h, i, e.1);
      }
    }
  }

  /** A 5 by 5 board whose 3 by 3 interior holds tiles 0..8, column by column. */
  function SampleBoard(): (cols: seq<seq<int>>)
    ensures IsGrid(cols, 5, 5)
  {
    seq(5, c => seq(5, r => if 1 <= c <= 3 && 1 <= r <= 3 then 3 * (c - 1) + (r - 1) else Empty))
  }

  /** All edges carry pattern 0, except the right edge of tile 6, the tile in
      the last interior column and the first interior row. */
  function SampleTiles(): (tiles: seq<Tile>)
    ensures |tiles| == 9
  {
    seq(9, k => if k == 6 then Tile(0, 0, 0, 1) else Tile(0, 0, 0, 0))
  }

  lemma SampleLayout()
    ensures InteriorLayout(SampleBoard(), 5, 5, 9)
  {
    var cols := SampleBoard();
    forall c, r | 0 <= c < 5 && 0 <= r < 5
      ensures if InInterior(5, 5, c, r) then 0 <= cols[c][r] < 9 else cols[c][r] == Empty
    {
    }
  }

  lemma SampleBlock()
    ensures BlockFilled(SampleBoard(), 5, 5, (1, 1), (3, 3))
    ensures BlockMatches(SampleBoard(), SampleTiles(), 5, 5, (1, 1), (3, 3))
  {
    var cols, tiles := SampleBoard(), SampleTiles();
    SampleLayout();
    assert BlockFilled(cols, 5, 5, (1, 1), (3, 3)) by {
      forall i, j | 1 <= i <= 3 && 1 <= j <= 3
        ensures cols[i][j] != Empty
      {
        assert InInterior(5, 5, i, j);
      }
    }
    forall i, j | 1 <= i <= 3 && 1 <= j <= 3
      ensures (i > 1 ==> tiles[cols[i][j]].left == tiles[cols[i - 1][j]].right)
      ensures (j > 1 ==> tiles[cols[i][j]].top == tiles[cols[i][j - 1]].bottom)
    {
      if i > 1 {
        assert cols[i - 1][j] == 3 * (i - 2) + (j - 1) < 6;
      }
    }
  }

  /** A board at least 3 squares wide with no tile fails both tests: the anchor
      stays (0, 0) and the block from it contains that empty square. */
  lemma EmptyBoardFails(cols: seq<seq<int>>, tiles: seq<Tile>, w: int, h: int)
    requires IsGrid(cols, w, h) && 3 <= w <= h && WellFormed(cols, w, h, |tiles|)
    requires forall c, r :: 0 <= c < w && 0 <= r < h ==> cols[c][r] == Empty
    ensures !SolvedAsWritten(cols, tiles, w, h) && !SolvedTorus(cols, tiles, w, h)
  {
  }

  /** On a board at most 2 squares wide the block from the anchor has no
      column, so both tests pass without checking a square, whatever the board
      holds, an empty board included. */
  lemma NarrowBoardPasses(cols: seq<seq<int>>, tiles: seq<Tile>, w: int, h: int)
    requires IsGrid(cols, w, h) && w <= h && w <= 2 && WellFormed(cols, w, h, |tiles|)
    ensures SolvedAsWritten(cols, tiles, w, h) && SolvedTorus(cols, tiles, w, h)
  {
  }

  /** The source's test accepts a board whose row wraparound does not match. */
  lemma WrapMismatchAccepted()
    ensures WellFormed(SampleBoard(), 5, 5, 9)
    ensures SampleTiles()[SampleBoard()[3][1]].right != SampleTiles()[SampleBoard()[1][1]].left
    ensures SolvedAsWritten(SampleBoard(), SampleTiles(), 5, 5)
    ensures !SolvedTorus(SampleBoard(), SampleTiles(), 5, 5)
  {
    var cols, tiles := SampleBoard(), SampleTiles();
    SampleLayout();
    AnchorOfLayout(cols, 5, 5, 9);
    SampleBlock();
    var a, e := (1, 1), (3, 3);
    assert cols[3][1] == 6 && cols[1][1] == 0;
    assert !BlockWraps(cols, tiles, 5, 5, a, e) by {
      assert tiles[cols[3][1]].right != tiles[cols[a.0][1]].left;
    }
  }

  /** Passing the intended test implies passing the source's test. */
  lemma TorusImpliesAsWritten(cols: seq<seq<int>>, tiles: seq<Tile>, w: int, h: int)
    requires IsGrid(cols, w, h) && w <= h && WellFormed(cols, w, h, |tiles|)
    requires SolvedTorus(cols, tiles, w, h)
    ensures SolvedAsWritten(cols, tiles, w, h)
  {
  }
}
