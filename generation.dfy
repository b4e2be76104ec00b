/** The generation of the puzzle tiles, stated on the column-by-column view of a
    board. The interior squares are visited column by column, top to bottom;
    each gets a new tile whose random patterns are `rnd(c, r)`, after which
    some of its edges are copied from tiles placed before it so that the
    interior is a solved puzzle. */
module Generation {
  import opened Grid
  import opened Solved

  /** Interior rows per column: the rows between the top and bottom border. */
  function InteriorRows(h: int): nat
  {
    if h >= 2 then h - 2 else 0
  }

  /** The tile id generation gives interior square (c, r) when the first new
      tile gets id `first`: ids run down each column, column after column. */
  function GeneratedId(first: int, h: int, c: int, r: int): int
  {
    first + (c - 1) * InteriorRows(h) + (r - 1)
  }

  /** Square (c, r) is an interior square visited before square (i, j). */
  predicate DoneBefore(h: int, i: int, j: int, c: int, r: int)
  {
    1 <= c && 1 <= r <= h - 2 && (c < i || (c == i && r < j))
  }

  /** Squares visited earlier got smaller ids, all from `first` on. */
  lemma GeneratedIdBelow(first: int, h: int, i: int, j: int, c: int, r: int)
    requires 1 <= j && DoneBefore(h, i, j, c, r)
    ensures first <= GeneratedId(first, h, c, r) < GeneratedId(first, h, i, j)
  {
    var rows := InteriorRows(h);
    assert rows == h - 2;
    if c < i {
      assert (i - 1 - c) * rows >= 0;
      assert (c - 1) * rows + rows == c * rows;
      assert (i - 1) * rows == c * rows + (i - 1 - c) * rows;
    }
  }

  /** The tile made for interior square (i, j): the random patterns `rnd(i, j)`,
      then the left edge taken from the tile on its left, the top edge from the
      tile above, in the last interior column the right edge from the left edge
      of the row's first tile, and in the last interior row the bottom edge from
      the top edge of the column's first tile. When the square is itself the
      row's or column's first, that tile is the one being made. */
  function NewTile(cols: seq<seq<int>>, tiles: seq<Tile>, rnd: (int, int) -> Tile, w: int, h: int, i: int, j: int): (t: Tile)
    ensures i <= 1 ==> t.left == rnd(i, j).left
    ensures j <= 1 ==> t.top == rnd(i, j).top
    ensures i != w - 2 ==> t.right == rnd(i, j).right
    ensures j != h - 2 ==> t.bottom == rnd(i, j).bottom
    ensures i == 1 == w - 2 ==> t.right == t.left
    ensures j == 1 == h - 2 ==> t.bottom == t.top
    ensures 1 < i == w - 2 ==> t.right == TileOn(cols, tiles, 1, j).left
    ensures 1 < j == h - 2 ==> t.bottom == TileOn(cols, tiles, i, 1).top
  {
    var t0 := rnd(i, j);
    var t1 := if i > 1 then t0.(left := TileOn(cols, tiles, i - 1, j).right) else t0;
    var t2 := if j > 1 then t1.(top := TileOn(cols, tiles, i, j - 1).bottom) else t1;
    var t3 := if i == w - 2 then t2.(right := (if i == 1 then t2 else TileOn(cols, tiles, 1, j)).left) else t2;
    if j == h - 2 then t3.(bottom := (if j == 1 then t3 else TileOn(cols, tiles, i, 1)).top) else t3
  }

  /** The edge relations of interior square (c, r) once it has its tile. */
  predicate EdgesHold(cols: seq<seq<int>>, tiles: seq<Tile>, rnd: (int, int) -> Tile, w: int, h: int, c: int, r: int)
  {
    var t := TileOn(cols, tiles, c, r);
    (c > 1 ==> t.left == TileOn(cols, tiles, c - 1, r).right) &&
    (r > 1 ==> t.top == TileOn(cols, tiles, c, r - 1).bottom) &&
    (c == w - 2 ==> t.right == TileOn(cols, tiles, 1, r).left) &&
    (r == h - 2 ==> t.bottom == TileOn(cols, tiles, c, 1).top) &&
    (c == 1 ==> t.left == rnd(c, r).left) &&
    (r == 1 ==> t.top == rnd(c, r).top) &&
    (c != w - 2 ==> t.right == rnd(c, r).right) &&
    (r != h - 2 ==> t.bottom == rnd(c, r).bottom)
  }

  /** The state of generation when square (i, j) is next: the squares visited
      so far hold their new tiles and satisfy their edge relations, every other
      square is as on `board`, and the tiles that existed before are unchanged. */
  ghost predicate Generating(cols: seq<seq<int>>, tiles: seq<Tile>, board: seq<seq<int>>, before: seq<Tile>,
                             rnd: (int, int) -> Tile, w: int, h: int, i: int, j: int)
  {
    IsGrid(cols, w, h) && IsGrid(board, w, h) && 1 <= j &&
    |before| <= |tiles| == GeneratedId(|before|, h, i, j) && tiles[..|before|] == before &&
    (forall c, r :: 0 <= c < w && 0 <= r < h ==>
      cols[c][r] == if DoneBefore(h, i, j, c, r) then GeneratedId(|before|, h, c, r) else board[c][r]) &&
    (forall c, r :: DoneBefore(h, i, j, c, r) ==> EdgesHold(cols, tiles, rnd, w, h, c, r))
  }

  /** After visiting (i, j), the earlier squares still show their tiles and
      square (i, j) shows the new one. */
  lemma StepTiles(cols: seq<seq<int>>, tiles: seq<Tile>, board: seq<seq<int>>, before: seq<Tile>,
                  rnd: (int, int) -> Tile, w: int, h: int, i: int, j: int, t: Tile)
    requires Generating(cols, tiles, board, before, rnd, w, h, i, j)
    requires 1 <= i <= w - 2 && 1 <= j <= h - 2
    ensures forall c, r :: DoneBefore(h, i, j, c, r) ==>
      TileOn(Put(cols, i, j, |tiles|), tiles + [t], c, r) == TileOn(cols, tiles, c, r)
    ensures TileOn(Put(cols, i, j, |tiles|), tiles + [t], i, j) == t
  {
    forall c, r | DoneBefore(h, i, j, c, r)
      ensures TileOn(Put(cols, i, j, |tiles|), tiles + [t], c, r) == TileOn(cols, tiles, c, r)
    {
      GeneratedIdBelow(|before|, h, i, j, c, r);
    }
  }

  /** The new tile satisfies the edge relations of square (i, j). */
  lemma StepEdges(cols: seq<seq<int>>, tiles: seq<Tile>, board: seq<seq<int>>, before: seq<Tile>,
                  rnd: (int, int) -> Tile, w: int, h: int, i: int, j: int)
    requires Generating(cols, tiles, board, before, rnd, w, h, i, j)
    requires 1 <= i <= w - 2 && 1 <= j <= h - 2
    ensures EdgesHold(Put(cols, i, j, |tiles|), tiles + [NewTile(cols, tiles, rnd, w, h, i, j)], rnd, w, h, i, j)
  {
    var t := NewTile(cols, tiles, rnd, w, h, i, j);
    StepTiles(cols, tiles, board, before, rnd, w, h, i, j, t);
    assert i > 1 ==> DoneBefore(h, i, j, i - 1, j) && DoneBefore(h, i, j, 1, j);
    assert j > 1 ==> DoneBefore(h, i, j, i, j - 1) && DoneBefore(h, i, j, i, 1);
  }

  /** The edge relations of earlier squares survive the visit of (i, j). */
  lemma StepKeepsEdges(cols: seq<seq<int>>, tiles: seq<Tile>, board: seq<seq<int>>, before: seq<Tile>,
                       rnd: (int, int) -> Tile, w: int, h: int, i: int, j: int, t: Tile)
    requires Generating(cols, tiles, board, before, rnd, w, h, i, j)
    requires 1 <= i <= w - 2 && 1 <= j <= h - 2
    ensures forall c, r :: DoneBefore(h, i, j, c, r) ==>
      EdgesHold(Put(cols, i, j, |tiles|), tiles + [t], rnd, w, h, c, r)
  {
    StepTiles(cols, tiles, board, before, rnd, w, h, i, j, t);
    forall c, r | DoneBefore(h, i, j, c, r)
      ensures EdgesHold(Put(cols, i, j, |tiles|), tiles + [t], rnd, w, h, c, r)
    {
      assert EdgesHold(cols, tiles, rnd, w, h, c, r);
      assert c > 1 ==> DoneBefore(h, i, j, c - 1, r);
      assert r > 1 ==> DoneBefore(h, i, j, c, r - 1);
      assert DoneBefore(h, i, j, 1, r) && DoneBefore(h, i, j, c, 1);
    }
  }

  /** Visiting square (i, j) keeps the generation state. */
  lemma GenerateStep(cols: seq<seq<int>>, tiles: seq<Tile>, board: seq<seq<int>>, before: seq<Tile>,
                     rnd: (int, int) -> Tile, w: int, h: int, i: int, j: int)
    requires Generating(cols, tiles, board, before, rnd, w, h, i, j)
    requires 1 <= i <= w - 2 && 1 <= j <= h - 2
    ensures Generating(Put(cols, i, j, |tiles|), tiles + [NewTile(cols, tiles, rnd, w, h, i, j)],
                       board, before, rnd, w, h, i, j + 1)
  {
    var id := |tiles|;
    var t := NewTile(cols, tiles, rnd, w, h, i, j);
    var cols', tiles' := Put(cols, i, j, id), tiles + [t];
    assert tiles'[..|before|] == before by {
      assert tiles'[..|before|] == tiles[..|before|];
    }
    StepEdges(cols, tiles, board, before, rnd, w, h, i, j);
    StepKeepsEdges(cols, tiles, board, before, rnd, w, h, i, j, t);
    forall c, r | DoneBefore(h, i, j + 1, c, r)
      ensures EdgesHold(cols', tiles', rnd, w, h, c, r)
    {
      if (c, r) != (i, j) {
        assert DoneBefore(h, i, j, c, r);
      }
    }
  }

  /** Finishing a column is starting the next one. */
  lemma GenerateNextColumn(cols: seq<seq<int>>, tiles: seq<Tile>, board: seq<seq<int>>, before: seq<Tile>,
                           rnd: (int, int) -> Tile, w: int, h: int, i: int, j: int)
    requires Generating(cols, tiles, board, before, rnd, w, h, i, j)
    requires j == if h >= 2 then h - 1 else 1
    ensures Generating(cols, tiles, board, before, rnd, w, h, i + 1, 1)
  {
    var rows := InteriorRows(h);
    assert GeneratedId(|before|, h, i, j) == |before| + (i - 1) * rows + rows;
    assert (i - 1) * rows + rows == i * rows;
    forall c, r ensures DoneBefore(h, i, j, c, r) <==> DoneBefore(h, i + 1, 1, c, r) {
    }
  }

  /** The edges generation leaves random: the left edges of the first interior
      column, the top edges of the first interior row, and every right and
      bottom edge that does not wrap around. */
  ghost predicate RandomEdges(cols: seq<seq<int>>, tiles: seq<Tile>, rnd: (int, int) -> Tile, w: int, h: int)
    requires IsGrid(cols, w, h) && InteriorIds(cols, w, h, |tiles|)
  {
    forall c, r :: InInterior(w, h, c, r) ==>
      (c == 1 ==> tiles[cols[c][r]].left == rnd(c, r).left) &&
      (r == 1 ==> tiles[cols[c][r]].top == rnd(c, r).top) &&
      (c != w - 2 ==> tiles[cols[c][r]].right == rnd(c, r).right) &&
      (r != h - 2 ==> tiles[cols[c][r]].bottom == rnd(c, r).bottom)
  }

  /** When every interior square has been visited, each holds its own new tile,
      the border is as it was, and the interior is a solved puzzle whose free
      edges are the random ones. */
  lemma GenerateDone(cols: seq<seq<int>>, tiles: seq<Tile>, board: seq<seq<int>>, before: seq<Tile>,
                     rnd: (int, int) -> Tile, w: int, h: int, i: int)
    requires Generating(cols, tiles, board, before, rnd, w, h, i, 1)
    requires i == if w >= 2 then w - 1 else 1
    ensures |tiles| == |before| + InteriorRows(w) * InteriorRows(h)
    ensures forall c, r :: 0 <= c < w && 0 <= r < h ==>
      cols[c][r] == if InInterior(w, h, c, r) then GeneratedId(|before|, h, c, r) else board[c][r]
    ensures InteriorIds(cols, w, h, |tiles|)
    ensures GeneratedMatches(cols, tiles, w, h)
    ensures RandomEdges(cols, tiles, rnd, w, h)
  {
    GenerateDoneLayout(cols, tiles, board, before, rnd, w, h, i);
    GenerateDoneEdges(cols, tiles, board, before, rnd, w, h, i);
  }

  /** The layout half of `GenerateDone`: which square holds which id. */
  lemma GenerateDoneLayout(cols: seq<seq<int>>, tiles: seq<Tile>, board: seq<seq<int>>, before: seq<Tile>,
                           rnd: (int, int) -> Tile, w: int, h: int, i: int)
    requires Generating(cols, tiles, board, before, rnd, w, h, i, 1)
    requires i == if w >= 2 then w - 1 else 1
    ensures |tiles| == |before| + InteriorRows(w) * InteriorRows(h)
    ensures forall c, r :: 0 <= c < w && 0 <= r < h ==>
      cols[c][r] == if InInterior(w, h, c, r) then GeneratedId(|before|, h, c, r) else board[c][r]
    ensures InteriorIds(cols, w, h, |tiles|)
  {
    forall c, r | 0 <= c < w && 0 <= r < h
      ensures DoneBefore(h, i, 1, c, r) <==> InInterior(w, h, c, r)
    {
    }
    forall c, r | InInterior(w, h, c, r)
      ensures 0 <= cols[c][r] < |tiles|
    {
      GeneratedIdBelow(|before|, h, i, 1, c, r);
    }
  }

  /** The edge half of `GenerateDone`: every interior square was visited, so
      its edge relations hold. */
  lemma GenerateDoneEdges(cols: seq<seq<int>>, tiles: seq<Tile>, board: seq<seq<int>>, before: seq<Tile>,
                          rnd: (int, int) -> Tile, w: int, h: int, i: int)
    requires Generating(cols, tiles, board, before, rnd, w, h, i, 1)
    requires i == if w >= 2 then w - 1 else 1
    requires InteriorIds(cols, w, h, |tiles|)
    ensures GeneratedMatches(cols, tiles, w, h)
    ensures RandomEdges(cols, tiles, rnd, w, h)
  {
    forall c, r | InInterior(w, h, c, r)
      ensures EdgesHold(cols, tiles, rnd, w, h, c, r)
    {
      assert DoneBefore(h, i, 1, c, r);
    }
    EdgesMatch(cols, tiles, rnd, w, h);
    EdgesRandom(cols, tiles, rnd, w, h);
  }

  /** Edge relations on every interior square make the interior match. */
  lemma EdgesMatch(cols: seq<seq<int>>, tiles: seq<Tile>, rnd: (int, int) -> Tile, w: int, h: int)
    requires IsGrid(cols, w, h) && InteriorIds(cols, w, h, |tiles|)
    requires forall c, r :: InInterior(w, h, c, r) ==> EdgesHold(cols, tiles, rnd, w, h, c, r)
    ensures GeneratedMatches(cols, tiles, w, h)
  {
    forall c, r | InInterior(w, h, c, r)
      ensures (c > 1 ==> tiles[cols[c][r]].left == tiles[cols[c - 1][r]].right) &&
              (r > 1 ==> tiles[cols[c][r]].top == tiles[cols[c][r - 1]].bottom) &&
              (c == w - 2 ==> tiles[cols[c][r]].right == tiles[cols[1][r]].left) &&
              (r == h - 2 ==> tiles[cols[c][r]].bottom == tiles[cols[c][1]].top)
    {
      assert EdgesHold(cols, tiles, rnd, w, h, c, r);
    }
  }

  /** Edge relations on every interior square leave the free edges random. */
  lemma EdgesRandom(cols: seq<seq<int>>, tiles: seq<Tile>, rnd: (int, int) -> Tile, w: int, h: int)
    requires IsGrid(cols, w, h) && InteriorIds(cols, w, h, |tiles|)
    requires forall c, r :: InInterior(w, h, c, r) ==> EdgesHold(cols, tiles, rnd, w, h, c, r)
    ensures RandomEdges(cols, tiles, rnd, w, h)
  {
    forall c, r | InInterior(w, h, c, r)
      ensures (c == 1 ==> tiles[cols[c][r]].left == rnd(c, r).left) &&
              (r == 1 ==> tiles[cols[c][r]].top == rnd(c, r).top) &&
              (c != w - 2 ==> tiles[cols[c][r]].right == rnd(c, r).right) &&
              (r != h - 2 ==> tiles[cols[c][r]].bottom == rnd(c, r).bottom)
    {
      assert EdgesHold(cols, tiles, rnd, w, h, c, r);
    }
  }
}
