/** The game controller's board: the grid of squares, the tiles the squares
    refer to, and the move counter, with the operations that build, shuffle,
    test and dump the board. */
module GameController {
  import opened Grid
  import opened Shuffle
  import opened Solved
  import opened Dump
  import opened Generation

  class Board {
    const width: nat
    const height: nat
    /** `grid[c, r]` is the tile on column c, row r, or `Empty`. */
    var grid: array2<int>
    var tiles: seq<Tile>
    var moveCount: nat
    /** The solved layout the board was generated in, before the shuffle. */
    ghost var generated: seq<seq<int>>

    ghost predicate Valid()
      reads this`grid, this`tiles, grid
    {
      grid.Length0 == width && grid.Length1 == height &&
      forall c, r :: 0 <= c < width && 0 <= r < height ==> grid[c, r] == Empty || 0 <= grid[c, r] < |tiles|
    }

    /** The grid read column by column. */
    ghost function Columns(): (cols: seq<seq<int>>)
      reads this`grid, grid
      requires grid.Length0 == width && grid.Length1 == height
      ensures IsGrid(cols, width, height)
      ensures forall c, r :: 0 <= c < width && 0 <= r < height ==> cols[c][r] == grid[c, r]
    {
      var g := grid;
      seq(width, c requires 0 <= c < width reads g =>
        seq(height, r requires 0 <= r < height reads g => g[c, r]))
    }

    /** The board set up as the game starts: an empty grid of `w` by `h`
        squares, filled with tiles in a solved layout, then shuffled. The
        patterns drawn for square (c, r) are `rnd(c, r)`; the square it is
        exchanged with in the shuffle is `pick(c, r)`. */
    constructor(w: nat, h: nat, rnd: (int, int) -> Tile, pick: (int, int) -> (int, int))
      requires PicksInInterior(pick, w, h)
      ensures width == w && height == h && Valid() && moveCount == 0
      ensures |tiles| == InteriorRows(w) * InteriorRows(h)
      ensures IsGrid(generated, w, h)
      ensures InteriorLayout(generated, w, h, |tiles|) && GeneratedMatches(generated, tiles, w, h)
      ensures Columns() == Shuffled(generated, pick, w, h)
      ensures Bag(Columns()) == Bag(generated)
    {
      width, height := w, h;
      grid := new int[0, 0];
      tiles := [];
      moveCount := 0;
      generated := [];
      new;
      GenerateSolvedBoard(rnd);
      generated := Columns();
      ghost var before := Columns();
      assert before == generated;
      ShufflePuzzleTiles(pick);
      assert Columns() == Shuffled(before, pick, w, h);
      assert Bag(Columns()) == Bag(before);
    }

    /** The first two steps of the start of a game: a fresh empty grid, then
        the tiles of the solved layout on its interior. */
    method GenerateSolvedBoard(rnd: (int, int) -> Tile)
      modifies this
      ensures fresh(grid) && Valid() && moveCount == old(moveCount)
      ensures |tiles| == old(|tiles|) + InteriorRows(width) * InteriorRows(height)
      ensures InteriorLayout(Columns(), width, height, |tiles|)
      ensures GeneratedMatches(Columns(), tiles, width, height)
    {
      GenerateEmptyTileGrid();
      GeneratePuzzleTiles(rnd);
      assert BorderEmpty(Columns(), width, height);
    }

    /** A fresh grid of the board's size, every square empty. */
    method GenerateEmptyTileGrid()
      modifies this
      ensures fresh(grid) && grid.Length0 == width && grid.Length1 == height
      ensures forall c, r :: 0 <= c < width && 0 <= r < height ==> grid[c, r] == Empty
      ensures tiles == old(tiles) && moveCount == old(moveCount)
    {
      var g := new int[width, height];
      var i := 0;
      while i < width
        modifies g
        invariant 0 <= i <= width
        invariant forall c, r :: 0 <= c < i && 0 <= r < height ==> g[c, r] == Empty
      {
        var j := 0;
        while j < height
          modifies g
          invariant 0 <= j <= height
          invariant forall c, r :: 0 <= c < i && 0 <= r < height ==> g[c, r] == Empty
          invariant forall r :: 0 <= r < j ==> g[i, r] == Empty
        {
          g[i, j] := Empty;
          j := j + 1;
        }
        i := i + 1;
      }
      grid := g;
    }

    /** Gives every interior square a new tile, visiting the interior column by
        column, top to bottom: the tile gets the random patterns `rnd(c, r)`
        and then copies its left edge from the tile on its left, its top edge
        from the tile above, and in the last interior column or row its right
        or bottom edge from the first tile of the row or column. */
    method GeneratePuzzleTiles(rnd: (int, int) -> Tile)
      requires Valid()
      modifies this, grid
      ensures grid == old(grid) && moveCount == old(moveCount)
      ensures |tiles| == old(|tiles|) + InteriorRows(width) * InteriorRows(height)
      ensures tiles[..old(|tiles|)] == old(tiles)
      ensures forall c, r :: 0 <= c < width && 0 <= r < height ==>
        grid[c, r] == if InInterior(width, height, c, r) then GeneratedId(old(|tiles|), height, c, r) else old(grid[c, r])
      ensures InteriorIds(Columns(), width, height, |tiles|)
      ensures GeneratedMatches(Columns(), tiles, width, height)
      ensures RandomEdges(Columns(), tiles, rnd, width, height)
    {
      ghost var board := Columns();
      ghost var before := tiles;
      var i := 1;
      while i < width - 1
        invariant 1 <= i <= if width >= 2 then width - 1 else 1
        invariant grid == old(grid) && moveCount == old(moveCount)
        invariant Generating(Columns(), tiles, board, before, rnd, width, height, i, 1)
      {
        GenerateColumn(rnd, i, board, before);
        i := i + 1;
      }
      GenerateDone(Columns(), tiles, board, before, rnd, width, height, i);
    }

    /** The inner generation loop: visits the interior squares of column `i`
        from top to bottom. */
    method GenerateColumn(rnd: (int, int) -> Tile, i: int, ghost board: seq<seq<int>>, ghost before: seq<Tile>)
      requires grid.Length0 == width && grid.Length1 == height && 1 <= i <= width - 2
      requires Generating(Columns(), tiles, board, before, rnd, width, height, i, 1)
      modifies this, grid
      ensures grid == old(grid) && moveCount == old(moveCount)
      ensures Generating(Columns(), tiles, board, before, rnd, width, height, i + 1, 1)
    {
      var j := 1;
      while j < height - 1
        invariant 1 <= j <= if height >= 2 then height - 1 else 1
        invariant grid == old(grid) && moveCount == old(moveCount)
        invariant Generating(Columns(), tiles, board, before, rnd, width, height, i, j)
      {
        PlaceNewTile(rnd, i, j, board, before);
        j := j + 1;
      }
      GenerateNextColumn(Columns(), tiles, board, before, rnd, width, height, i, j);
    }

    /** One visit of the generation loop: a new tile with the random patterns
        `rnd(i, j)` goes on square (i, j), then its edges are copied from its
        neighbours as `NewTile` describes. */
    method PlaceNewTile(rnd: (int, int) -> Tile, i: int, j: int, ghost board: seq<seq<int>>, ghost before: seq<Tile>)
      requires grid.Length0 == width && grid.Length1 == height
      requires 1 <= i <= width - 2 && 1 <= j <= height - 2
      requires Generating(Columns(), tiles, board, before, rnd, width, height, i, j)
      modifies this, grid
      ensures grid == old(grid) && moveCount == old(moveCount)
      ensures Generating(Columns(), tiles, board, before, rnd, width, height, i, j + 1)
    {
      ghost var cols := Columns();
      ghost var previous := tiles;
      GenerateStep(cols, tiles, board, before, rnd, width, height, i, j);
      ValidNeighbours(cols, tiles, board, before, rnd, i, j);
      SetNewTile(rnd, i, j);
      GridExt(Columns(), Put(cols, i, j, |previous|), width, height);
    }

    /** The writes of one visit: the new tile goes on square (i, j), then its
        edges are copied from its neighbours as `NewTile` describes. */
    method SetNewTile(rnd: (int, int) -> Tile, i: int, j: int)
      requires grid.Length0 == width && grid.Length1 == height
      requires 1 <= i <= width - 2 && 1 <= j <= height - 2
      requires i > 1 ==> 0 <= grid[i - 1, j] < |tiles| && 0 <= grid[1, j] < |tiles|
      requires j > 1 ==> 0 <= grid[i, j - 1] < |tiles| && 0 <= grid[i, 1] < |tiles|
      modifies this, grid
      ensures grid == old(grid) && moveCount == old(moveCount)
      ensures forall c, r :: 0 <= c < width && 0 <= r < height ==>
        grid[c, r] == if c == i && r == j then old(|tiles|) else old(grid[c, r])
      ensures tiles == old(tiles) + [NewTile(old(Columns()), old(tiles), rnd, width, height, i, j)]
    {
      ghost var cols := Columns();
      ghost var previous := tiles;
      var id := |tiles|;
      tiles := tiles + [rnd(i, j)];
      grid[i, j] := id;
      ghost var t := rnd(i, j);
      if i > 1 {
        tiles := tiles[id := tiles[id].(left := tiles[grid[i - 1, j]].right)];
        t := t.(left := TileOn(cols, previous, i - 1, j).right);
      }
      assert tiles == previous + [t];
      if j > 1 {
        tiles := tiles[id := tiles[id].(top := tiles[grid[i, j - 1]].bottom)];
        t := t.(top := TileOn(cols, previous, i, j - 1).bottom);
      }
      assert tiles == previous + [t];
      if i == width - 2 {
        tiles := tiles[id := tiles[id].(right := tiles[grid[1, j]].left)];
        t := t.(right := (if i == 1 then t else TileOn(cols, previous, 1, j)).left);
      }
      assert tiles == previous + [t];
      if j == height - 2 {
        tiles := tiles[id := tiles[id].(bottom := tiles[grid[i, 1]].top)];
        t := t.(bottom := (if j == 1 then t else TileOn(cols, previous, i, 1)).top);
      }
      assert tiles == previous + [t];
    }

    /** The squares the visit of (i, j) copies edges from hold valid tile ids. */
    lemma ValidNeighbours(cols: seq<seq<int>>, tiles: seq<Tile>, board: seq<seq<int>>, before: seq<Tile>,
                          rnd: (int, int) -> Tile, i: int, j: int)
      requires Generating(cols, tiles, board, before, rnd, width, height, i, j)
      requires 1 <= i <= width - 2 && 1 <= j <= height - 2
      ensures i > 1 ==> 0 <= cols[i - 1][j] < |tiles| && 0 <= cols[1][j] < |tiles|
      ensures j > 1 ==> 0 <= cols[i][j - 1] < |tiles| && 0 <= cols[i][1] < |tiles|
    {
      if i > 1 {
        GeneratedIdBelow(|before|, height, i, j, i - 1, j);
        GeneratedIdBelow(|before|, height, i, j, 1, j);
      }
      if j > 1 {
        GeneratedIdBelow(|before|, height, i, j, i, j - 1);
        GeneratedIdBelow(|before|, height, i, j, i, 1);
      }
    }

    /** Exchanges the contents of two squares. */
    method SwapSquares(a: (int, int), b: (int, int))
      requires grid.Length0 == width && grid.Length1 == height
      requires InGrid(width, height, a.0, a.1) && InGrid(width, height, b.0, b.1)
      modifies grid
      ensures Columns() == Swap(old(Columns()), a, b)
    {
      ghost var cols := Columns();
      var temp := grid[a.0, a.1];
      grid[a.0, a.1] := grid[b.0, b.1];
      grid[b.0, b.1] := temp;
      GridExt(Columns(), Swap(cols, a, b), width, height);
    }

    /** Visits the interior column by column, top to bottom, and exchanges each
        square with the random interior square `pick(c, r)` unless that is the
        square itself. */
    method ShufflePuzzleTiles(pick: (int, int) -> (int, int))
      requires Valid() && PicksInInterior(pick, width, height)
      modifies grid
      ensures Valid()
      ensures Columns() == Shuffled(old(Columns()), pick, width, height)
      ensures Bag(Columns()) == Bag(old(Columns()))
    {
      ghost var start := Columns();
      var i := 1;
      while i < width - 1
        invariant 1 <= i
        invariant ShuffleFrom(Columns(), pick, width, height, i, 1) == Shuffled(start, pick, width, height)
      {
        ShuffleColumn(pick, i);
        i := i + 1;
      }
      assert Columns() == Shuffled(start, pick, width, height);
      ShuffleKeepsBag(start, pick, width, height, 1, 1);
      ShuffleKeepsWellFormed(start, pick, width, height, 1, 1, |tiles|);
    }

    /** The inner shuffle loop: visits the interior squares of column `i` from
        top to bottom. */
    method ShuffleColumn(pick: (int, int) -> (int, int), i: int)
      requires grid.Length0 == width && grid.Length1 == height
      requires PicksInInterior(pick, width, height) && 1 <= i < width - 1
      modifies grid
      ensures ShuffleFrom(Columns(), pick, width, height, i + 1, 1) == ShuffleFrom(old(Columns()), pick, width, height, i, 1)
    {
      ghost var start := Columns();
      var j := 1;
      while j < height - 1
        invariant 1 <= j
        invariant ShuffleFrom(Columns(), pick, width, height, i, j) == ShuffleFrom(start, pick, width, height, i, 1)
      {
        ShuffleSquare(pick, i, j);
        j := j + 1;
      }
    }

    /** One visit of the shuffle: interior square (i, j) is exchanged with the
        random interior square `pick(i, j)`, unless that is the square itself. */
    method ShuffleSquare(pick: (int, int) -> (int, int), i: int, j: int)
      requires grid.Length0 == width && grid.Length1 == height
      requires PicksInInterior(pick, width, height) && InInterior(width, height, i, j)
      modifies grid
      ensures Columns() == SwapStep(old(Columns()), width, height, i, j, pick(i, j))
    {
      var (randomColumn, randomRow) := pick(i, j);
      assert InInterior(width, height, randomColumn, randomRow);
      if randomColumn == i && randomRow == j {
        return;
      }
      SwapSquares((i, j), (randomColumn, randomRow));
    }

    /** The solved test. The anchor is the first tile found scanning columns
        `0..width-1` and, in each, rows `0..width-1`, or (0, 0) on an empty
        board; the interior-sized block from the anchor must fit on the board,
        have no empty square, match every tile's left and top edges against
        its neighbours', and match around its rows and columns. Scanning rows
        up to the width reads off the grid unless the board is at least as
        high as it is wide. */
    method IsPuzzleSolved() returns (solved: bool)
      requires Valid() && width <= height
      ensures solved == SolvedTorus(Columns(), tiles, width, height)
    {
      var ax, ay := FindAnchor();
      solved := CheckFromAnchor(ax, ay);
    }

    /** The scans of the interior-sized block anchored at `(ax, ay)`: it must
        fit on the board, then have no gap and matching neighbours, then match
        around its rows and columns. */
    method CheckFromAnchor(ax: int, ay: int) returns (ok: bool)
      requires Valid() && 0 <= ax && 0 <= ay
      ensures ok == TorusFrom(Columns(), tiles, width, height, (ax, ay))
    {
      var ex, ey := ax + width - 3, ay + height - 3;
      if ex >= width || ey >= height {
        return false;
      }
      ok := CheckFittedBlock(ax, ay, ex, ey);
      TorusFromFitted(Columns(), tiles, width, height, (ax, ay), (ex, ey), ok);
    }

    /** The scans of a block that fits on the board: no gap and matching
        neighbours, then the wraparound. */
    method CheckFittedBlock(ax: int, ay: int, ex: int, ey: int) returns (ok: bool)
      requires Valid() && 0 <= ax && 0 <= ay && ex < width && ey < height
      ensures ok == (BlockFilled(Columns(), width, height, (ax, ay), (ex, ey)) &&
                     BlockMatches(Columns(), tiles, width, height, (ax, ay), (ex, ey)) &&
                     BlockWraps(Columns(), tiles, width, height, (ax, ay), (ex, ey)))
    {
      ok := CheckBlock(ax, ay, ex, ey);
      if ok {
        ok := CheckWraps(ax, ay, ex, ey);
      }
    }

    /** The wraparound scan of the solved test: along the block's last column
        every right edge must equal the left edge at the anchor's column, and
        along its last row every bottom edge the top edge at the anchor's row. */
    method CheckWraps(ax: int, ay: int, ex: int, ey: int) returns (ok: bool)
      requires Valid() && 0 <= ax && 0 <= ay && ex < width && ey < height
      requires BlockFilled(Columns(), width, height, (ax, ay), (ex, ey))
      ensures ok == BlockWraps(Columns(), tiles, width, height, (ax, ay), (ex, ey))
    {
      ghost var cols := Columns();
      if ex < ax || ey < ay {
        return true;
      }
      var y := ay;
      while y <= ey
        invariant ay <= y <= ey + 1
        invariant forall j :: ay <= j < y ==> tiles[cols[ex][j]].right == tiles[cols[ax][j]].left
      {
        assert cols[ex][y] != Empty && cols[ax][y] != Empty;
        if tiles[grid[ex, y]].right != tiles[grid[ax, y]].left {
          return false;
        }
        y := y + 1;
      }
      var x := ax;
      while x <= ex
        invariant ax <= x <= ex + 1
        invariant forall i :: ax <= i < x ==> tiles[cols[i][ey]].bottom == tiles[cols[i][ay]].top
      {
        assert cols[x][ey] != Empty && cols[x][ay] != Empty;
        if tiles[grid[x, ey]].bottom != tiles[grid[x, ay]].top {
          return false;
        }
        x := x + 1;
      }
      return true;
    }

    /** The anchor scan of the solved test: columns `0..width-1` and, in each,
        rows `0..width-1`, stopping at the first occupied square. */
    method FindAnchor() returns (ax: int, ay: int)
      requires Valid() && width <= height
      ensures (ax, ay) == Anchor(Columns(), width, height)
    {
      ghost var cols := Columns();
      ax, ay := 0, 0;
      var found := false;
      var i := 0;
      while i < width && !found
        invariant 0 <= i <= width
        invariant !found ==> ax == 0 && ay == 0 && AnchorFrom(cols, width, height, i, 0) == AnchorFrom(cols, width, height, 0, 0)
        invariant found ==> AnchorFrom(cols, width, height, 0, 0) == Some((ax, ay))
        decreases width - i, if found then 0 else 1
      {
        var j := 0;
        while j < width && !found
          invariant 0 <= j <= width
          invariant !found ==> ax == 0 && ay == 0 && AnchorFrom(cols, width, height, i, j) == AnchorFrom(cols, width, height, 0, 0)
          invariant found ==> AnchorFrom(cols, width, height, 0, 0) == Some((ax, ay))
          decreases width - j, if found then 0 else 1
        {
          if grid[i, j] != Empty {
            ax, ay := i, j;
            found := true;
          } else {
            j := j + 1;
          }
        }
        if !found {
          i := i + 1;
        }
      }
    }

    /** The block scan of the solved test: every square from `(ax, ay)` to
        `(ex, ey)` is occupied and its left and top edges match its
        neighbours' inside the block. */
    method CheckBlock(ax: int, ay: int, ex: int, ey: int) returns (ok: bool)
      requires Valid() && 0 <= ax && 0 <= ay && ex < width && ey < height
      ensures ok == (BlockFilled(Columns(), width, height, (ax, ay), (ex, ey)) &&
                     BlockMatches(Columns(), tiles, width, height, (ax, ay), (ex, ey)))
    {
      ghost var cols := Columns();
      var x := ax;
      while x < ex + 1
        invariant ax <= x && (x <= ex + 1 || x == ax)
        invariant forall c, r :: ax <= c < x && ay <= r <= ey ==> BlockSquareOk(cols, (ax, ay), c, r)
      {
        var y := ay;
        while y < ey + 1
          invariant ay <= y && (y <= ey + 1 || y == ay)
          invariant forall c, r :: ax <= c < x && ay <= r <= ey ==> BlockSquareOk(cols, (ax, ay), c, r)
          invariant forall r :: ay <= r < y ==> BlockSquareOk(cols, (ax, ay), x, r)
        {
          if grid[x, y] == Empty {
            assert !BlockFilled(cols, width, height, (ax, ay), (ex, ey));
            return false;
          }
          assert x > ax ==> BlockSquareOk(cols, (ax, ay), x - 1, y);
          assert y > ay ==> BlockSquareOk(cols, (ax, ay), x, y - 1);
          if (x > ax && tiles[grid[x, y]].left != tiles[grid[x - 1, y]].right) ||
             (y > ay && tiles[grid[x, y]].top != tiles[grid[x, y - 1]].bottom) {
            BlockOkAt(cols, (ax, ay), (ex, ey), x, y);
            return false;
          }
          y := y + 1;
        }
        x := x + 1;
      }
      BlockSuccess(cols, (ax, ay), (ex, ey));
      return true;
    }

    /** Square (c, r) of the block anchored at `a` is filled and its left and top
        edges match its neighbours' inside the block. */
    ghost predicate BlockSquareOk(cols: seq<seq<int>>, a: (int, int), c: int, r: int)
      reads this`tiles
      requires IsGrid(cols, width, height) && WellFormed(cols, width, height, |tiles|)
      requires 0 <= a.0 <= c < width && 0 <= a.1 <= r < height
    {
      cols[c][r] != Empty &&
      (c > a.0 ==> cols[c - 1][r] != Empty && tiles[cols[c][r]].left == tiles[cols[c - 1][r]].right) &&
      (r > a.1 ==> cols[c][r - 1] != Empty && tiles[cols[c][r]].top == tiles[cols[c][r - 1]].bottom)
    }

    lemma BlockOkAt(cols: seq<seq<int>>, a: (int, int), e: (int, int), x: int, y: int)
      requires IsGrid(cols, width, height) && WellFormed(cols, width, height, |tiles|)
      requires 0 <= a.0 <= x <= e.0 < width && 0 <= a.1 <= y <= e.1 < height
      ensures BlockFilled(cols, width, height, a, e) && BlockMatches(cols, tiles, width, height, a, e) ==>
        BlockSquareOk(cols, a, x, y)
    {
      if BlockFilled(cols, width, height, a, e) {
        assert cols[x][y] != Empty;
        assert x > a.0 ==> cols[x - 1][y] != Empty;
        assert y > a.1 ==> cols[x][y - 1] != Empty;
      }
    }

    lemma BlockSuccess(cols: seq<seq<int>>, a: (int, int), e: (int, int))
      requires IsGrid(cols, width, height) && WellFormed(cols, width, height, |tiles|)
      requires 0 <= a.0 && 0 <= a.1 && e.0 < width && e.1 < height
      requires forall c, r :: a.0 <= c <= e.0 && a.1 <= r <= e.1 ==> BlockSquareOk(cols, a, c, r)
      ensures BlockFilled(cols, width, height, a, e) && BlockMatches(cols, tiles, width, height, a, e)
    {
      forall i, j | a.0 <= i <= e.0 && a.1 <= j <= e.1
        ensures cols[i][j] != Empty
      {
        assert BlockSquareOk(cols, a, i, j);
      }
      forall i, j | a.0 <= i <= e.0 && a.1 <= j <= e.1
        ensures i > a.0 ==> tiles[cols[i][j]].left == tiles[cols[i - 1][j]].right
        ensures j > a.1 ==> tiles[cols[i][j]].top == tiles[cols[i][j - 1]].bottom
      {
        assert BlockSquareOk(cols, a, i, j);
      }
    }

    /** A move has been played: the counter goes up by one and the solved test
        runs on the new board. */
    method OnMovePlayed() returns (solved: bool)
      requires Valid() && width <= height
      modifies this`moveCount
      ensures moveCount == old(moveCount) + 1
      ensures Valid() && Columns() == old(Columns()) && tiles == old(tiles)
      ensures solved == SolvedTorus(Columns(), tiles, width, height)
    {
      moveCount := moveCount + 1;
      solved := IsPuzzleSolved();
    }

    /** The debugging dump: row by row, a token per square, a newline per row. */
    method PrintTileGrid() returns (s: string)
      requires grid.Length0 == width && grid.Length1 == height
      ensures s == DumpText(Columns(), width, height)
    {
      s := "";
      var i := 0;
      while i < height
        invariant 0 <= i <= height
        invariant s == DumpRows(Columns(), width, height, i)
      {
        s := AppendRow(s, i);
        i := i + 1;
      }
    }

    /** One pass of the dump's outer loop: the tokens of row `i`, then a newline. */
    method AppendRow(s: string, i: int) returns (t: string)
      requires grid.Length0 == width && grid.Length1 == height && 0 <= i < height
      ensures t == s + RowLine(Columns(), width, height, i)
    {
      ghost var cols := Columns();
      t := s;
      var j := 0;
      while j < width
        invariant 0 <= j <= width
        invariant t == s + RowText(cols, width, height, i, j)
      {
        t := t + (if grid[j, i] == Empty then "X " else "O ");
        j := j + 1;
      }
      t := t + "\n";
    }
  }

  /** The part of `x` before the decimal point, as a cast from a floating
      point number to an integer computes it: rounded toward zero. */
  function TruncateToInt(x: real): (n: int)
    ensures x >= 0.0 ==> n as real <= x < n as real + 1.0
    ensures x < 0.0 ==> n as real - 1.0 < x <= n as real
  {
    if x >= 0.0 then x.Floor else -((-x).Floor)
  }

  function Max(a: int, b: int): int
  {
    if a >= b then a else b
  }

  /** The level score: 50 points per column, two points per move under 100
      and a point per whole second under 100. */
  function CalculateScore(gridWidth: int, moveCount: nat, levelTimer: real): (score: int)
    ensures score >= 50 * gridWidth
    ensures levelTimer >= 0.0 ==> score <= 50 * gridWidth + 300
    ensures levelTimer >= 0.0 ==> (score == 50 * gridWidth + 300 <==> moveCount == 0 && levelTimer < 1.0)
    ensures moveCount >= 100 && levelTimer >= 100.0 ==> score == 50 * gridWidth
  {
    gridWidth * 50 + Max(100 - moveCount, 0) * 2 + Max(100 - TruncateToInt(levelTimer), 0)
  }

  /** More moves or more time never raise the score. */
  lemma ScoreMonotone(gridWidth: int, m1: nat, m2: nat, t1: real, t2: real)
    requires m1 <= m2 && t1 <= t2
    ensures CalculateScore(gridWidth, m2, t2) <= CalculateScore(gridWidth, m1, t1)
  {
    TruncateMonotone(t1, t2);
  }

  /** Truncation towards zero never decreases as its argument grows. */
  lemma TruncateMonotone(x: real, y: real)
    requires x <= y
    ensures TruncateToInt(x) <= TruncateToInt(y)
  {
    if x >= 0.0 {
      assert TruncateToInt(x) as real <= x <= y;
    } else if y < 0.0 {
      assert TruncateToInt(x) as real - 1.0 < x <= y <= TruncateToInt(y) as real;
    }
  }
}
