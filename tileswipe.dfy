/** The swipe controller: turning pointer positions into grid squares, choosing
    the drag's axis and length while the pointer is held, and pushing the tiles
    along the drag line when it is released. */
module TileSwipe {
  import opened Grid
  import opened Compaction
  import opened Solved
  import opened GameController

  /** The position that stands for "no square": a click off the grid, or no
      drag in progress. */
  const NoSquare: (int, int) := (-1, -1)

  lemma MulMonotone(a: int, b: int, t: int)
    requires t > 0 && a <= b
    ensures a * t <= b * t
  {
    assert b * t - a * t == (b - a) * t;
  }

  /** Bounds of a floor division by a positive divisor. */
  lemma DivBounds(a: int, t: int, n: int)
    requires t > 0
    ensures (a / t) * t <= a < (a / t + 1) * t
    ensures 0 <= a / t < n <==> 0 <= a < n * t
  {
    var q := a / t;
    assert a == q * t + a % t;
    assert (q + 1) * t == q * t + t;
    if 0 <= q < n {
      MulMonotone(0, q, t);
      MulMonotone(q + 1, n, t);
    }
    if 0 <= a < n * t {
      if q < 0 {
        MulMonotone(q, -1, t);
      }
      if q >= n {
        MulMonotone(n, q, t);
      }
    }
  }

  /** The grid square under the pointer at pixel (px, py), where the board's
      top-left corner is at pixel `corner` and every square is `tileSize`
      pixels wide and high; `NoSquare` when the pointer is off the grid. */
  function GetClickedGridPosition(px: int, py: int, corner: (int, int), tileSize: int, w: nat, h: nat): (pos: (int, int))
    requires tileSize > 0
    ensures pos == NoSquare <==>
      !(corner.0 <= px < corner.0 + w * tileSize && corner.1 <= py < corner.1 + h * tileSize)
    ensures pos != NoSquare ==>
      InGrid(w, h, pos.0, pos.1) &&
      corner.0 + pos.0 * tileSize <= px < corner.0 + (pos.0 + 1) * tileSize &&
      corner.1 + pos.1 * tileSize <= py < corner.1 + (pos.1 + 1) * tileSize
  {
    DivBounds(px - corner.0, tileSize, w);
    DivBounds(py - corner.1, tileSize, h);
    var clickedColumn := (px - corner.0) / tileSize;
    var clickedRow := (py - corner.1) / tileSize;
    if clickedColumn < 0 || clickedColumn >= w || clickedRow < 0 || clickedRow >= h then NoSquare
    else (clickedColumn, clickedRow)
  }

  /** The end of a drag held off the grid, brought back onto it: each
      coordinate that is -1 becomes the first column (row) when the pointer is
      before the board's top-left corner on that axis, and the last one
      otherwise. Off the grid both coordinates are -1, so leaving the board
      sideways also moves the end's row to an edge. */
  function ClampEnd(end: (int, int), px: int, py: int, corner: (int, int), w: int, h: int): (e: (int, int))
    requires 1 <= w && 1 <= h
    requires end == NoSquare || InGrid(w, h, end.0, end.1)
    ensures InGrid(w, h, e.0, e.1)
    ensures end != NoSquare ==> e == end
    ensures end == NoSquare ==>
      (e.0 == 0 <==> px < corner.0 || w == 1) && (e.1 == 0 <==> py < corner.1 || h == 1)
  {
    (if end.0 == -1 then (if px < corner.0 then 0 else w - 1) else end.0,
     if end.1 == -1 then (if py < corner.1 then 0 else h - 1) else end.1)
  }

  /** The drag's movement from square `s` to square `e`: along the column
      when they share a column, along the row when they share a row, and for
      a diagonal end along the axis on which the pointer has travelled
      farther, which the caller passes as `diagonalHorizontal`. */
  function AxisMovement(s: (int, int), e: (int, int), diagonalHorizontal: bool): (m: (int, int))
    ensures m == (e.0 - s.0, 0) || m == (0, e.1 - s.1)
    ensures s.0 == e.0 ==> m == (0, e.1 - s.1)
    ensures s.0 != e.0 && s.1 == e.1 ==> m == (e.0 - s.0, 0)
    ensures s.0 != e.0 && s.1 != e.1 ==>
      m == if diagonalHorizontal then (e.0 - s.0, 0) else (0, e.1 - s.1)
    ensures s != e <==> m != (0, 0)
  {
    var horizontal :=
      if s.0 != e.0 && s.1 != e.1 then diagonalHorizontal
      else if s.0 == e.0 then false
      else true;
    if horizontal then (e.0 - s.0, 0) else (0, e.1 - s.1)
  }

  /** The axis, direction and length of a drag line with movement `m`: along
      the row when `m` has a horizontal part, along the column otherwise. */
  function DragHorizontal(m: (int, int)): bool
  {
    m.0 != 0
  }

  function DragDir(m: (int, int)): int
  {
    if m.0 != 0 then (if m.0 > 0 then 1 else -1) else (if m.1 > 0 then 1 else -1)
  }

  function DragLength(m: (int, int)): nat
  {
    if m.0 != 0 then (if m.0 > 0 then m.0 else -m.0) else (if m.1 > 0 then m.1 else -m.1)
  }

  /** The square `k` squares from `s` along the drag: along the row when
      `horizontal`, towards higher indices when `dir` is positive. */
  function Along(s: (int, int), horizontal: bool, dir: int, k: int): (int, int)
  {
    var d := if dir > 0 then k else -k;
    if horizontal then (s.0 + d, s.1) else (s.0, s.1 + d)
  }

  /** The drag line of `n + 1` squares from `s` lies on the grid. */
  predicate LineInGrid(w: int, h: int, s: (int, int), horizontal: bool, dir: int, n: nat)
  {
    InGrid(w, h, s.0, s.1) && InGrid(w, h, Along(s, horizontal, dir, n).0, Along(s, horizontal, dir, n).1)
  }

  /** Square (c, r) is one of the squares of the drag line. */
  predicate OnLine(s: (int, int), horizontal: bool, dir: int, n: nat, c: int, r: int)
  {
    if horizontal then r == s.1 && (if dir > 0 then s.0 <= c <= s.0 + n else s.0 - n <= c <= s.0)
    else c == s.0 && (if dir > 0 then s.1 <= r <= s.1 + n else s.1 - n <= r <= s.1)
  }

  /** The squares of the drag line are exactly those at offsets `0..n`. */
  lemma OnLineOffsets(s: (int, int), horizontal: bool, dir: int, n: nat, c: int, r: int)
    ensures OnLine(s, horizontal, dir, n, c, r) <==> exists k :: 0 <= k <= n && Along(s, horizontal, dir, k) == (c, r)
  {
    if OnLine(s, horizontal, dir, n, c, r) {
      var k := if horizontal then (if dir > 0 then c - s.0 else s.0 - c) else (if dir > 0 then r - s.1 else s.1 - r);
      assert Along(s, horizontal, dir, k) == (c, r);
    }
  }

  /** Boards `a` and `b` agree on every square off the drag line. */
  ghost predicate SameOffLine(a: seq<seq<int>>, b: seq<seq<int>>, w: int, h: int, s: (int, int), horizontal: bool, dir: int, n: nat)
    requires IsGrid(a, w, h) && IsGrid(b, w, h)
  {
    forall c, r :: InGrid(w, h, c, r) && !OnLine(s, horizontal, dir, n, c, r) ==> a[c][r] == b[c][r]
  }

  /** The contents of the drag line, offset 0 being the drag's start. */
  function LineOf(cols: seq<seq<int>>, w: int, h: int, s: (int, int), horizontal: bool, dir: int, n: nat): (line: seq<int>)
    requires IsGrid(cols, w, h) && LineInGrid(w, h, s, horizontal, dir, n)
    ensures |line| == n + 1
    ensures forall k :: 0 <= k <= n ==>
      InGrid(w, h, Along(s, horizontal, dir, k).0, Along(s, horizontal, dir, k).1) &&
      line[k] == cols[Along(s, horizontal, dir, k).0][Along(s, horizontal, dir, k).1]
  {
    seq(n + 1, k requires 0 <= k <= n => cols[Along(s, horizontal, dir, k).0][Along(s, horizontal, dir, k).1])
  }

  /** Moving the tile at offset `j` to offset `f` and emptying offset `j` does
      the same to the drag line. */
  lemma LineAfterMove(cols: seq<seq<int>>, w: int, h: int, s: (int, int), horizontal: bool, dir: int, n: nat, j: int, f: int)
    requires IsGrid(cols, w, h) && LineInGrid(w, h, s, horizontal, dir, n)
    requires 0 <= j < f <= n
    ensures var from, to := Along(s, horizontal, dir, j), Along(s, horizontal, dir, f);
      var line := LineOf(cols, w, h, s, horizontal, dir, n);
      LineOf(Put(Put(cols, to.0, to.1, cols[from.0][from.1]), from.0, from.1, Empty), w, h, s, horizontal, dir, n) ==
      line[f := line[j]][j := Empty]
  {
  }

  /** The state of the push walk at offset `j` with the free square at
      offset `f`: every square between them is empty and the rest of the walk
      ends in `target`. */
  predicate Walking(line: seq<int>, j: int, f: int, target: seq<int>)
  {
    -1 <= j < f < |line| &&
    (forall k :: j < k <= f ==> line[k] == Empty) &&
    Push(line, j, f) == Some(target)
  }

  /** One step of the push walk keeps the walk's outcome and keeps every
      square between the walk and the cursor empty. */
  lemma PushStep(line: seq<int>, j: int, f: int, target: seq<int>)
    requires Walking(line, j, f, target) && 0 <= j
    ensures line[j] != Empty ==> Walking(line[f := line[j]][j := Empty], j - 1, f - 1, target)
    ensures line[j] == Empty ==> Walking(line, j - 1, f, target)
  {
  }

  /** The board after one step of the push walk at offset `j` with the free
      square at offset `f`: a tile at `j` moves to `f` and leaves `j` empty. */
  function WalkMove(cols: seq<seq<int>>, w: int, h: int, s: (int, int), horizontal: bool, dir: int, n: nat, j: int, f: int): (result: seq<seq<int>>)
    requires IsGrid(cols, w, h) && LineInGrid(w, h, s, horizontal, dir, n) && 0 <= j < f <= n
    ensures IsGrid(result, w, h)
  {
    var from, to := Along(s, horizontal, dir, j), Along(s, horizontal, dir, f);
    if cols[from.0][from.1] != Empty then Put(Put(cols, to.0, to.1, cols[from.0][from.1]), from.0, from.1, Empty)
    else cols
  }

  /** A walk step changes the drag line as the step function does, keeps the
      squares off the line, and keeps the multiset of the board. */
  lemma WalkMoveFacts(cols: seq<seq<int>>, cols0: seq<seq<int>>, w: int, h: int, s: (int, int), horizontal: bool, dir: int, n: nat, j: int, f: int)
    requires IsGrid(cols, w, h) && IsGrid(cols0, w, h) && LineInGrid(w, h, s, horizontal, dir, n) && 0 <= j < f <= n
    requires LineOf(cols, w, h, s, horizontal, dir, n)[f] == Empty
    requires SameOffLine(cols, cols0, w, h, s, horizontal, dir, n)
    ensures var line := LineOf(cols, w, h, s, horizontal, dir, n);
      LineOf(WalkMove(cols, w, h, s, horizontal, dir, n, j, f), w, h, s, horizontal, dir, n) ==
        if line[j] != Empty then line[f := line[j]][j := Empty] else line
    ensures SameOffLine(WalkMove(cols, w, h, s, horizontal, dir, n, j, f), cols0, w, h, s, horizontal, dir, n)
    ensures Bag(WalkMove(cols, w, h, s, horizontal, dir, n, j, f)) == Bag(cols)
  {
    var from, to := Along(s, horizontal, dir, j), Along(s, horizontal, dir, f);
    if cols[from.0][from.1] != Empty {
      LineAfterMove(cols, w, h, s, horizontal, dir, n, j, f);
      MoveKeepsBag(cols, from, to);
    }
  }

  /** The board after the whole push walk, from offset `j` down to the drag's
      start, with the free square at offset `f`. */
  function WalkFrom(cols: seq<seq<int>>, w: int, h: int, s: (int, int), horizontal: bool, dir: int, n: nat, j: int, f: int): (result: seq<seq<int>>)
    requires IsGrid(cols, w, h) && LineInGrid(w, h, s, horizontal, dir, n) && -1 <= j < f <= n
    ensures IsGrid(result, w, h)
    decreases j + 1
  {
    if j < 0 then cols
    else
      var from := Along(s, horizontal, dir, j);
      var f' := if cols[from.0][from.1] != Empty then f - 1 else f;
      WalkFrom(WalkMove(cols, w, h, s, horizontal, dir, n, j, f), w, h, s, horizontal, dir, n, j - 1, f')
  }

  /** The walk ends with the drag line as the step function leaves it, the
      squares off the line as they were, and the board's multiset unchanged. */
  lemma {:induction false} WalkFromFacts(cols: seq<seq<int>>, cols0: seq<seq<int>>, w: int, h: int, s: (int, int),
                                         horizontal: bool, dir: int, n: nat, j: int, f: int, target: seq<int>)
    requires IsGrid(cols, w, h) && IsGrid(cols0, w, h) && LineInGrid(w, h, s, horizontal, dir, n) && -1 <= j < f <= n
    requires Walking(LineOf(cols, w, h, s, horizontal, dir, n), j, f, target)
    requires SameOffLine(cols, cols0, w, h, s, horizontal, dir, n)
    ensures LineOf(WalkFrom(cols, w, h, s, horizontal, dir, n, j, f), w, h, s, horizontal, dir, n) == target
    ensures SameOffLine(WalkFrom(cols, w, h, s, horizontal, dir, n, j, f), cols0, w, h, s, horizontal, dir, n)
    ensures Bag(WalkFrom(cols, w, h, s, horizontal, dir, n, j, f)) == Bag(cols)
    decreases j + 1
  {
    var line := LineOf(cols, w, h, s, horizontal, dir, n);
    if j >= 0 {
      var from := Along(s, horizontal, dir, j);
      var f' := if cols[from.0][from.1] != Empty then f - 1 else f;
      PushStep(line, j, f, target);
      WalkMoveFacts(cols, cols0, w, h, s, horizontal, dir, n, j, f);
      WalkFromFacts(WalkMove(cols, w, h, s, horizontal, dir, n, j, f), cols0, w, h, s, horizontal, dir, n, j - 1, f', target);
    }
  }

  /** Board `after` is board `before` with the tiles in front of offset `i`
      of the drag line pushed onto it: the line is compacted, the rest of the
      board is as it was, and no tile appeared or vanished. */
  ghost predicate Pushed(before: seq<seq<int>>, after: seq<seq<int>>, w: int, h: int, s: (int, int),
                         horizontal: bool, dir: int, n: nat, i: nat)
    requires IsGrid(before, w, h) && IsGrid(after, w, h) && LineInGrid(w, h, s, horizontal, dir, n) && i <= n
  {
    LineOf(after, w, h, s, horizontal, dir, n) == Compact(LineOf(before, w, h, s, horizontal, dir, n), i) &&
    SameOffLine(after, before, w, h, s, horizontal, dir, n) &&
    Bag(after) == Bag(before)
  }

  /** The outcome of a release along the drag line: with an empty square at
      some offset in `1..n`, the push onto the farthest one (and `moved`);
      with none, no change at all. */
  ghost predicate Released(before: seq<seq<int>>, after: seq<seq<int>>, w: int, h: int, s: (int, int),
                           horizontal: bool, dir: int, n: nat, moved: bool)
    requires IsGrid(before, w, h) && IsGrid(after, w, h) && LineInGrid(w, h, s, horizontal, dir, n)
  {
    var i := FarthestFree(LineOf(before, w, h, s, horizontal, dir, n), n);
    moved == (i > 0) &&
    if moved then Pushed(before, after, w, h, s, horizontal, dir, n, i) else after == before
  }

  /** A release is the push onto the farthest free square found, or no change
      when none was found. */
  lemma ReleasedByPush(before: seq<seq<int>>, after: seq<seq<int>>, w: int, h: int, s: (int, int),
                       horizontal: bool, dir: int, n: nat, i: nat)
    requires IsGrid(before, w, h) && IsGrid(after, w, h) && LineInGrid(w, h, s, horizontal, dir, n)
    requires i == FarthestFree(LineOf(before, w, h, s, horizontal, dir, n), n)
    requires after == if i > 0 then WalkFrom(before, w, h, s, horizontal, dir, n, i - 1, i) else before
    ensures Released(before, after, w, h, s, horizontal, dir, n, i > 0)
  {
    if i > 0 {
      WalkPushes(before, w, h, s, horizontal, dir, n, i);
    }
  }

  /** After a release that moved tiles the drag's start square is empty, the
      tiles along the line keep their order, the line keeps its tiles and its
      number of empty squares, and the board keeps its tiles. */
  lemma ReleasedFacts(before: seq<seq<int>>, after: seq<seq<int>>, w: int, h: int, s: (int, int),
                      horizontal: bool, dir: int, n: nat, moved: bool)
    requires IsGrid(before, w, h) && IsGrid(after, w, h) && LineInGrid(w, h, s, horizontal, dir, n)
    requires Released(before, after, w, h, s, horizontal, dir, n, moved)
    ensures moved ==> after[s.0][s.1] == Empty
    ensures TilesOf(LineOf(after, w, h, s, horizontal, dir, n)) == TilesOf(LineOf(before, w, h, s, horizontal, dir, n))
    ensures multiset(LineOf(after, w, h, s, horizontal, dir, n)) == multiset(LineOf(before, w, h, s, horizontal, dir, n))
    ensures Bag(after) == Bag(before)
  {
    var line0 := LineOf(before, w, h, s, horizontal, dir, n);
    if moved {
      var i := FarthestFree(line0, n);
      CompactPacks(line0, i);
      CompactKeepsOrder(line0, i);
      CompactKeepsBag(line0, i);
      assert Along(s, horizontal, dir, 0) == s;
    }
  }

  /** The walk that starts one offset before a free square at offset `i`
      performs the push onto that square. */
  lemma WalkPushes(cols: seq<seq<int>>, w: int, h: int, s: (int, int), horizontal: bool, dir: int, n: nat, i: nat)
    requires IsGrid(cols, w, h) && LineInGrid(w, h, s, horizontal, dir, n)
    requires 1 <= i <= n && LineOf(cols, w, h, s, horizontal, dir, n)[i] == Empty
    ensures Pushed(cols, WalkFrom(cols, w, h, s, horizontal, dir, n, i - 1, i), w, h, s, horizontal, dir, n, i)
  {
    var line := LineOf(cols, w, h, s, horizontal, dir, n);
    PushIsCompact(line, i);
    WalkFromFacts(cols, cols, w, h, s, horizontal, dir, n, i - 1, i, Compact(line, i));
  }

  /** The outcome of releasing a drag that started on `s` with movement `m`,
      the pointer being over `end`: when a drag is in progress, the pointer is
      off its start square and it has moved, the release along its line;
      otherwise no change and no move. */
  ghost predicate DragReleased(before: seq<seq<int>>, after: seq<seq<int>>, w: int, h: int,
                               s: (int, int), m: (int, int), end: (int, int), moved: bool)
    requires IsGrid(before, w, h) && IsGrid(after, w, h)
  {
    if s != end && s != NoSquare && m != (0, 0) then
      LineInGrid(w, h, s, DragHorizontal(m), DragDir(m), DragLength(m)) &&
      Released(before, after, w, h, s, DragHorizontal(m), DragDir(m), DragLength(m), moved)
    else !moved && after == before
  }

  class SwipeController {
    const board: Board
    /** The square the drag started on, or `NoSquare`. */
    var dragStart: (int, int)
    /** The drag's movement in squares, along one axis. */
    var dragMovement: (int, int)
    /** Frame updates reach the controller only while it is enabled. */
    var enabled: bool

    ghost predicate Valid()
      reads this, board, board.grid
    {
      board.Valid() && board.width <= board.height &&
      (dragMovement.0 == 0 || dragMovement.1 == 0) &&
      (dragStart == NoSquare ||
       (InGrid(board.width, board.height, dragStart.0, dragStart.1) &&
        InGrid(board.width, board.height, dragStart.0 + dragMovement.0, dragStart.1 + dragMovement.1)))
    }

    constructor(b: Board)
      requires b.Valid() && b.width <= b.height
      ensures board == b && dragStart == NoSquare && dragMovement == (0, 0) && enabled
      ensures Valid()
    {
      board := b;
      dragStart := NoSquare;
      dragMovement := (0, 0);
      enabled := true;
    }

    /** A press on square `clicked` (or off the grid): a drag starts there if
        the square holds a tile; the movement is cleared in any case. */
    method OnPress(clicked: (int, int))
      requires Valid() && enabled
      requires clicked == NoSquare || InGrid(board.width, board.height, clicked.0, clicked.1)
      modifies this`dragStart, this`dragMovement
      ensures Valid() && dragMovement == (0, 0)
      ensures dragStart ==
        if clicked.0 != -1 && board.grid[clicked.0, clicked.1] != Empty then clicked else old(dragStart)
    {
      dragMovement := (0, 0);
      if clicked.0 != -1 && board.grid[clicked.0, clicked.1] != Empty {
        dragStart := clicked;
      }
    }

    /** A frame with the pointer held over square `end` (`NoSquare` off the
        grid) at pixel (px, py): unless no drag is in progress or the pointer
        is back on the start square, the end is clamped onto the grid and the
        movement runs from the start along the chosen axis. */
    method OnHold(end: (int, int), px: int, py: int, corner: (int, int), diagonalHorizontal: bool)
      requires Valid() && enabled
      requires end == NoSquare || InGrid(board.width, board.height, end.0, end.1)
      modifies this`dragMovement
      ensures Valid()
      ensures dragStart == NoSquare || dragStart == end ==> dragMovement == old(dragMovement)
      ensures dragStart != NoSquare && dragStart != end ==>
        dragMovement == AxisMovement(dragStart, ClampEnd(end, px, py, corner, board.width, board.height), diagonalHorizontal)
    {
      if dragStart == NoSquare || dragStart == end {
        return;
      }
      var e := ClampEnd(end, px, py, corner, board.width, board.height);
      dragMovement := AxisMovement(dragStart, e, diagonalHorizontal);
    }

    /** Moves the tile on square `from` onto square `to` and empties `from`. */
    method MoveTile(from: (int, int), to: (int, int))
      requires board.Valid()
      requires InGrid(board.width, board.height, from.0, from.1) && InGrid(board.width, board.height, to.0, to.1)
      requires from != to
      modifies board.grid
      ensures board.Valid()
      ensures board.Columns() ==
        Put(Put(old(board.Columns()), to.0, to.1, old(board.grid[from.0, from.1])), from.0, from.1, Empty)
    {
      ghost var cols := board.Columns();
      board.grid[to.0, to.1] := board.grid[from.0, from.1];
      board.grid[from.0, from.1] := Empty;
      GridExt(board.Columns(), Put(Put(cols, to.0, to.1, cols[from.0][from.1]), from.0, from.1, Empty),
              board.width, board.height);
    }

    /** The push of a release whose free square is at offset `i`: walking from
        offset `i - 1` back to the drag's start, every tile found moves to the
        free square nearest the drag's end and that square's predecessor
        becomes the next free square. */
    method PushTiles(horizontal: bool, dir: int, n: nat, i: nat)
      requires board.Valid() && LineInGrid(board.width, board.height, dragStart, horizontal, dir, n)
      requires 1 <= i <= n
      modifies board.grid
      ensures board.Valid()
      ensures board.Columns() == WalkFrom(old(board.Columns()), board.width, board.height, dragStart, horizontal, dir, n, i - 1, i)
    {
      ghost var w, h := board.width, board.height;
      ghost var result := WalkFrom(board.Columns(), w, h, dragStart, horizontal, dir, n, i - 1, i);
      var free := i;
      var j := i - 1;
      while j >= 0
        invariant board.Valid() && -1 <= j < free <= n
        invariant WalkFrom(board.Columns(), w, h, dragStart, horizontal, dir, n, j, free) == result
      {
        free := WalkStep(horizontal, dir, n, j, free);
        j := j - 1;
      }
      assert board.Columns() == result;
    }

    /** One step of the push walk at offset `j` with the free square at
        offset `free`: a tile found at `j` moves to `free`, and the square
        before `free` becomes the free one. */
    method WalkStep(horizontal: bool, dir: int, n: nat, j: int, free: int) returns (free': int)
      requires board.Valid() && LineInGrid(board.width, board.height, dragStart, horizontal, dir, n)
      requires 0 <= j < free <= n
      modifies board.grid
      ensures board.Valid()
      ensures board.Columns() == WalkMove(old(board.Columns()), board.width, board.height, dragStart, horizontal, dir, n, j, free)
      ensures var from := Along(dragStart, horizontal, dir, j);
        free' == if old(board.Columns())[from.0][from.1] != Empty then free - 1 else free
      ensures -1 <= j - 1 < free' <= n
      ensures WalkFrom(board.Columns(), board.width, board.height, dragStart, horizontal, dir, n, j - 1, free')
           == WalkFrom(old(board.Columns()), board.width, board.height, dragStart, horizontal, dir, n, j, free)
    {
      free' := free;
      var from := Along(dragStart, horizontal, dir, j);
      if board.grid[from.0, from.1] != Empty {
        var to := Along(dragStart, horizontal, dir, free);
        MoveTile(from, to);
        free' := free - 1;
      }
    }

    /** The release of a drag of `n` squares from the start square: the
        offsets `n` down to 1 are scanned for an empty square; at the first
        one found the tiles in front of it are pushed onto it, one move is
        counted and the solved test runs. With no empty square nothing
        changes. */
    method ReleaseDrag(horizontal: bool, dir: int, n: nat) returns (moved: bool, solved: bool)
      requires board.Valid() && board.width <= board.height
      requires LineInGrid(board.width, board.height, dragStart, horizontal, dir, n)
      modifies board.grid, board`moveCount
      ensures board.Valid()
      ensures Released(old(board.Columns()), board.Columns(), board.width, board.height, dragStart, horizontal, dir, n, moved)
      ensures board.moveCount == old(board.moveCount) + (if moved then 1 else 0)
      ensures solved == (moved && SolvedTorus(board.Columns(), board.tiles, board.width, board.height))
    {
      ghost var before := board.Columns();
      moved, solved := false, false;
      var i := FindFreeSquare(horizontal, dir, n);
      assert board.Columns() == before;
      if i > 0 {
        PushTiles(horizontal, dir, n, i);
        ghost var after := board.Columns();
        solved := board.OnMovePlayed();
        moved := true;
        ReleasedByPush(before, after, board.width, board.height, dragStart, horizontal, dir, n, i);
      } else {
        ReleasedByPush(before, before, board.width, board.height, dragStart, horizontal, dir, n, i);
      }
    }

    /** The scan of a release: offsets `n` down to 1 of the drag line, stopping
        at the first empty square; 0 when every one of them holds a tile. */
    method FindFreeSquare(horizontal: bool, dir: int, n: nat) returns (i: nat)
      requires board.Valid() && LineInGrid(board.width, board.height, dragStart, horizontal, dir, n)
      ensures i == FarthestFree(LineOf(board.Columns(), board.width, board.height, dragStart, horizontal, dir, n), n)
    {
      ghost var line := LineOf(board.Columns(), board.width, board.height, dragStart, horizontal, dir, n);
      i := n;
      while i > 0
        invariant 0 <= i <= n
        invariant forall m :: i < m <= n ==> line[m] != Empty
      {
        var square := Along(dragStart, horizontal, dir, i);
        if board.grid[square.0, square.1] == Empty {
          return;
        }
        i := i - 1;
      }
    }

    /** The release of the pointer over square `end` (`NoSquare` off the
        grid). When a drag is in progress and the pointer is not back on its
        start square, the tiles are pushed along the axis of the movement,
        the row when it has a horizontal part and the column otherwise; a move
        that solves the puzzle disables the controller. The drag is then
        cleared. */
    method OnRelease(end: (int, int)) returns (moved: bool)
      requires Valid() && enabled
      modifies this`dragStart, this`dragMovement, this`enabled, board.grid, board`moveCount
      ensures Valid() && dragStart == NoSquare && dragMovement == (0, 0)
      ensures DragReleased(old(board.Columns()), board.Columns(), board.width, board.height,
                           old(dragStart), old(dragMovement), end, moved)
      ensures board.moveCount == old(board.moveCount) + (if moved then 1 else 0)
      ensures enabled == !(moved && SolvedTorus(board.Columns(), board.tiles, board.width, board.height))
    {
      var solved;
      moved, solved := ReleaseIfDragging(end);
      EndDrag(solved);
    }

    /** The end of a release: a move that solved the puzzle disables the
        controller, and the drag is cleared. The board is left as it is. */
    method EndDrag(solved: bool)
      requires board.Valid() && board.width <= board.height
      modifies this`enabled, this`dragStart, this`dragMovement
      ensures Valid() && dragStart == NoSquare && dragMovement == (0, 0)
      ensures enabled == (old(enabled) && !solved)
      ensures board.Columns() == old(board.Columns()) && board.tiles == old(board.tiles)
    {
      if solved {
        enabled := false;
      }
      dragStart := NoSquare;
      dragMovement := (0, 0);
    }

    /** The part of a release that acts on the board: the push, when a drag
        is in progress, the pointer is not back on its start square and the
        drag has a movement. */
    method ReleaseIfDragging(end: (int, int)) returns (moved: bool, solved: bool)
      requires Valid()
      modifies board.grid, board`moveCount
      ensures board.Valid()
      ensures DragReleased(old(board.Columns()), board.Columns(), board.width, board.height,
                           dragStart, dragMovement, end, moved)
      ensures board.moveCount == old(board.moveCount) + (if moved then 1 else 0)
      ensures solved == (moved && SolvedTorus(board.Columns(), board.tiles, board.width, board.height))
    {
      moved, solved := false, false;
      if dragStart != end && dragStart.0 != -1 {
        if dragMovement.0 != 0 || dragMovement.1 != 0 {
          moved, solved := ReleaseDrag(DragHorizontal(dragMovement), DragDir(dragMovement), DragLength(dragMovement));
        }
      }
    }
  }
}
