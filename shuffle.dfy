/** The shuffle of the interior squares, stated on the column-by-column view of
    a board. The random square chosen for interior square (c, r) is `pick(c, r)`. */
module Shuffle {
  import opened Grid

  /** Every random choice names an interior square. */
  ghost predicate PicksInInterior(pick: (int, int) -> (int, int), w: int, h: int)
  {
    forall c, r :: InInterior(w, h, c, r) ==> InInterior(w, h, pick(c, r).0, pick(c, r).1)
  }

  /** One step of the shuffle: exchange square (c, r) with its random partner,
      unless the partner is the square itself. */
  function SwapStep(cols: seq<seq<int>>, w: int, h: int, c: int, r: int, p: (int, int)): seq<seq<int>>
    requires IsGrid(cols, w, h) && InInterior(w, h, c, r) && InInterior(w, h, p.0, p.1)
  {
    if p == (c, r) then cols else Swap(cols, (c, r), p)
  }

  lemma SwapStepKeepsBag(cols: seq<seq<int>>, w: int, h: int, c: int, r: int, p: (int, int))
    requires IsGrid(cols, w, h) && InInterior(w, h, c, r) && InInterior(w, h, p.0, p.1)
    ensures Bag(SwapStep(cols, w, h, c, r, p)) == Bag(cols)
  {
    if p != (c, r) {
      SwapKeepsBag(cols, (c, r), p);
    }
  }

  /** The board after the shuffle steps for interior squares (c, r) onwards,
      visiting columns in order and the rows of each column in order. */
  ghost function ShuffleFrom(cols: seq<seq<int>>, pick: (int, int) -> (int, int),
                             w: int, h: int, c: int, r: int): (result: seq<seq<int>>)
    requires IsGrid(cols, w, h) && PicksInInterior(pick, w, h)
    requires 1 <= c && 1 <= r
    ensures IsGrid(result, w, h)
    decreases w - c, h - r
  {
    if c >= w - 1 then cols
    else if r >= h - 1 then ShuffleFrom(cols, pick, w, h, c + 1, 1)
    else
      var p := pick(c, r);
      assert InInterior(w, h, p.0, p.1);
      ShuffleFrom(SwapStep(cols, w, h, c, r, p), pick, w, h, c, r + 1)
  }

  /** The whole shuffle, starting from interior square (1, 1). */
  ghost function Shuffled(cols: seq<seq<int>>, pick: (int, int) -> (int, int), w: int, h: int): seq<seq<int>>
    requires IsGrid(cols, w, h) && PicksInInterior(pick, w, h)
  {
    ShuffleFrom(cols, pick, w, h, 1, 1)
  }

  /** The shuffle only exchanges squares, so the multiset of tiles is unchanged. */
  lemma {:induction false} ShuffleKeepsBag(cols: seq<seq<int>>, pick: (int, int) -> (int, int),
                                           w: int, h: int, c: int, r: int)
    requires IsGrid(cols, w, h) && PicksInInterior(pick, w, h)
    requires 1 <= c && 1 <= r
    ensures Bag(ShuffleFrom(cols, pick, w, h, c, r)) == Bag(cols)
    decreases w - c, h - r, 1
  {
    if c >= w - 1 {
      assert ShuffleFrom(cols, pick, w, h, c, r) == cols;
    } else if r >= h - 1 {
      assert ShuffleFrom(cols, pick, w, h, c, r) == ShuffleFrom(cols, pick, w, h, c + 1, 1);
      ShuffleKeepsBag(cols, pick, w, h, c + 1, 1);
    } else {
      SwapThenShuffleKeepsBag(cols, pick, w, h, c, r);
    }
  }

  /** The shuffle from an interior square (c, r): its swap, then the rest. */
  lemma {:induction false} SwapThenShuffleKeepsBag(cols: seq<seq<int>>, pick: (int, int) -> (int, int),
                                                   w: int, h: int, c: int, r: int)
    requires IsGrid(cols, w, h) && PicksInInterior(pick, w, h)
    requires 1 <= c < w - 1 && 1 <= r < h - 1
    ensures Bag(ShuffleFrom(cols, pick, w, h, c, r)) == Bag(cols)
    decreases w - c, h - r, 0
  {
    var p := pick(c, r);
    assert InInterior(w, h, p.0, p.1);
    var next := SwapStep(cols, w, h, c, r, p);
    var result := ShuffleFrom(next, pick, w, h, c, r + 1);
    assert ShuffleFrom(cols, pick, w, h, c, r) == result;
    SwapStepKeepsBag(cols, w, h, c, r, p);
    ShuffleKeepsBag(next, pick, w, h, c, r + 1);
  }

  /** The shuffle never touches a border square. */
  lemma {:induction false} ShuffleKeepsBorder(cols: seq<seq<int>>, pick: (int, int) -> (int, int),
                                              w: int, h: int, c: int, r: int)
    requires IsGrid(cols, w, h) && PicksInInterior(pick, w, h)
    requires 1 <= c && 1 <= r
    ensures forall x, y :: 0 <= x < w && 0 <= y < h && !InInterior(w, h, x, y) ==>
      ShuffleFrom(cols, pick, w, h, c, r)[x][y] == cols[x][y]
    decreases w - c, h - r
  {
    if c >= w - 1 {
    } else if r >= h - 1 {
      ShuffleKeepsBorder(cols, pick, w, h, c + 1, 1);
    } else {
      var p := pick(c, r);
      assert InInterior(w, h, p.0, p.1);
      ShuffleKeepsBorder(SwapStep(cols, w, h, c, r, p), pick, w, h, c, r + 1);
    }
  }

  /** A fully occupied interior stays fully occupied: the shuffle only exchanges
      interior squares with each other. */
  lemma {:induction false} ShuffleKeepsInteriorFilled(cols: seq<seq<int>>, pick: (int, int) -> (int, int),
                                                      w: int, h: int, c: int, r: int)
    requires IsGrid(cols, w, h) && PicksInInterior(pick, w, h)
    requires 1 <= c && 1 <= r
    requires forall x, y :: InInterior(w, h, x, y) ==> cols[x][y] != Empty
    ensures forall x, y :: InInterior(w, h, x, y) ==> ShuffleFrom(cols, pick, w, h, c, r)[x][y] != Empty
    decreases w - c, h - r
  {
    if c >= w - 1 {
    } else if r >= h - 1 {
      ShuffleKeepsInteriorFilled(cols, pick, w, h, c + 1, 1);
    } else {
      var p := pick(c, r);
      assert InInterior(w, h, p.0, p.1);
      ShuffleKeepsInteriorFilled(SwapStep(cols, w, h, c, r, p), pick, w, h, c, r + 1);
    }
  }

  /** Every square still holds `Empty` or one of the `count` tiles: the shuffle
      only moves square values around. */
  lemma {:induction false} ShuffleKeepsWellFormed(cols: seq<seq<int>>, pick: (int, int) -> (int, int),
                                                  w: int, h: int, c: int, r: int, count: int)
    requires IsGrid(cols, w, h) && PicksInInterior(pick, w, h)
    requires 1 <= c && 1 <= r
    requires WellFormed(cols, w, h, count)
    ensures WellFormed(ShuffleFrom(cols, pick, w, h, c, r), w, h, count)
    decreases w - c, h - r
  {
    if c >= w - 1 {
    } else if r >= h - 1 {
      ShuffleKeepsWellFormed(cols, pick, w, h, c + 1, 1, count);
    } else {
      var p := pick(c, r);
      assert InInterior(w, h, p.0, p.1);
      ShuffleKeepsWellFormed(SwapStep(cols, w, h, c, r, p), pick, w, h, c, r + 1, count);
    }
  }
}
