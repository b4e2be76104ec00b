/** Values shared by the whole tile-grid engine: tiles, squares, and the
    column-by-column view of a board that the specifications work on. */
module Grid {

  /** The four edge patterns of a puzzle tile. */
  datatype Tile = Tile(top: int, bottom: int, left: int, right: int)

  datatype Option<T> = None | Some(value: T)

  /** A square that holds no tile; every other square value is a tile id. */
  const Empty: int := -1

  /** `cols` is a `w` by `h` board, read as `cols[column][row]`. */
  predicate IsGrid(cols: seq<seq<int>>, w: int, h: int)
  {
    |cols| == w && forall c :: 0 <= c < w ==> |cols[c]| == h
  }

  predicate InGrid(w: int, h: int, c: int, r: int)
  {
    0 <= c < w && 0 <= r < h
  }

  /** The squares that hold the puzzle: everything but the one-square border. */
  predicate InInterior(w: int, h: int, c: int, r: int)
  {
    1 <= c <= w - 2 && 1 <= r <= h - 2
  }

  /** The tile on square (c, r), or a blank tile when it holds no valid id. */
  function TileOn(cols: seq<seq<int>>, tiles: seq<Tile>, c: int, r: int): Tile
  {
    if 0 <= c < |cols| && 0 <= r < |cols[c]| && 0 <= cols[c][r] < |tiles| then tiles[cols[c][r]]
    else Tile(0, 0, 0, 0)
  }

  /** Every square is empty or names one of `count` tiles. */
  predicate WellFormed(cols: seq<seq<int>>, w: int, h: int, count: int)
    requires IsGrid(cols, w, h)
  {
    forall c, r :: 0 <= c < w && 0 <= r < h ==> cols[c][r] == Empty || 0 <= cols[c][r] < count
  }

  /** The multiset of all square values of a board, empty squares included. */
  function Bag(cols: seq<seq<int>>): multiset<int>
  {
    if cols == [] then multiset{} else Bag(cols[..|cols| - 1]) + multiset(cols[|cols| - 1])
  }

  /** The board with square (c, r) set to `v`. */
  function Put(cols: seq<seq<int>>, c: int, r: int, v: int): (result: seq<seq<int>>)
    requires 0 <= c < |cols| && 0 <= r < |cols[c]|
    ensures |result| == |cols|
    ensures forall c', r' :: 0 <= c' < |cols| && 0 <= r' < |cols[c']| ==>
      |result[c']| == |cols[c']| && result[c'][r'] == if c' == c && r' == r then v else cols[c'][r']
  {
    cols[c := cols[c][r := v]]
  }

  /** Writing one element of a sequence takes its old value out of the multiset and puts `v` in. */
  lemma SeqBagUpdate(s: seq<int>, r: int, v: int)
    requires 0 <= r < |s|
    ensures multiset(s[r := v]) == multiset(s) - multiset{s[r]} + multiset{v}
  {
    assert s == s[..r] + [s[r]] + s[r + 1..];
    assert s[r := v] == s[..r] + [v] + s[r + 1..];
  }

  /** Replacing one occurrence of `x` by `v` commutes with adding more elements. */
  lemma ReplaceInSum(a: multiset<int>, m: multiset<int>, x: int, v: int)
    requires x in a
    ensures (a - multiset{x} + multiset{v}) + m == (a + m) - multiset{x} + multiset{v}
  {
    assert forall e :: ((a - multiset{x} + multiset{v}) + m)[e] == ((a + m) - multiset{x} + multiset{v})[e];
  }

  /** Putting `y` in place of `x` and then `x` back in place of `y` restores the multiset. */
  lemma ReplaceUndone(a: multiset<int>, x: int, y: int)
    requires x in a
    ensures a - multiset{x} + multiset{y} - multiset{y} + multiset{x} == a
  {
    assert forall e :: (a - multiset{x} + multiset{y} - multiset{y} + multiset{x})[e] == a[e];
  }

  /** Writing one square takes its old value out of the board's multiset and puts `v` in. */
  lemma {:induction false} BagPut(cols: seq<seq<int>>, c: int, r: int, v: int)
    requires 0 <= c < |cols| && 0 <= r < |cols[c]|
    ensures cols[c][r] in Bag(cols)
    ensures Bag(Put(cols, c, r, v)) == Bag(cols) - multiset{cols[c][r]} + multiset{v}
  {
    var n := |cols| - 1;
    var cols' := cols[c := cols[c][r := v]];
    var x := cols[c][r];
    assert Bag(cols) == Bag(cols[..n]) + multiset(cols[n]);
    assert Bag(cols') == Bag(cols'[..n]) + multiset(cols'[n]);
    if c == n {
      assert cols'[..n] == cols[..n];
      SeqBagUpdate(cols[n], r, v);
      assert x in multiset(cols[n]);
      ReplaceInSum(multiset(cols[n]), Bag(cols[..n]), x, v);
    } else {
      assert cols'[..n] == cols[..n][c := cols[..n][c][r := v]];
      assert cols'[n] == cols[n];
      BagPut(cols[..n], c, r, v);
      ReplaceInSum(Bag(cols[..n]), multiset(cols[n]), x, v);
    }
  }

  /** The board with squares `a` and `b` exchanged. */
  function Swap(cols: seq<seq<int>>, a: (int, int), b: (int, int)): seq<seq<int>>
    requires 0 <= a.0 < |cols| && 0 <= a.1 < |cols[a.0]|
    requires 0 <= b.0 < |cols| && 0 <= b.1 < |cols[b.0]|
  {
    Put(Put(cols, a.0, a.1, cols[b.0][b.1]), b.0, b.1, cols[a.0][a.1])
  }

  /** Exchanging two squares leaves the multiset of the board unchanged. */
  lemma SwapKeepsBag(cols: seq<seq<int>>, a: (int, int), b: (int, int))
    requires 0 <= a.0 < |cols| && 0 <= a.1 < |cols[a.0]|
    requires 0 <= b.0 < |cols| && 0 <= b.1 < |cols[b.0]|
    ensures Bag(Swap(cols, a, b)) == Bag(cols)
  {
    var x, y := cols[a.0][a.1], cols[b.0][b.1];
    var mid := Put(cols, a.0, a.1, y);
    BagPut(cols, a.0, a.1, y);
    assert mid[b.0][b.1] == y;
    BagPut(mid, b.0, b.1, x);
    assert Swap(cols, a, b) == Put(mid, b.0, b.1, x);
    ReplaceUndone(Bag(cols), x, y);
  }

  /** Moving a tile onto an empty square and emptying its old square keeps the multiset. */
  lemma MoveKeepsBag(cols: seq<seq<int>>, from: (int, int), to: (int, int))
    requires 0 <= from.0 < |cols| && 0 <= from.1 < |cols[from.0]|
    requires 0 <= to.0 < |cols| && 0 <= to.1 < |cols[to.0]|
    requires from != to && cols[to.0][to.1] == Empty
    ensures Bag(Put(Put(cols, to.0, to.1, cols[from.0][from.1]), from.0, from.1, Empty)) == Bag(cols)
  {
    var x := cols[from.0][from.1];
    var mid := Put(cols, to.0, to.1, x);
    BagPut(cols, to.0, to.1, x);
    assert mid[from.0][from.1] == x;
    BagPut(mid, from.0, from.1, Empty);
    ReplaceUndone(Bag(cols), Empty, x);
  }

  /** Two boards of the same shape with the same squares are equal. */
  lemma GridExt(a: seq<seq<int>>, b: seq<seq<int>>, w: int, h: int)
    requires IsGrid(a, w, h) && IsGrid(b, w, h)
    requires forall c, r :: 0 <= c < w && 0 <= r < h ==> a[c][r] == b[c][r]
    ensures a == b
  {
    forall c | 0 <= c < w
      ensures a[c] == b[c]
    {
      assert forall r :: 0 <= r < h ==> a[c][r] == b[c][r];
    }
  }
}
