/** The push performed when a drag is released, stated on one line of squares.
    Offset 0 of a line is the square where the drag started; offset k is k
    squares further along the drag direction. */
module Compaction {
  import opened Grid

  /** The tiles of a line in their order, with the empty squares dropped. */
  function TilesOf(s: seq<int>): (t: seq<int>)
    ensures |t| <= |s|
    ensures forall k :: 0 <= k < |t| ==> t[k] != Empty
  {
    if s == [] then []
    else TilesOf(s[..|s| - 1]) + (if s[|s| - 1] != Empty then [s[|s| - 1]] else [])
  }

  function Blanks(n: nat): (s: seq<int>)
    ensures |s| == n && forall k :: 0 <= k < n ==> s[k] == Empty
    ensures multiset(s) == multiset{}[Empty := n]
  {
    if n == 0 then [] else Blanks(n - 1) + [Empty]
  }

  /** The line after every tile in front of the free offset `i` has been pushed
      towards it: those tiles, in their order, end right at offset `i`, empty
      squares fill the rest of `0..i`, and the squares past `i` stay as they were. */
  function Compact(line: seq<int>, i: nat): (result: seq<int>)
    requires i < |line|
    ensures |result| == |line|
  {
    var t := TilesOf(line[..i]);
    Blanks(i + 1 - |t|) + t + line[i + 1..]
  }

  /** The largest offset in `1..k` whose square is empty, or 0 if there is none:
      the free square a release scans for, from the drag's end backwards. */
  function FarthestFree(line: seq<int>, k: nat): (i: nat)
    requires k < |line|
    ensures i <= k
    ensures i > 0 ==> line[i] == Empty
    ensures forall m :: i < m <= k && m >= 1 ==> line[m] != Empty
  {
    if k == 0 then 0
    else if line[k] == Empty then k
    else FarthestFree(line, k - 1)
  }

  /** The release loop as a step function: walk offsets `j` down to 0 and move each
      tile found there to the cursor `f`, emptying its old square and stepping the
      cursor back by one. `None` means the cursor had to write below offset 0,
      that is, to a square off the drag line. */
  function Push(line: seq<int>, j: int, f: int): Option<seq<int>>
    requires -1 <= j < |line| && f < |line|
    decreases j + 1
  {
    if j < 0 then Some(line)
    else if line[j] == Empty then Push(line, j - 1, f)
    else if f < 0 then None
    else Push(line[f := line[j]][j := Empty], j - 1, f - 1)
  }

  /** The release loop as the source writes it: the walk always starts one
      offset before the drag's end, whatever free offset `i` was found. With
      the free square at the drag's end or just before it, this is the intended
      push; with the farthest free square any earlier, the walk runs off the line. */
  function PushAsWritten(line: seq<int>, i: nat): (r: Option<seq<int>>)
    requires 1 <= |line| && i < |line|
    ensures 1 <= i && line[i] == Empty && i + 2 >= |line| ==> r == Some(Compact(line, i))
    ensures 1 <= i && i + 2 < |line| && FarthestFree(line, |line| - 1) == i ==> r == None
  {
    if 1 <= i && line[i] == Empty && i + 2 >= |line| then
      AsWrittenAgreesNearEnd(line, i);
      Push(line, |line| - 2, i)
    else if 1 <= i && i + 2 < |line| && FarthestFree(line, |line| - 1) == i then
      AsWrittenLeavesLine(line, i);
      Push(line, |line| - 2, i)
    else
      Push(line, |line| - 2, i)
  }

  lemma SplitAt(s: seq<int>, i: nat)
    requires i < |s|
    ensures s == s[..i] + [s[i]] + s[i + 1..]
  {
  }

  lemma {:induction false} TilesOfAppend(a: seq<int>, b: seq<int>)
    ensures TilesOf(a + b) == TilesOf(a) + TilesOf(b)
    decreases |b|
  {
    if b == [] {
      assert a + b == a;
    } else {
      var n := |b| - 1;
      assert (a + b)[..|a + b| - 1] == a + b[..n];
      TilesOfAppend(a, b[..n]);
    }
  }

  lemma {:induction false} TilesOfBlanks(n: nat)
    ensures TilesOf(Blanks(n)) == []
  {
    if n > 0 {
      TilesOfBlanks(n - 1);
      TilesOfAppend(Blanks(n - 1), [Empty]);
      assert TilesOf([Empty]) == [] by {
        assert [Empty][..0] == [];
      }
    }
  }

  lemma {:induction false} TilesOfTiles(t: seq<int>)
    requires forall k :: 0 <= k < |t| ==> t[k] != Empty
    ensures TilesOf(t) == t
  {
    if t != [] {
      TilesOfTiles(t[..|t| - 1]);
      assert t == t[..|t| - 1] + [t[|t| - 1]];
    }
  }

  /** A line's multiset is its tiles plus as many empty squares as it has gaps. */
  lemma {:induction false} TilesOfBag(s: seq<int>)
    ensures multiset(s) == multiset(TilesOf(s)) + multiset{}[Empty := |s| - |TilesOf(s)|]
  {
    if s == [] {
      assert TilesOf(s) == [];
    } else {
      var n := |s| - 1;
      var p, x := s[..n], s[n];
      var t := TilesOf(p);
      TilesOfBag(p);
      assert s == p + [x];
      if x == Empty {
        assert TilesOf(s) == t;
      } else {
        assert TilesOf(s) == t + [x];
      }
    }
  }

  /** The tiles of a prefix one square longer. */
  lemma TilesOfPrefix(line: seq<int>, j: nat)
    requires j < |line|
    ensures TilesOf(line[..j + 1]) == TilesOf(line[..j]) + (if line[j] != Empty then [line[j]] else [])
  {
    assert line[..j + 1][..j] == line[..j];
  }

  /** One move of the walk, when every square from the walk to the cursor is
      empty: the prefix before the walk is untouched, the cursor's square now
      holds the tile, and the gap shifts down by one. */
  lemma PushMoveShape(line: seq<int>, j: int, f: int)
    requires 0 <= j < f < |line|
    requires forall k :: j < k <= f ==> line[k] == Empty
    ensures var line' := line[f := line[j]][j := Empty];
      line'[..j] == line[..j] && line'[f..] == [line[j]] + line[f + 1..] &&
      forall k :: j - 1 < k <= f - 1 ==> line'[k] == Empty
  {
    var line' := line[f := line[j]][j := Empty];
    assert line'[..j] == line[..j];
    assert line'[f..] == [line[j]] + line[f + 1..];
  }

  lemma {:induction false} PushPacksMove(line: seq<int>, j: int, f: int, line': seq<int>, t: seq<int>)
    requires 0 <= j < f < |line| && line[j] != Empty
    requires line' == line[f := line[j]][j := Empty]
    requires line'[..j] == line[..j] && line'[f..] == [line[j]] + line[f + 1..]
    requires t == TilesOf(line[..j]) && |t| <= j
    requires TilesOf(line[..j + 1]) == t + [line[j]]
    requires Push(line', j - 1, f - 1) == Some(Blanks(f - 1 + 1 - |TilesOf(line'[..j - 1 + 1])|) +
                                               TilesOf(line'[..j - 1 + 1]) + line'[f - 1 + 1..])
    ensures Push(line, j, f) ==
      Some(Blanks(f + 1 - |TilesOf(line[..j + 1])|) + TilesOf(line[..j + 1]) + line[f + 1..])
  {
    assert line'[..j - 1 + 1] == line[..j];
    assert line'[f - 1 + 1..] == line'[f..];
    var u := TilesOf(line[..j + 1]);
    assert f + 1 - |u| == f - |t|;
    assert Push(line, j, f) == Push(line', j - 1, f - 1);
    assert Blanks(f - |t|) + t + line'[f..] == Blanks(f - |t|) + u + line[f + 1..];
  }

  /** The closed form of the step function, when the cursor starts on an empty
      square and every square between the walk and the cursor is empty. */
  lemma {:induction false} PushPacks(line: seq<int>, j: int, f: int)
    requires -1 <= j < f < |line|
    requires forall k :: j < k <= f ==> line[k] == Empty
    ensures |TilesOf(line[..j + 1])| <= j + 1
    ensures Push(line, j, f) ==
      Some(Blanks(f + 1 - |TilesOf(line[..j + 1])|) + TilesOf(line[..j + 1]) + line[f + 1..])
    decreases j + 1, 1
  {
    if j < 0 {
      PushPacksDone(line, f);
    } else if line[j] == Empty {
      PushPacksSkip(line, j, f);
    } else {
      PushPacksTile(line, j, f);
    }
  }

  /** The walk has passed offset 0: the line is empty up to the cursor. */
  lemma PushPacksDone(line: seq<int>, f: int)
    requires -1 < f < |line|
    requires forall k :: -1 < k <= f ==> line[k] == Empty
    ensures Push(line, -1, f) == Some(Blanks(f + 1 - |TilesOf(line[..0])|) + TilesOf(line[..0]) + line[f + 1..])
  {
    assert line[..0] == [];
    assert TilesOf(line[..0]) == [];
    assert line == Blanks(f + 1) + [] + line[f + 1..];
  }

  /** The walk passes over an empty square. */
  lemma {:induction false} PushPacksSkip(line: seq<int>, j: int, f: int)
    requires 0 <= j < f < |line| && line[j] == Empty
    requires forall k :: j < k <= f ==> line[k] == Empty
    ensures |TilesOf(line[..j + 1])| <= j + 1
    ensures Push(line, j, f) ==
      Some(Blanks(f + 1 - |TilesOf(line[..j + 1])|) + TilesOf(line[..j + 1]) + line[f + 1..])
    decreases j + 1, 0
  {
    PushPacks(line, j - 1, f);
    TilesOfPrefix(line, j);
    assert Push(line, j, f) == Push(line, j - 1, f);
    assert line[..j - 1 + 1] == line[..j];
    assert TilesOf(line[..j + 1]) == TilesOf(line[..j]) + [];
    assert TilesOf(line[..j]) + [] == TilesOf(line[..j]);
  }

  /** The walk moves the tile at offset `j` to the cursor. */
  lemma {:induction false} PushPacksTile(line: seq<int>, j: int, f: int)
    requires 0 <= j < f < |line| && line[j] != Empty
    requires forall k :: j < k <= f ==> line[k] == Empty
    ensures |TilesOf(line[..j + 1])| <= j + 1
    ensures Push(line, j, f) ==
      Some(Blanks(f + 1 - |TilesOf(line[..j + 1])|) + TilesOf(line[..j + 1]) + line[f + 1..])
    decreases j + 1, 0
  {
    var line' := line[f := line[j]][j := Empty];
    PushMoveShape(line, j, f);
    PushPacks(line', j - 1, f - 1);
    var t := TilesOf(line[..j]);
    TilesOfPrefix(line, j);
    PushPacksMove(line, j, f, line', t);
  }

  /** The release loop that starts one offset before the free square computes `Compact`. */
  lemma PushIsCompact(line: seq<int>, i: nat)
    requires 1 <= i < |line| && line[i] == Empty
    ensures Push(line, i - 1, i) == Some(Compact(line, i))
  {
    PushPacks(line, i - 1, i);
  }

  /** When the free square is the drag's end or the square just before it, the
      source's loop start coincides with the intended one. */
  lemma AsWrittenAgreesNearEnd(line: seq<int>, i: nat)
    requires 1 <= i < |line| && line[i] == Empty && i >= |line| - 2
    ensures Push(line, |line| - 2, i) == Some(Compact(line, i))
  {
    PushIsCompact(line, i);
  }

  /** Once a tile lies strictly between the cursor and the walk, the walk meets it,
      or the tile it was moved to, again and again until the cursor leaves the line. */
  lemma {:induction false} PushLeavesLine(line: seq<int>, j: int, f: int, q: int)
    requires -1 <= j < |line| && f < |line|
    requires 0 <= q && f < q <= j && line[q] != Empty
    ensures Push(line, j, f) == None
    decreases j + 1
  {
    if line[j] == Empty {
      PushLeavesLine(line, j - 1, f, q);
    } else if f >= 0 {
      var line' := line[f := line[j]][j := Empty];
      PushLeavesLine(line', j - 1, f - 1, f);
    }
  }

  /** When the free square lies two or more offsets before the drag's end, the
      source's loop pulls the tiles behind it backwards and its cursor always
      runs off the drag line. */
  lemma AsWrittenLeavesLine(line: seq<int>, i: nat)
    requires 1 <= i && i + 2 < |line|
    requires FarthestFree(line, |line| - 1) == i
    ensures Push(line, |line| - 2, i) == None
  {
    PushLeavesLine(line, |line| - 2, i, |line| - 2);
  }

  /** The smallest such case: tiles 7, 8, 9 with a gap after the first, dragged
      three squares. The source's loop moves tile 8 onto the gap and then onto
      tile 7, overwriting it, so that tile 7 is gone from the line; the next
      write would land off the line. The intended push just moves tile 7 on. */
  lemma AsWrittenLosesTile()
    ensures FarthestFree([7, Empty, 8, 9], 3) == 1
    ensures PushAsWritten([7, Empty, 8, 9], 1) == Push([8, Empty, Empty, 9], 0, -1)
    ensures PushAsWritten([7, Empty, 8, 9], 1) == None
    ensures Compact([7, Empty, 8, 9], 1) == [Empty, 7, 8, 9]
  {
    var line := [7, Empty, 8, 9];
    assert FarthestFree(line, 1) == 1;
    assert FarthestFree(line, 2) == 1;
    var l1 := line[1 := 8][2 := Empty];
    assert l1 == [7, 8, Empty, 9];
    var l2 := l1[0 := 8][1 := Empty];
    assert Push(line, 2, 1) == Push(l1, 1, 0) == Push(l2, 0, -1);
    assert TilesOf([7]) == [7];
  }

  /** Pushing neither creates nor destroys tiles: the line's multiset is unchanged. */
  lemma CompactKeepsBag(line: seq<int>, i: nat)
    requires i < |line| && line[i] == Empty
    ensures multiset(Compact(line, i)) == multiset(line)
  {
    var t := TilesOf(line[..i]);
    var rest := line[i + 1..];
    var gaps := multiset{}[Empty := i - |t|];
    var blanks := Blanks(i + 1 - |t|);
    TilesOfBag(line[..i]);
    SplitAt(line, i);
    assert multiset(line) == multiset(line[..i]) + multiset{Empty} + multiset(rest);
    assert Compact(line, i) == blanks + t + rest;
    assert multiset(Compact(line, i)) == multiset(blanks) + multiset(t) + multiset(rest);
    assert multiset(blanks) == gaps + multiset{Empty};
  }

  /** Pushing keeps the order of the tiles along the line. */
  lemma TilesAroundGap(line: seq<int>, i: nat)
    requires i < |line| && line[i] == Empty
    ensures TilesOf(line) == TilesOf(line[..i]) + TilesOf(line[i + 1..])
  {
    var front, gap, rest := line[..i], [line[i]], line[i + 1..];
    SplitAt(line, i);
    TilesOfAppend(front + gap, rest);
    TilesOfAppend(front, gap);
    assert gap[..0] == [];
    assert TilesOf(gap) == [];
    assert TilesOf(front + gap) == TilesOf(front);
  }

  lemma TilesOfCompact(line: seq<int>, i: nat)
    requires i < |line|
    ensures TilesOf(Compact(line, i)) == TilesOf(line[..i]) + TilesOf(line[i + 1..])
  {
    var t := TilesOf(line[..i]);
    var blanks := Blanks(i + 1 - |t|);
    assert Compact(line, i) == (blanks + t) + line[i + 1..];
    TilesOfAppend(blanks + t, line[i + 1..]);
    TilesOfAppend(blanks, t);
    TilesOfBlanks(i + 1 - |t|);
    TilesOfTiles(t);
    assert TilesOf(blanks + t) == t;
  }

  lemma CompactKeepsOrder(line: seq<int>, i: nat)
    requires i < |line| && line[i] == Empty
    ensures TilesOf(Compact(line, i)) == TilesOf(line)
  {
    TilesAroundGap(line, i);
    TilesOfCompact(line, i);
  }

  /** After a push the drag's start square is empty, the tiles that were in front
      of the free square now sit contiguously up to it, and nothing past it moved. */
  lemma CompactPacks(line: seq<int>, i: nat)
    requires 1 <= i < |line| && line[i] == Empty
    ensures Compact(line, i)[0] == Empty
    ensures Compact(line, i)[i + 1..] == line[i + 1..]
    ensures var n := |TilesOf(line[..i])|;
      (forall k :: 0 <= k <= i - n ==> Compact(line, i)[k] == Empty) &&
      (forall k :: i - n < k <= i ==> Compact(line, i)[k] != Empty)
  {
  }
}
