/** The debugging dump of a board: one text line per row, one two-character
    token per square, 'X' for an empty square and 'O' for an occupied one. */
module Dump {
  import opened Grid

  function Token(v: int): (s: string)
    ensures |s| == 2 && s[1] == ' '
    ensures s[0] == Mark(v)
  {
    if v == Empty then "X " else "O "
  }

  /** The tokens of row `r` for columns `0..k-1`. */
  function RowText(cols: seq<seq<int>>, w: int, h: int, r: int, k: int): (t: seq<char>)
    requires IsGrid(cols, w, h) && 0 <= r < h && 0 <= k <= w
    ensures |t| == 2 * k
  {
    if k == 0 then [] else RowText(cols, w, h, r, k - 1) + Token(cols[k - 1][r])
  }

  /** The line of row `r`: a token per square, then a newline. */
  function RowLine(cols: seq<seq<int>>, w: int, h: int, r: int): (line: seq<char>)
    requires IsGrid(cols, w, h) && 0 <= r < h && 0 <= w
    ensures |line| == 2 * w + 1
  {
    RowText(cols, w, h, r, w) + "\n"
  }

  /** Rows `0..n-1`, each ended by a newline. */
  function DumpRows(cols: seq<seq<int>>, w: int, h: int, n: int): (d: seq<char>)
    requires IsGrid(cols, w, h) && 0 <= n <= h && 0 <= w
    ensures |d| == RowStart(w, n)
  {
    if n == 0 then [] else DumpRows(cols, w, h, n - 1) + RowLine(cols, w, h, n - 1)
  }

  /** The whole dump. */
  function DumpText(cols: seq<seq<int>>, w: int, h: int): seq<char>
    requires IsGrid(cols, w, h) && 0 <= h && 0 <= w
  {
    DumpRows(cols, w, h, h)
  }

  /** Token `c` of a row sits at offset `2c`. */
  lemma {:induction false} RowTextAt(cols: seq<seq<int>>, w: int, h: int, r: int, k: int)
    requires IsGrid(cols, w, h) && 0 <= r < h && 0 <= k <= w
    ensures forall c :: 0 <= c < k ==>
      RowText(cols, w, h, r, k)[2 * c] == Mark(cols[c][r]) &&
      RowText(cols, w, h, r, k)[2 * c + 1] == ' '
  {
    if k > 0 {
      RowTextAt(cols, w, h, r, k - 1);
    }
  }

  /** Where row `r` starts in the dump of a board `w` squares wide: every
      earlier row takes `2w + 1` characters. */
  function RowStart(w: nat, r: nat): nat
  {
    if r == 0 then 0 else RowStart(w, r - 1) + 2 * w + 1
  }

  lemma {:induction false} RowStartIsProduct(w: nat, r: nat)
    ensures RowStart(w, r) == r * (2 * w + 1)
  {
    if r > 0 {
      RowStartIsProduct(w, r - 1);
    }
  }

  /** Text `s` has character `ch` at position `i`. */
  predicate CharAt(s: seq<char>, i: int, ch: char)
  {
    0 <= i < |s| && s[i] == ch
  }

  lemma CharAtAppend(s: seq<char>, t: seq<char>, i: int, ch: char)
    requires CharAt(s, i, ch)
    ensures CharAt(s + t, i, ch)
  {
  }

  lemma CharAtSuffix(s: seq<char>, t: seq<char>, k: int)
    requires 0 <= k < |t|
    ensures CharAt(s + t, |s| + k, t[k])
  {
  }

  /** The character that stands for a square in the dump. */
  function Mark(v: int): char
  {
    if v == Empty then 'X' else 'O'
  }

  /** The line of a row: the mark of square `c` at offset `2c`, a space after
      it, and the newline at offset `2w`. */
  lemma RowLineAt(cols: seq<seq<int>>, w: nat, h: nat, r: nat)
    requires IsGrid(cols, w, h) && r < h
    ensures forall c :: 0 <= c < w ==>
      RowLine(cols, w, h, r)[2 * c] == Mark(cols[c][r]) && RowLine(cols, w, h, r)[2 * c + 1] == ' '
    ensures RowLine(cols, w, h, r)[2 * w] == '\n'
  {
    RowTextAt(cols, w, h, r, w);
  }

  /** A character of the dump of `n` rows that lies in the last row. */
  lemma DumpLastRow(cols: seq<seq<int>>, w: nat, h: nat, n: nat, k: nat)
    requires IsGrid(cols, w, h) && 1 <= n <= h && k < |RowLine(cols, w, h, n - 1)|
    ensures CharAt(DumpRows(cols, w, h, n), RowStart(w, n - 1) + k, RowLine(cols, w, h, n - 1)[k])
  {
  }

  /** A character of the dump of `n - 1` rows is still there after row `n - 1`. */
  lemma DumpEarlierRow(cols: seq<seq<int>>, w: nat, h: nat, n: nat, i: int, ch: char)
    requires IsGrid(cols, w, h) && 1 <= n <= h
    requires CharAt(DumpRows(cols, w, h, n - 1), i, ch)
    ensures CharAt(DumpRows(cols, w, h, n), i, ch)
  {
    CharAtAppend(DumpRows(cols, w, h, n - 1), RowLine(cols, w, h, n - 1), i, ch);
  }

  lemma {:induction false} DumpSquare(cols: seq<seq<int>>, w: nat, h: nat, n: nat, r: nat, c: nat)
    requires IsGrid(cols, w, h) && n <= h && r < n && c < w
    ensures CharAt(DumpRows(cols, w, h, n), RowStart(w, r) + 2 * c, Mark(cols[c][r]))
    ensures CharAt(DumpRows(cols, w, h, n), RowStart(w, r) + 2 * c + 1, ' ')
    decreases n, 1
  {
    if r < n - 1 {
      DumpSquareEarlier(cols, w, h, n, r, c);
    } else {
      DumpSquareLast(cols, w, h, n, c);
    }
  }

  /** A square of the last row dumped. */
  lemma DumpSquareLast(cols: seq<seq<int>>, w: nat, h: nat, n: nat, c: nat)
    requires IsGrid(cols, w, h) && 1 <= n <= h && c < w
    ensures CharAt(DumpRows(cols, w, h, n), RowStart(w, n - 1) + 2 * c, Mark(cols[c][n - 1]))
    ensures CharAt(DumpRows(cols, w, h, n), RowStart(w, n - 1) + 2 * c + 1, ' ')
  {
    RowLineAt(cols, w, h, n - 1);
    DumpLastRow(cols, w, h, n, 2 * c);
    DumpLastRow(cols, w, h, n, 2 * c + 1);
  }

  /** A square of a row before the last one dumped. */
  lemma {:induction false} DumpSquareEarlier(cols: seq<seq<int>>, w: nat, h: nat, n: nat, r: nat, c: nat)
    requires IsGrid(cols, w, h) && n <= h && r < n - 1 && c < w
    ensures CharAt(DumpRows(cols, w, h, n), RowStart(w, r) + 2 * c, Mark(cols[c][r]))
    ensures CharAt(DumpRows(cols, w, h, n), RowStart(w, r) + 2 * c + 1, ' ')
    decreases n, 0
  {
    DumpSquare(cols, w, h, n - 1, r, c);
    DumpEarlierRow(cols, w, h, n, RowStart(w, r) + 2 * c, Mark(cols[c][r]));
    DumpEarlierRow(cols, w, h, n, RowStart(w, r) + 2 * c + 1, ' ');
  }

  lemma {:induction false} DumpNewline(cols: seq<seq<int>>, w: nat, h: nat, n: nat, r: nat)
    requires IsGrid(cols, w, h) && n <= h && r < n
    ensures CharAt(DumpRows(cols, w, h, n), RowStart(w, r) + 2 * w, '\n')
  {
    if r < n - 1 {
      DumpNewline(cols, w, h, n - 1, r);
      DumpEarlierRow(cols, w, h, n, RowStart(w, r) + 2 * w, '\n');
    } else {
      RowLineAt(cols, w, h, r);
      DumpLastRow(cols, w, h, n, 2 * w);
    }
  }

  /** In `text`, the line of each row `r` starts at `RowStart(w, r)` and holds
      each square's mark followed by a space. */
  ghost predicate MarksAt(text: seq<char>, cols: seq<seq<int>>, w: nat, h: nat)
    requires IsGrid(cols, w, h)
  {
    forall r: nat, c: nat :: r < h && c < w ==>
      CharAt(text, RowStart(w, r) + 2 * c, Mark(cols[c][r])) &&
      CharAt(text, RowStart(w, r) + 2 * c + 1, ' ')
  }

  /** In `text`, the line of each row `r` ends with a newline at offset `2w`. */
  ghost predicate NewlinesAt(text: seq<char>, w: nat, h: nat)
  {
    forall r: nat :: r < h ==> CharAt(text, RowStart(w, r) + 2 * w, '\n')
  }

  lemma DumpMarks(cols: seq<seq<int>>, w: nat, h: nat)
    requires IsGrid(cols, w, h)
    ensures MarksAt(DumpText(cols, w, h), cols, w, h)
  {
    forall r: nat, c: nat | r < h && c < w
      ensures CharAt(DumpText(cols, w, h), RowStart(w, r) + 2 * c, Mark(cols[c][r]))
      ensures CharAt(DumpText(cols, w, h), RowStart(w, r) + 2 * c + 1, ' ')
    {
      DumpSquare(cols, w, h, h, r, c);
    }
  }

  lemma DumpNewlines(cols: seq<seq<int>>, w: nat, h: nat)
    requires IsGrid(cols, w, h)
    ensures NewlinesAt(DumpText(cols, w, h), w, h)
  {
    forall r: nat | r < h
      ensures CharAt(DumpText(cols, w, h), RowStart(w, r) + 2 * w, '\n')
    {
      DumpNewline(cols, w, h, h, r);
    }
  }

  /** The dump has one line of `2w + 1` characters per row: for each square of
      the row, left to right, its mark and a space, then a newline. */
  lemma DumpLayout(cols: seq<seq<int>>, w: nat, h: nat)
    requires IsGrid(cols, w, h)
    ensures |DumpText(cols, w, h)| == h * (2 * w + 1)
    ensures MarksAt(DumpText(cols, w, h), cols, w, h)
    ensures NewlinesAt(DumpText(cols, w, h), w, h)
  {
    RowStartIsProduct(w, h);
    DumpMarks(cols, w, h);
    DumpNewlines(cols, w, h);
  }
}
