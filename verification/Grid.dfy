/** Character cells, grids of cells, and the two moves inside a window of a sequence
    that every scrolling, line and character operation of the terminal reduces to. */
module Grids {
  import opened Basics

  datatype Cell = Cell(character: char16, attribute: nat)

  type Grid = seq<seq<Cell>>

  function Blank(attribute: nat): Cell {
    Cell(0x20, attribute)
  }

  ghost predicate Sized(g: Grid, rows: nat, columns: nat) {
    |g| == rows && forall r | 0 <= r < rows :: |g[r]| == columns
  }

  ghost predicate RenderableLine(line: seq<Cell>, columns: nat) {
    |line| == columns && forall c | 0 <= c < columns :: line[c].character != 0
  }

  /** A grid the terminal can render: right size, and no cell holds the string terminator. */
  ghost predicate Renderable(g: Grid, rows: nat, columns: nat) {
    |g| == rows && forall r | 0 <= r < rows :: RenderableLine(g[r], columns)
  }

  function BlankRow(columns: nat, attribute: nat): (row: seq<Cell>)
    ensures |row| == columns && forall c | 0 <= c < columns :: row[c] == Blank(attribute)
  {
    seq(columns, _ => Blank(attribute))
  }

  function BlankGrid(rows: nat, columns: nat, attribute: nat): (g: Grid)
    ensures Renderable(g, rows, columns)
    ensures forall r, c | 0 <= r < rows && 0 <= c < columns :: g[r][c] == Blank(attribute)
  {
    seq(rows, _ => BlankRow(columns, attribute))
  }

  /** Blanks columns start..stop of rows first..limit; both ranges exclude their end. */
  function Filled(g: Grid, first: nat, limit: nat, start: nat, stop: nat, attribute: nat): (h: Grid)
    ensures |h| == |g|
  {
    seq(|g|, r requires 0 <= r < |g| =>
      if first <= r < limit then FilledRow(g[r], start, stop, attribute) else g[r])
  }

  function FilledRow(row: seq<Cell>, start: nat, stop: nat, attribute: nat): (filled: seq<Cell>)
    ensures |filled| == |row|
  {
    seq(|row|, c requires 0 <= c < |row| => if start <= c < stop then Blank(attribute) else row[c])
  }

  lemma FilledNothing(g: Grid, first: nat, limit: nat, start: nat, attribute: nat)
    ensures Filled(g, first, limit, start, start, attribute) == g
  {
    var h := Filled(g, first, limit, start, start, attribute);
    forall r | 0 <= r < |g| ensures h[r] == g[r] {
      assert FilledRow(g[r], start, start, attribute) == g[r];
    }
  }

  lemma FilledExtends(g: Grid, r: nat, start: nat, c: nat, attribute: nat)
    requires r < |g| && start <= c < |g[r]|
    ensures var h := Filled(g, r, r + 1, start, c, attribute);
            h[r := h[r][c := Blank(attribute)]] == Filled(g, r, r + 1, start, c + 1, attribute)
  {
    var h := Filled(g, r, r + 1, start, c, attribute);
    assert h[r][c := Blank(attribute)] == FilledRow(g[r], start, c + 1, attribute);
  }

  lemma FilledOneRow(g: Grid, r: nat, start: nat, stop: nat, attribute: nat)
    requires r < |g|
    ensures Filled(g, r, r + 1, start, stop, attribute) == g[r := FilledRow(g[r], start, stop, attribute)]
  {
  }

  lemma FilledWholeRows(g: Grid, first: nat, limit: nat, columns: nat, attribute: nat)
    requires forall r | 0 <= r < |g| :: |g[r]| == columns
    ensures forall r | first <= r < limit && r < |g| ::
      Filled(g, first, limit, 0, columns, attribute)[r] == BlankRow(columns, attribute)
  {
    forall r | first <= r < limit && r < |g|
      ensures Filled(g, first, limit, 0, columns, attribute)[r] == BlankRow(columns, attribute)
    {
      assert FilledRow(g[r], 0, columns, attribute) == BlankRow(columns, attribute);
    }
  }

  /** Inside the window lo..hi the elements move n places towards lo and blanks enter at hi. */
  function Pulled<T>(s: seq<T>, lo: nat, hi: nat, n: nat, blank: T): (t: seq<T>)
    requires lo <= hi <= |s|
    ensures |t| == |s|
  {
    seq(|s|, i requires 0 <= i < |s| =>
      if lo <= i < hi then (if i + n < hi then s[i + n] else blank) else s[i])
  }

  /** Inside the window lo..hi the elements move n places towards hi and blanks enter at lo. */
  function Pushed<T>(s: seq<T>, lo: nat, hi: nat, n: nat, blank: T): (t: seq<T>)
    requires lo <= hi <= |s|
    ensures |t| == |s|
  {
    seq(|s|, i requires 0 <= i < |s| =>
      if lo <= i < hi then (if lo <= i - n then s[i - n] else blank) else s[i])
  }

  function Repeat<T>(n: nat, x: T): (t: seq<T>)
    ensures |t| == n && forall i | 0 <= i < n :: t[i] == x
  {
    seq(n, _ => x)
  }

  // ---------- What the two moves are, as cut-and-paste on sequences ----------

  /** Pulling deletes the first n elements of the window and appends n blanks to it. */
  lemma PulledIsSplice<T>(s: seq<T>, lo: nat, hi: nat, n: nat, blank: T)
    requires lo <= hi <= |s| && n <= hi - lo
    ensures Pulled(s, lo, hi, n, blank) == s[..lo] + s[lo + n..hi] + Repeat(n, blank) + s[hi..]
  {
  }

  /** Pushing inserts n blanks at the start of the window and drops its last n elements. */
  lemma PushedIsSplice<T>(s: seq<T>, lo: nat, hi: nat, n: nat, blank: T)
    requires lo <= hi <= |s| && n <= hi - lo
    ensures Pushed(s, lo, hi, n, blank) == s[..lo] + Repeat(n, blank) + s[lo..hi - n] + s[hi..]
  {
  }

  lemma PulledTwice<T>(s: seq<T>, lo: nat, hi: nat, a: nat, b: nat, blank: T)
    requires lo <= hi <= |s|
    ensures Pulled(Pulled(s, lo, hi, a, blank), lo, hi, b, blank)
         == Pulled(s, lo, hi, Min(a + b, hi - lo), blank)
  {
  }

  lemma PushedTwice<T>(s: seq<T>, lo: nat, hi: nat, a: nat, b: nat, blank: T)
    requires lo <= hi <= |s|
    ensures Pushed(Pushed(s, lo, hi, a, blank), lo, hi, b, blank)
         == Pushed(s, lo, hi, Min(a + b, hi - lo), blank)
  {
  }

  // ---------- The moves in progress, one element copied at a time ----------

  /** Elements lo..i have been overwritten with the one n places further on. */
  function CopiedBack<T>(s: seq<T>, lo: nat, i: nat, n: nat): (t: seq<T>)
    requires i + n <= |s|
    ensures |t| == |s|
  {
    seq(|s|, k requires 0 <= k < |s| => if lo <= k < i then s[k + n] else s[k])
  }

  lemma CopiedBackNothing<T>(s: seq<T>, lo: nat, n: nat)
    requires lo + n <= |s|
    ensures CopiedBack(s, lo, lo, n) == s
  {
  }

  /** Ascending order never reads an element that was already overwritten. */
  lemma CopiedBackExtends<T>(s: seq<T>, lo: nat, i: nat, n: nat)
    requires lo <= i && i + n < |s|
    ensures var t := CopiedBack(s, lo, i, n); t[i := t[i + n]] == CopiedBack(s, lo, i + 1, n)
  {
  }

  /** Elements i..hi have been overwritten with the one n places before. */
  function CopiedForward<T>(s: seq<T>, i: nat, hi: nat, n: nat): (t: seq<T>)
    requires n <= i && hi <= |s|
    ensures |t| == |s|
  {
    seq(|s|, k requires 0 <= k < |s| => if i <= k < hi then s[k - n] else s[k])
  }

  lemma CopiedForwardNothing<T>(s: seq<T>, hi: nat, n: nat)
    requires n <= hi <= |s|
    ensures CopiedForward(s, hi, hi, n) == s
  {
  }

  /** Descending order never reads an element that was already overwritten. */
  lemma CopiedForwardExtends<T>(s: seq<T>, i: nat, hi: nat, n: nat)
    requires n <= i < hi <= |s|
    ensures var t := CopiedForward(s, i + 1, hi, n); t[i := t[i - n]] == CopiedForward(s, i, hi, n)
  {
  }

  /** Copying rows back and then blanking the last n of the window is the pull. */
  lemma PulledByCopies(g: Grid, top: nat, limit: nat, n: nat, columns: nat, attribute: nat)
    requires top + n <= limit <= |g| && forall r | 0 <= r < |g| :: |g[r]| == columns
    ensures Filled(CopiedBack(g, top, limit - n, n), limit - n, limit, 0, columns, attribute)
         == Pulled(g, top, limit, n, BlankRow(columns, attribute))
  {
    var copied := CopiedBack(g, top, limit - n, n);
    FilledWholeRows(copied, limit - n, limit, columns, attribute);
  }

  /** Copying rows forward and then blanking the first n of the window is the push. */
  lemma PushedByCopies(g: Grid, top: nat, limit: nat, n: nat, columns: nat, attribute: nat)
    requires top + n <= limit <= |g| && forall r | 0 <= r < |g| :: |g[r]| == columns
    ensures Filled(CopiedForward(g, top + n, limit, n), top, top + n, 0, columns, attribute)
         == Pushed(g, top, limit, n, BlankRow(columns, attribute))
  {
    var copied := CopiedForward(g, top + n, limit, n);
    FilledWholeRows(copied, top, top + n, columns, attribute);
  }

  lemma LinePulledByCopies(line: seq<Cell>, from: nat, n: nat, attribute: nat)
    requires from + n <= |line|
    ensures FilledRow(CopiedBack(line, from, |line| - n, n), |line| - n, |line|, attribute)
         == Pulled(line, from, |line|, n, Blank(attribute))
  {
  }

  lemma LinePushedByCopies(line: seq<Cell>, from: nat, n: nat, attribute: nat)
    requires from + n <= |line|
    ensures FilledRow(CopiedForward(line, from + n, |line|, n), from, from + n, attribute)
         == Pushed(line, from, |line|, n, Blank(attribute))
  {
  }

  /** Opening a one-cell gap and filling it is a push of that cell. */
  lemma GapFilled(line: seq<Cell>, at: nat, cell: Cell)
    requires at < |line|
    ensures CopiedForward(line, at + 1, |line|, 1)[at := cell] == Pushed(line, at, |line|, 1, cell)
  {
  }
}
