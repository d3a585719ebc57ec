/** Where plain text ends up on a new terminal: row by row, the last rows kept. */
module TerminalLayout {
  import opened Basics
  import opened Grids
  import FlatGrid
  import opened TerminalState
  import opened TerminalRendering
  import opened TerminalParsing

  predicate Printable(text: seq<byte>) {
    forall i | 0 <= i < |text| :: 0x20 <= text[i] < 0x7f
  }

  /** What belongs in column c of line `line` (counted from the text's start) of a text written
      in lines of `columns` characters. */
  function CellOfText(text: seq<byte>, columns: nat, line: nat, c: nat, attribute: nat): Cell {
    var i := line * columns + c;
    if 0 <= i < |text| then Cell(text[i], attribute) else Blank(attribute)
  }

  /** How many lines have left the top once line q has been reached. */
  function Shift(q: nat, rows: nat): nat {
    if q + 1 <= rows then 0 else q + 1 - rows
  }

  /** n characters fill q lines and c further columns. */
  predicate Fills(n: nat, columns: nat, q: nat, c: nat) {
    n == q * columns + c
  }

  /** Settings plain text neither needs nor changes. */
  predicate Plain(s: State) {
    && AtRest(s) && !s.core.modes.insert && !s.core.buffers.alternateActive
    && s.core.margins.top == 0 && s.core.margins.bottom + 1 == s.core.rows
    && s.core.pen.Attribute() == s.core.pen.DefaultAttribute()
  }

  /** The grid shows the text's lines from line shift on. */
  ghost predicate GridShows(g: Grid, columns: nat, text: seq<byte>, shift: nat, attribute: nat) {
    forall r: nat, c: nat {:trigger g[r][c]} | r < |g| && c < |g[r]| ::
      g[r][c] == CellOfText(text, columns, r + shift, c, attribute)
  }

  ghost predicate ShowsText(s: State, text: seq<byte>, shift: nat) {
    GridShows(s.core.Cells(), s.core.columns, text, shift, s.core.pen.Attribute())
  }

  /** The text fills lines up to column c of line q, and that is where the cursor waits. */
  ghost predicate Ready(s: State, text: seq<byte>, q: nat, c: nat)
    requires s.Valid()
  {
    && Plain(s) && c < s.core.columns && Fills(|text|, s.core.columns, q, c)
    && ShowsText(s, text, Shift(q, s.core.rows))
    && s.core.cursor == Cursor(q - Shift(q, s.core.rows), c, false)
  }

  /** The last character went to column c of line q: the cursor is after it, or on it with a
      wrap pending when that was the last column. */
  ghost predicate Laid(s: State, text: seq<byte>, q: nat, c: nat)
    requires s.Valid()
  {
    && Plain(s) && c < s.core.columns && Fills(|text|, s.core.columns, q, c + 1)
    && ShowsText(s, text, Shift(q, s.core.rows))
    && s.core.cursor == Cursor(q - Shift(q, s.core.rows), Min(c + 1, s.core.columns - 1), c + 1 == s.core.columns)
  }

  lemma CellOfLongerText(text: seq<byte>, b: byte, columns: nat, q: nat, c: nat, line: nat, c': nat, attribute: nat)
    requires c < columns && c' < columns && Fills(|text|, columns, q, c)
    ensures CellOfText(text + [b], columns, line, c', attribute)
         == if line == q && c' == c then Cell(b, attribute) else CellOfText(text, columns, line, c', attribute)
  {
    if line * columns + c' == |text| {
      FlatGrid.SlotsDistinct(columns, line, c', q, c);
    }
  }

  lemma CellAfterText(text: seq<byte>, columns: nat, q: nat, line: nat, c: nat, attribute: nat)
    requires Fills(|text|, columns, q, 0) && q <= line
    ensures CellOfText(text, columns, line, c, attribute) == Blank(attribute)
  {
    assert q * columns <= line * columns;
  }

  lemma FillsNext(n: nat, columns: nat, q: nat, c: nat)
    ensures Fills(n, columns, q, c) ==> Fills(n + 1, columns, q, c + 1)
    ensures Fills(n, columns, q, columns) ==> Fills(n, columns, q + 1, 0)
  {
  }

  /** Everything a character does to a plain terminal. */
  lemma PlainCharacterWritten(s: State, b: byte)
    requires s.Valid() && Plain(s) && !s.core.cursor.wrapPending && 0x20 <= b < 0x7f
    ensures var t, row, c := Written(s, b), s.core.cursor.row, s.core.cursor.column;
            && t.Valid() && Plain(t) && SameFrame(s, t) && t.core.pen == s.core.pen
            && t.core.Cells() == s.core.Cells()[row := s.core.Cells()[row][c := Cell(b, s.core.pen.Attribute())]]
            && t.core.cursor == Cursor(row, Min(c + 1, s.core.columns - 1), c + 1 == s.core.columns)
  {
  }

  lemma GridShowsLonger(g: Grid, columns: nat, text: seq<byte>, shift: nat, attribute: nat, q: nat, c: nat, b: byte)
    requires GridShows(g, columns, text, shift, attribute) && Sized(g, |g|, columns)
    requires Fills(|text|, columns, q, c) && c < columns && shift <= q < shift + |g|
    ensures var row := q - shift;
            GridShows(g[row := g[row][c := Cell(b, attribute)]], columns, text + [b], shift, attribute)
  {
    hide CellOfText, Fills;
    var h := g[q - shift := g[q - shift][c := Cell(b, attribute)]];
    forall r: nat, c': nat | r < |h| && c' < |h[r]|
      ensures h[r][c'] == CellOfText(text + [b], columns, r + shift, c', attribute)
    {
      CellOfLongerText(text, b, columns, q, c, r + shift, c', attribute);
    }
  }

  lemma GridShowsScrolled(g: Grid, columns: nat, text: seq<byte>, shift: nat, attribute: nat, q: nat)
    requires GridShows(g, columns, text, shift, attribute) && Sized(g, |g|, columns) && |g| >= 1
    requires Fills(|text|, columns, q, 0) && q == shift + |g|
    ensures GridShows(g[1..] + [BlankRow(columns, attribute)], columns, text, shift + 1, attribute)
  {
    hide CellOfText, Fills;
    var h := g[1..] + [BlankRow(columns, attribute)];
    forall r: nat, c: nat | r < |h| && c < |h[r]|
      ensures h[r][c] == CellOfText(text, columns, r + (shift + 1), c, attribute)
    {
      if r + 1 < |g| {
        assert h[r][c] == g[r + 1][c];
      } else {
        CellAfterText(text, columns, q, r + (shift + 1), c, attribute);
      }
    }
  }

  lemma CharacterIsLaid(s: State, text: seq<byte>, q: nat, c: nat, b: byte)
    requires s.Valid() && Ready(s, text, q, c) && 0x20 <= b < 0x7f
    ensures Laid(Written(s, b), text + [b], q, c)
  {
    hide GridShows, Fills, Written;
    PlainCharacterWritten(s, b);
    FillsNext(|text|, s.core.columns, q, c);
    GridShowsLonger(s.core.Cells(), s.core.columns, text, Shift(q, s.core.rows), s.core.pen.Attribute(), q, c, b);
  }

  /** Going to the next line of a plain terminal scrolls exactly on the last row. */
  lemma PlainIndexDown(s: State)
    requires s.Valid() && Plain(s)
    ensures var t, row := IndexDown(MoveTo(s, s.core.cursor.row, 0)), s.core.cursor.row;
            && Plain(t) && SameFrame(s, t) && t.core.pen == s.core.pen
            && t.core.cursor == Cursor(Min(row + 1, s.core.rows - 1), 0, false)
            && t.core.Cells() == if row + 1 < s.core.rows then s.core.Cells()
                                 else s.core.Cells()[1..] + [BlankRow(s.core.columns, s.core.pen.Attribute())]
  {
    if s.core.cursor.row + 1 == s.core.rows {
      PulledIsSplice(s.core.Cells(), 0, s.core.rows, 1, BlankRow(s.core.columns, s.core.pen.Attribute()));
    }
  }

  /** The deferred wrap: the cursor goes to the next line, scrolling only on the last row. */
  lemma WrapIsReady(s: State, text: seq<byte>, q: nat)
    requires s.Valid() && Laid(s, text, q, s.core.columns - 1)
    ensures Ready(IndexDown(MoveTo(s, s.core.cursor.row, 0)), text, q + 1, 0)
  {
    hide Ready, Laid, IndexDown, MoveTo;
    if s.core.cursor.row + 1 == s.core.rows {
      WrapScrolls(s, text, q);
    } else {
      WrapMovesOn(s, text, q);
    }
  }

  lemma WrapMovesOn(s: State, text: seq<byte>, q: nat)
    requires s.Valid() && Laid(s, text, q, s.core.columns - 1) && s.core.cursor.row + 1 < s.core.rows
    ensures Ready(IndexDown(MoveTo(s, s.core.cursor.row, 0)), text, q + 1, 0)
  {
    hide GridShows, Fills, IndexDown, MoveTo, Renderable, Sized, Display.Valid, Pen.Attribute, Pen.DefaultAttribute;
    PlainIndexDown(s);
    FillsNext(|text|, s.core.columns, q, s.core.columns);
  }

  lemma WrapScrolls(s: State, text: seq<byte>, q: nat)
    requires s.Valid() && Laid(s, text, q, s.core.columns - 1) && s.core.cursor.row + 1 == s.core.rows
    ensures Ready(IndexDown(MoveTo(s, s.core.cursor.row, 0)), text, q + 1, 0)
  {
    hide GridShows, Fills, IndexDown, MoveTo, Display.Valid, Pen.Attribute, Pen.DefaultAttribute, BlankRow;
    PlainIndexDown(s);
    FillsNext(|text|, s.core.columns, q, s.core.columns);
    GridShowsScrolled(s.core.Cells(), s.core.columns, text, Shift(q, s.core.rows), s.core.pen.Attribute(), q + 1);
  }

  lemma NextCharacterIsLaid(s: State, text: seq<byte>, q: nat, c: nat, b: byte)
    requires s.Valid() && Laid(s, text, q, c) && 0x20 <= b < 0x7f
    ensures if c + 1 < s.core.columns then Laid(Step(s, b), text + [b], q, c + 1)
            else Laid(Step(s, b), text + [b], q + 1, 0)
  {
    hide ShowsText, IndexDown, Written, Fills;
    if c + 1 < s.core.columns {
      CharacterIsLaid(s, text, q, c + 1, b);
    } else {
      WrapIsReady(s, text, q);
      CharacterIsLaid(IndexDown(MoveTo(s, s.core.cursor.row, 0)), text, q + 1, 0, b);
    }
  }

  /** After n characters the last one is in column (n - 1) mod columns of line (n - 1) / columns. */
  lemma {:induction false} FedTextIsLaid(columns: nat, rows: nat, console: Screen, text: seq<byte>) returns (q: nat, c: nat)
    requires 1 <= columns <= MAX_UINT16 && 1 <= rows <= MAX_UINT16 && Sized(console.cells, rows, columns)
    requires Printable(text) && text != []
    ensures var t := Feed(Created(columns, rows, console), text);
            t.core.rows == rows && t.core.columns == columns && Laid(t, text, q, c)
    decreases |text|
  {
    hide Step, ShowsText, Fills;
    var s := Created(columns, rows, console);
    var front, b := text[..|text| - 1], text[|text| - 1];
    assert text == front + [b];
    if front == [] {
      FeedNothing(s);
      FirstCharacterIsLaid(columns, rows, console, b);
      q, c := 0, 0;
    } else {
      q, c := FedTextIsLaid(columns, rows, console, front);
      var t := Feed(s, front);
      NextCharacterIsLaid(t, front, q, c, b);
      StepKeeps(t, b, false);
      q, c := if c + 1 < columns then q else q + 1, if c + 1 < columns then c + 1 else 0;
    }
  }

  lemma FirstCharacterIsLaid(columns: nat, rows: nat, console: Screen, b: byte)
    requires 1 <= columns <= MAX_UINT16 && 1 <= rows <= MAX_UINT16 && Sized(console.cells, rows, columns)
    requires 0x20 <= b < 0x7f
    ensures var s := Created(columns, rows, console);
            var t := Step(s, b);
            t.core.rows == rows && t.core.columns == columns && Laid(t, [b], 0, 0)
  {
    hide Written, Laid;
    var s := Created(columns, rows, console);
    CreatedIsReady(columns, rows, console);
    CharacterIsLaid(s, [], 0, 0, b);
    assert [] + [b] == [b];
    StepKeeps(s, b, false);
  }

  lemma CreatedIsReady(columns: nat, rows: nat, console: Screen)
    requires 1 <= columns <= MAX_UINT16 && 1 <= rows <= MAX_UINT16 && Sized(console.cells, rows, columns)
    ensures Ready(Created(columns, rows, console), [], 0, 0)
  {
    hide GridShows, Fills, Renderable, Sized, Pen.Attribute, Pen.DefaultAttribute;
    CreatedInDefaultColours(columns, rows, console);
    var s := Created(columns, rows, console);
    NoTextIsBlank(s.core.Cells(), columns, s.core.pen.Attribute());
  }

  lemma CreatedInDefaultColours(columns: nat, rows: nat, console: Screen)
    requires 1 <= columns <= MAX_UINT16 && 1 <= rows <= MAX_UINT16 && Sized(console.cells, rows, columns)
    ensures var s := Created(columns, rows, console);
            && s.core.pen.Attribute() == s.core.pen.DefaultAttribute()
            && forall r, c | 0 <= r < rows && 0 <= c < columns :: s.core.Cells()[r][c] == Blank(s.core.pen.Attribute())
  {
    hide Pen.Attribute, Pen.DefaultAttribute, Renderable;
    DefaultColours(Created(columns, rows, console).core.pen);
  }

  lemma DefaultColours(pen: Pen)
    requires pen.Valid() && pen == pen.Reset()
    ensures pen.Attribute() == pen.DefaultAttribute()
  {
  }

  lemma NoTextIsBlank(g: Grid, columns: nat, attribute: nat)
    requires forall r, c | 0 <= r < |g| && 0 <= c < |g[r]| :: g[r][c] == Blank(attribute)
    ensures Fills(0, columns, 0, 0) && GridShows(g, columns, [], 0, attribute)
  {
  }

  /** Lines needed for n characters, and where the last of them is. */
  function Lines(n: nat, columns: nat): nat
    requires columns > 0
  {
    (n + columns - 1) / columns
  }

  function LastLine(n: nat, columns: nat): nat
    requires n > 0 && columns > 0
  {
    (n - 1) / columns
  }

  function LastColumn(n: nat, columns: nat): nat
    requires n > 0 && columns > 0
  {
    (n - 1) % columns
  }

  lemma LineCount(n: nat, columns: nat, q: nat, c: nat)
    requires c < columns && Fills(n, columns, q, c + 1)
    ensures n > 0 && Lines(n, columns) == q + 1 && LastLine(n, columns) == q && LastColumn(n, columns) == c
  {
    assert n > 0;
    Quotient(n - 1, columns, q, c);
    Quotient(n + columns - 1, columns, q + 1, c);
  }

  lemma Quotient(x: nat, columns: nat, q: nat, c: nat)
    requires c < columns && x == q * columns + c
    ensures x / columns == q && x % columns == c
  {
    if x / columns != q {
      FlatGrid.MultipleOutOfReach(x / columns - q, columns);
    }
  }

  /** A text of n >= 1 characters, laid out: cell (r, c) holds character (r + shift) * columns + c,
      or a blank past the end, where shift is the number of lines that no longer fit; the cursor
      is after the last character, or on it with the wrap still to come, so that a full screen
      has not scrolled yet. */
  ghost predicate LaidOut(t: State, text: seq<byte>)
    requires t.Valid() && text != []
  {
    var rows, columns := t.core.rows, t.core.columns;
    var shift, last := Max(0, Lines(|text|, columns) - rows), LastColumn(|text|, columns);
    && (forall r, c | 0 <= r < rows && 0 <= c < columns ::
          t.core.Cells()[r][c] == CellOfText(text, columns, r + shift, c, t.core.pen.DefaultAttribute()))
    && t.core.cursor.row + shift == LastLine(|text|, columns)
    && t.core.cursor.column == Min(last + 1, columns - 1)
    && t.core.cursor.wrapPending == (last == columns - 1)
  }

  lemma LaidIsLaidOut(t: State, text: seq<byte>, q: nat, c: nat)
    requires t.Valid() && text != [] && Laid(t, text, q, c)
    ensures LaidOut(t, text)
  {
    hide CellOfText, Fills, Lines, LastLine, LastColumn;
    LineCount(|text|, t.core.columns, q, c);
  }

  /** Any printable text on a new terminal of any size is laid out row by row. */
  lemma TextLayout(columns: nat, rows: nat, console: Screen, text: seq<byte>)
    requires 1 <= columns <= MAX_UINT16 && 1 <= rows <= MAX_UINT16 && Sized(console.cells, rows, columns)
    requires Printable(text) && text != []
    ensures var t := Feed(Created(columns, rows, console), text);
            t.core.rows == rows && t.core.columns == columns && LaidOut(t, text)
  {
    hide Feed, Created, Laid, LaidOut, Sized, Core.Valid;
    var q, c := FedTextIsLaid(columns, rows, console, text);
    LaidIsLaidOut(Feed(Created(columns, rows, console), text), text, q, c);
  }
}
