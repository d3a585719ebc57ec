/** A terminal as a line printer: letters and line ends on paper of the terminal's width, of which
    the screen shows the last rows. */
module TerminalPaper {
  import opened Basics
  import opened Grids
  import opened TerminalState
  import opened TerminalRendering
  import opened TerminalParsing
  import opened TerminalEditing
  import opened TerminalLayout

  datatype Item = Letter(b: byte) | NewLine

  /** Letters go out as they are, a line end as CR LF. */
  function Bytes(items: seq<Item>): seq<byte> {
    if items == [] then []
    else
      var last := items[|items| - 1];
      Bytes(items[..|items| - 1]) + (if last.Letter? then [last.b] else [0x0d, 0x0a])
  }

  predicate AllPrintable(items: seq<Item>) {
    forall i | 0 <= i < |items| && items[i].Letter? :: 0x20 <= items[i].b < 0x7f
  }

  /** A letter goes to the end of the last line, or on a new one when that is full. */
  function Typed(paper: seq<seq<byte>>, item: Item, columns: nat): (longer: seq<seq<byte>>)
    requires paper != []
    ensures longer != []
  {
    var last := paper[|paper| - 1];
    if item.NewLine? then paper + [[]]
    else if |last| >= columns then paper + [[item.b]]
    else paper[|paper| - 1 := last + [item.b]]
  }

  function Paper(items: seq<Item>, columns: nat): (paper: seq<seq<byte>>)
    ensures paper != []
  {
    if items == [] then [[]] else Typed(Paper(items[..|items| - 1], columns), items[|items| - 1], columns)
  }

  function OnPaper(paper: seq<seq<byte>>, line: nat, c: nat, attribute: nat): Cell {
    if line < |paper| && c < |paper[line]| then Cell(paper[line][c], attribute) else Blank(attribute)
  }

  /** How many lines have left the screen at its top. */
  function Gone(paper: seq<seq<byte>>, rows: nat): nat {
    if |paper| <= rows then 0 else |paper| - rows
  }

  ghost predicate GridIsPaper(g: Grid, paper: seq<seq<byte>>, gone: nat, attribute: nat) {
    forall r: nat, c: nat {:trigger g[r][c]} | r < |g| && c < |g[r]| :: g[r][c] == OnPaper(paper, r + gone, c, attribute)
  }

  /** The screen shows the paper's last lines, and the cursor is after the last letter, or on it
      with the wrap still to come when its line is full. */
  ghost predicate ShowsPaper(s: State, paper: seq<seq<byte>>)
    requires s.Valid()
  {
    && Plain(s) && paper != [] && (forall i | 0 <= i < |paper| :: |paper[i]| <= s.core.columns)
    && GridIsPaper(s.core.Cells(), paper, Gone(paper, s.core.rows), s.core.pen.Attribute())
    && var last := |paper[|paper| - 1]|;
       s.core.cursor == Cursor(|paper| - 1 - Gone(paper, s.core.rows), Min(last, s.core.columns - 1), last == s.core.columns)
  }

  lemma GridWithEmptyLine(g: Grid, columns: nat, paper: seq<seq<byte>>, attribute: nat)
    requires Sized(g, |g|, columns) && |g| >= 1 && paper != [] && GridIsPaper(g, paper, Gone(paper, |g|), attribute)
    ensures GridIsPaper(if |paper| < |g| then g else g[1..] + [BlankRow(columns, attribute)],
                        paper + [[]], Gone(paper + [[]], |g|), attribute)
  {
    var h := if |paper| < |g| then g else g[1..] + [BlankRow(columns, attribute)];
    var longer, gone := paper + [[]], Gone(paper, |g|);
    forall r: nat, c: nat | r < |h| && c < |h[r]|
      ensures h[r][c] == OnPaper(longer, r + Gone(longer, |g|), c, attribute)
    {
      if |paper| < |g| {
        assert g[r][c] == OnPaper(paper, r + gone, c, attribute);
      } else if r + 1 < |g| {
        assert h[r][c] == g[r + 1][c] == OnPaper(paper, r + 1 + gone, c, attribute);
      }
    }
  }

  /** The next line, reached by a line end or by a letter that does not fit. */
  lemma NextLineIsShown(s: State, paper: seq<seq<byte>>)
    requires s.Valid() && ShowsPaper(s, paper)
    ensures ShowsPaper(IndexDown(MoveTo(s, s.core.cursor.row, 0)), paper + [[]])
  {
    hide GridIsPaper, IndexDown, MoveTo, OnPaper, Display.Valid, Pen.Attribute, Pen.DefaultAttribute, BlankRow;
    PlainIndexDown(s);
    GridWithEmptyLine(s.core.Cells(), s.core.columns, paper, s.core.pen.Attribute());
  }

  lemma GridWithLetter(g: Grid, columns: nat, paper: seq<seq<byte>>, attribute: nat, b: byte)
    requires Sized(g, |g|, columns) && |g| >= 1 && paper != [] && GridIsPaper(g, paper, Gone(paper, |g|), attribute)
    requires |paper[|paper| - 1]| < columns
    ensures var row, c := |paper| - 1 - Gone(paper, |g|), |paper[|paper| - 1]|;
            var longer := Typed(paper, Letter(b), columns);
            GridIsPaper(g[row := g[row][c := Cell(b, attribute)]], longer, Gone(longer, |g|), attribute)
  {
    var row, column := |paper| - 1 - Gone(paper, |g|), |paper[|paper| - 1]|;
    var h, longer := g[row := g[row][column := Cell(b, attribute)]], Typed(paper, Letter(b), columns);
    forall r: nat, c: nat | r < |h| && c < |h[r]|
      ensures h[r][c] == OnPaper(longer, r + Gone(longer, |g|), c, attribute)
    {
      assert r != row || c != column ==> h[r][c] == g[r][c] == OnPaper(paper, r + Gone(paper, |g|), c, attribute);
    }
  }

  lemma LetterIsShown(s: State, paper: seq<seq<byte>>, b: byte)
    requires s.Valid() && ShowsPaper(s, paper) && |paper[|paper| - 1]| < s.core.columns && 0x20 <= b < 0x7f
    ensures ShowsPaper(PutCharacter(s, b), Typed(paper, Letter(b), s.core.columns))
  {
    hide GridIsPaper, Written, IndexDown, OnPaper, Display.Valid, Pen.Attribute, Pen.DefaultAttribute;
    PlainCharacterWritten(s, b);
    GridWithLetter(s.core.Cells(), s.core.columns, paper, s.core.pen.Attribute(), b);
  }

  lemma FullLineWraps(s: State, paper: seq<seq<byte>>, b: byte)
    requires s.Valid() && ShowsPaper(s, paper) && |paper[|paper| - 1]| == s.core.columns && 0x20 <= b < 0x7f
    ensures ShowsPaper(PutCharacter(s, b), Typed(paper, Letter(b), s.core.columns))
  {
    hide GridIsPaper, Written, IndexDown, OnPaper, Pen.Attribute, Pen.DefaultAttribute;
    var t := IndexDown(MoveTo(s, s.core.cursor.row, 0));
    NextLineIsShown(s, paper);
    LetterIsShown(t, paper + [[]], b);
    var empty: seq<byte> := [];
    assert empty + [b] == [b] && (paper + [empty])[|paper| := [b]] == paper + [[b]];
    assert Typed(paper + [[]], Letter(b), s.core.columns) == Typed(paper, Letter(b), s.core.columns);
    assert !t.core.cursor.wrapPending;
    PutOnNextLine(s, b);
  }

  lemma PutOnNextLine(s: State, b: byte)
    requires s.Valid() && s.core.cursor.wrapPending && 0x20 <= b < 0x7f
    ensures var t := IndexDown(MoveTo(s, s.core.cursor.row, 0));
            PutCharacter(s, b) == PutCharacter(t, b)
  {
    hide Written, ScrollUp;
    IndexClearsWrap(MoveTo(s, s.core.cursor.row, 0));
  }

  lemma ItemIsShown(s: State, paper: seq<seq<byte>>, item: Item)
    requires s.Valid() && ShowsPaper(s, paper) && (item.Letter? ==> 0x20 <= item.b < 0x7f)
    ensures var t := Feed(s, if item.Letter? then [item.b] else [0x0d, 0x0a]);
            && t.core.rows == s.core.rows && t.core.columns == s.core.columns
            && ShowsPaper(t, Typed(paper, item, s.core.columns))
  {
    hide Feed, GridIsPaper, PutCharacter, IndexDown, Step;
    if item.Letter? {
      FeedOne(s, item.b);
      LetterIsPut(s, item.b);
      if |paper[|paper| - 1]| < s.core.columns {
        LetterIsShown(s, paper, item.b);
      } else {
        FullLineWraps(s, paper, item.b);
      }
    } else {
      TwoBytesFed(s, 0x0d, 0x0a);
      LineEndIsRead(s);
      NextLineIsShown(s, paper);
    }
  }

  lemma LetterIsPut(s: State, b: byte)
    requires s.Valid() && AtRest(s) && 0x20 <= b < 0x7f
    ensures Step(s, b) == PutCharacter(s, b)
  {
    hide PutCharacter, IndexDown, HandleEscapeByte, HandleCsi;
  }

  lemma LineEndIsRead(s: State)
    requires s.Valid() && AtRest(s)
    ensures Step(Step(s, 0x0d), 0x0a) == IndexDown(MoveTo(s, s.core.cursor.row, 0))
  {
    hide PutCharacter, ScrollUp, HandleEscapeByte, HandleCsi;
  }

  lemma NewIsBlankPaper(columns: nat, rows: nat, console: Screen)
    requires 1 <= columns <= MAX_UINT16 && 1 <= rows <= MAX_UINT16 && Sized(console.cells, rows, columns)
    ensures var s := Created(columns, rows, console);
            s.core.rows == rows && s.core.columns == columns && ShowsPaper(s, [[]])
  {
    hide Pen.Attribute, Pen.DefaultAttribute;
    CreatedInDefaultColours(columns, rows, console);
  }

  /** Any letters and line ends fed to a new terminal of any size are on screen as on paper. */
  lemma {:induction false} PaperIsShown(columns: nat, rows: nat, console: Screen, items: seq<Item>)
    requires 1 <= columns <= MAX_UINT16 && 1 <= rows <= MAX_UINT16 && Sized(console.cells, rows, columns)
    requires AllPrintable(items)
    ensures var t := Feed(Created(columns, rows, console), Bytes(items));
            t.core.rows == rows && t.core.columns == columns && ShowsPaper(t, Paper(items, columns))
    decreases |items|
  {
    hide Feed, ShowsPaper, Typed, Created;
    var s := Created(columns, rows, console);
    if items == [] {
      FeedNothing(s);
      NewIsBlankPaper(columns, rows, console);
    } else {
      var front, item := items[..|items| - 1], items[|items| - 1];
      PaperIsShown(columns, rows, console, front);
      ItemIsShown(Feed(s, Bytes(front)), Paper(front, columns), item);
      FeedTwice(s, Bytes(front), if item.Letter? then [item.b] else [0x0d, 0x0a]);
    }
  }
}
