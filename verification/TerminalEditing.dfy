/** Line and character editing as cut-and-paste on the old grid, how repeated edits add up,
    and when a pending wrap is where it belongs. */
module TerminalEditing {
  import opened Basics
  import opened Grids
  import opened TerminalState
  import opened TerminalParsing

  function BlankLine(s: State): seq<Cell> {
    BlankRow(s.core.columns, s.core.pen.Attribute())
  }

  function Region(s: State): nat
    requires s.core.margins.top <= s.core.margins.bottom
  {
    s.core.margins.bottom - s.core.margins.top + 1
  }

  /** Only the displayed grid and the spans changed. */
  predicate OnlyCellsChanged(s: State, t: State) {
    t.core == s.core.WithCells(t.core.Cells()) && t.replies == s.replies && t.display.console == s.display.console
  }

  /** Scrolling up cuts n rows out at the top of the region and pastes n blank rows in at its
      bottom; scrolling down cuts at the bottom and pastes at the top. */
  lemma ScrollingIsSplicing(s: State, count: nat)
    requires s.Valid()
    ensures var g, top, limit := s.core.Cells(), s.core.margins.top, s.core.margins.bottom + 1;
            var n := Min(count, Region(s));
            && OnlyCellsChanged(s, ScrollUp(s, count)) && OnlyCellsChanged(s, ScrollDown(s, count))
            && ScrollUp(s, count).core.Cells() == g[..top] + g[top + n..limit] + Repeat(n, BlankLine(s)) + g[limit..]
            && ScrollDown(s, count).core.Cells() == g[..top] + Repeat(n, BlankLine(s)) + g[top..limit - n] + g[limit..]
  {
    hide Pulled, Pushed, BlankRow;
    var n := Min(count, Region(s));
    var g, top, limit := s.core.Cells(), s.core.margins.top, s.core.margins.bottom + 1;
    PulledIsSplice(g, top, limit, n, BlankLine(s));
    PushedIsSplice(g, top, limit, n, BlankLine(s));
    if n == 0 {
      NoSplice(g, top, limit, BlankLine(s));
    }
  }

  lemma NoSplice<T>(s: seq<T>, lo: nat, hi: nat, blank: T)
    requires lo <= hi <= |s|
    ensures s == s[..lo] + s[lo..hi] + Repeat(0, blank) + s[hi..]
    ensures s == s[..lo] + Repeat(0, blank) + s[lo..hi] + s[hi..]
  {
  }

  /** Deleting and inserting lines splice the region from the cursor's row on, and do nothing
      when the cursor is outside the region. */
  lemma LineEditingIsSplicing(s: State, count: nat)
    requires s.Valid() && 1 <= count
    ensures var g, row, limit := s.core.Cells(), s.core.cursor.row, s.core.margins.bottom + 1;
            if s.core.margins.top <= row < limit then
              var n := Min(count, limit - row);
              && OnlyCellsChanged(s, DeleteLines(s, count)) && OnlyCellsChanged(s, InsertLines(s, count))
              && DeleteLines(s, count).core.Cells() == g[..row] + g[row + n..limit] + Repeat(n, BlankLine(s)) + g[limit..]
              && InsertLines(s, count).core.Cells() == g[..row] + Repeat(n, BlankLine(s)) + g[row..limit - n] + g[limit..]
            else DeleteLines(s, count) == s && InsertLines(s, count) == s
  {
    hide PullRows, PushRows, BlankRow;
    var row, bottom := s.core.cursor.row, s.core.margins.bottom;
    if s.core.margins.top <= row <= bottom {
      RowMovesAreSplices(s, row, bottom, Min(count, bottom + 1 - row));
    }
  }

  lemma RowMovesAreSplices(s: State, top: nat, bottom: nat, n: nat)
    requires s.Valid() && top <= bottom < s.core.rows && n <= bottom + 1 - top
    ensures var g, limit := s.core.Cells(), bottom + 1;
            && OnlyCellsChanged(s, PullRows(s, top, bottom, n)) && OnlyCellsChanged(s, PushRows(s, top, bottom, n))
            && PullRows(s, top, bottom, n).core.Cells()
               == g[..top] + g[top + n..limit] + Repeat(n, BlankLine(s)) + g[limit..]
            && PushRows(s, top, bottom, n).core.Cells()
               == g[..top] + Repeat(n, BlankLine(s)) + g[top..limit - n] + g[limit..]
  {
    hide Pulled, Pushed, BlankRow;
    PulledIsSplice(s.core.Cells(), top, bottom + 1, n, BlankLine(s));
    PushedIsSplice(s.core.Cells(), top, bottom + 1, n, BlankLine(s));
  }

  /** Deleting and inserting characters splice the cursor's line from the cursor on. */
  lemma CharacterEditingIsSplicing(s: State, count: nat)
    requires s.Valid() && 1 <= count
    ensures var g, row, column, width := s.core.Cells(), s.core.cursor.row, s.core.cursor.column, s.core.columns;
            var line, n, blank := g[row], Min(count, width - column), Blank(s.core.pen.Attribute());
            && OnlyCellsChanged(s, DeleteCharacters(s, count)) && OnlyCellsChanged(s, InsertCharacters(s, count))
            && DeleteCharacters(s, count).core.Cells()
               == g[row := line[..column] + line[column + n..] + Repeat(n, blank)]
            && InsertCharacters(s, count).core.Cells()
               == g[row := line[..column] + Repeat(n, blank) + line[column..width - n]]
  {
    hide Pulled, Pushed;
    var line, column, width := s.core.Cells()[s.core.cursor.row], s.core.cursor.column, s.core.columns;
    var n, blank := Min(count, width - column), Blank(s.core.pen.Attribute());
    PulledIsSplice(line, column, width, n, blank);
    PushedIsSplice(line, column, width, n, blank);
    assert line[width..] == [] && line[column + n..width] == line[column + n..];
    assert line[..column] + line[column + n..] + Repeat(n, blank) + [] == line[..column] + line[column + n..] + Repeat(n, blank);
    assert line[..column] + Repeat(n, blank) + line[column..width - n] + []
        == line[..column] + Repeat(n, blank) + line[column..width - n];
  }

  /** Deleting lines is scrolling up the region that starts at the cursor's row, and inserting
      lines is scrolling it down. */
  lemma LineEditingIsScrolling(s: State, count: nat)
    requires s.Valid() && 1 <= count
    requires s.core.margins.top <= s.core.cursor.row <= s.core.margins.bottom
    ensures var below := WithMargins(s, s.core.cursor.row, s.core.margins.bottom);
            && DeleteLines(s, count) == WithMargins(ScrollUp(below, count), s.core.margins.top, s.core.margins.bottom)
            && InsertLines(s, count) == WithMargins(ScrollDown(below, count), s.core.margins.top, s.core.margins.bottom)
  {
    hide Pulled, Pushed, BlankRow;
  }

  function WithMargins(s: State, top: nat, bottom: nat): (t: State)
    requires s.Valid() && top <= bottom < s.core.rows
    ensures t.Valid() && SameFrame(s, t)
  {
    s.(core := s.core.(margins := Margins(top, bottom)))
  }

  // ---------- Repeated edits ----------

  lemma PullRowsTwice(s: State, top: nat, bottom: nat, a: nat, b: nat)
    requires s.Valid() && top <= bottom < s.core.rows
    ensures PullRows(PullRows(s, top, bottom, a), top, bottom, b)
         == PullRows(s, top, bottom, Min(a + b, bottom + 1 - top))
  {
    hide Pulled, BlankRow, Display.Marked;
    PulledTwice(s.core.Cells(), top, bottom + 1, a, b, BlankLine(s));
    s.display.MarkedAlso(top, bottom + 1, 0, s.core.columns - 1, 0, s.core.columns - 1);
  }

  lemma PushRowsTwice(s: State, top: nat, bottom: nat, a: nat, b: nat)
    requires s.Valid() && top <= bottom < s.core.rows
    ensures PushRows(PushRows(s, top, bottom, a), top, bottom, b)
         == PushRows(s, top, bottom, Min(a + b, bottom + 1 - top))
  {
    hide Pushed, BlankRow, Display.Marked;
    PushedTwice(s.core.Cells(), top, bottom + 1, a, b, BlankLine(s));
    s.display.MarkedAlso(top, bottom + 1, 0, s.core.columns - 1, 0, s.core.columns - 1);
  }

  /** Scrolling by a and then by b is scrolling by a + b, however large either is. */
  lemma ScrollsAddUp(s: State, a: nat, b: nat)
    requires s.Valid()
    ensures ScrollUp(ScrollUp(s, a), b) == ScrollUp(s, a + b)
    ensures ScrollDown(ScrollDown(s, a), b) == ScrollDown(s, a + b)
  {
    hide ScrollUp, ScrollDown;
    ScrollsUpAddUp(s, a, b);
    ScrollsDownAddUp(s, a, b);
  }

  lemma ScrollsUpAddUp(s: State, a: nat, b: nat)
    requires s.Valid()
    ensures ScrollUp(ScrollUp(s, a), b) == ScrollUp(s, a + b)
  {
    hide PullRows, PushRows;
    var top, bottom, size := s.core.margins.top, s.core.margins.bottom, Region(s);
    PullRowsTwice(s, top, bottom, Min(a, size), Min(b, size));
    RowsKeepMargins(s, top, bottom, Min(a, size));
  }

  lemma ScrollsDownAddUp(s: State, a: nat, b: nat)
    requires s.Valid()
    ensures ScrollDown(ScrollDown(s, a), b) == ScrollDown(s, a + b)
  {
    hide PullRows, PushRows;
    var top, bottom, size := s.core.margins.top, s.core.margins.bottom, Region(s);
    PushRowsTwice(s, top, bottom, Min(a, size), Min(b, size));
    RowsKeepMargins(s, top, bottom, Min(a, size));
  }

  lemma RowsKeepMargins(s: State, top: nat, bottom: nat, n: nat)
    requires s.Valid() && top <= bottom < s.core.rows
    ensures PullRows(s, top, bottom, n).core.margins == s.core.margins
    ensures PushRows(s, top, bottom, n).core.margins == s.core.margins
    ensures PullRows(s, top, bottom, n).core.cursor == s.core.cursor
    ensures PushRows(s, top, bottom, n).core.cursor == s.core.cursor
  {
  }

  /** Editing lines by a and then by b at the same cursor is editing by a + b. */
  lemma LineEditsAddUp(s: State, a: nat, b: nat)
    requires s.Valid() && 1 <= a && 1 <= b
    ensures DeleteLines(DeleteLines(s, a), b) == DeleteLines(s, a + b)
    ensures InsertLines(InsertLines(s, a), b) == InsertLines(s, a + b)
  {
    hide PullRows, PushRows;
    var row, bottom := s.core.cursor.row, s.core.margins.bottom;
    if s.core.margins.top <= row <= bottom {
      var m, n := Min(a, bottom - row + 1), Min(b, bottom - row + 1);
      PullRowsTwice(s, row, bottom, m, n);
      PushRowsTwice(s, row, bottom, m, n);
      RowsKeepMargins(s, row, bottom, m);
    }
  }

  /** Editing characters by a and then by b at the same cursor is editing by a + b. */
  lemma CharacterEditsAddUp(s: State, a: nat, b: nat)
    requires s.Valid() && 1 <= a && 1 <= b
    ensures DeleteCharacters(DeleteCharacters(s, a), b) == DeleteCharacters(s, a + b)
    ensures InsertCharacters(InsertCharacters(s, a), b) == InsertCharacters(s, a + b)
  {
    hide Pulled, Pushed, Display.Marked;
    var row, column, width := s.core.cursor.row, s.core.cursor.column, s.core.columns;
    var line, blank := s.core.Cells()[row], Blank(s.core.pen.Attribute());
    var m, n := Min(a, width - column), Min(b, width - column);
    PulledTwice(line, column, width, m, n, blank);
    PushedTwice(line, column, width, m, n, blank);
    s.display.MarkedAlso(row, row + 1, column, width - 1, column, width - 1);
  }

  /** Deleting as many lines as were just inserted brings back every line that had not been
      pushed out of the region; the lines that had are blank. */
  lemma DeleteUndoesInsert(s: State, count: nat)
    requires s.Valid() && 1 <= count
    requires s.core.margins.top <= s.core.cursor.row <= s.core.margins.bottom
    ensures var g, limit := s.core.Cells(), s.core.margins.bottom + 1;
            var n := Min(count, limit - s.core.cursor.row);
            DeleteLines(InsertLines(s, count), count).core.Cells()
            == g[..limit - n] + Repeat(n, BlankLine(s)) + g[limit..]
  {
    hide BlankRow;
    var g, row, limit := s.core.Cells(), s.core.cursor.row, s.core.margins.bottom + 1;
    var n := Min(count, limit - row);
    var inserted := Pushed(g, row, limit, n, BlankLine(s));
    var undone := Pulled(inserted, row, limit, n, BlankLine(s));
    var expected := g[..limit - n] + Repeat(n, BlankLine(s)) + g[limit..];
    forall i | 0 <= i < |g| ensures undone[i] == expected[i] {
      if row <= i && i + n < limit {
        assert inserted[i + n] == g[i];
      }
    }
    assert undone == expected;
  }

  // ---------- The pending wrap ----------

  /** A wrap is pending only while the cursor is in the last column. */
  predicate WrapAtMargin(s: State) {
    s.core.cursor.wrapPending ==> s.core.cursor.column + 1 == s.core.columns
  }

  /** The two escape sequences that move the cursor but forget the pending wrap: ESC 8 when the
      saved column is not the last, and ESC c unless there is only one column. */
  predicate StrandsWrap(s: State, b: byte) {
    && s.core.parser.mode == Escape && s.core.cursor.wrapPending
    && ((b == 0x38 && s.core.saved.column + 1 != s.core.columns) || (b == 0x63 && s.core.columns != 1))
  }

  lemma EditingKeepsCursor(s: State, final: byte)
    requires s.Valid()
    ensures HandleEditing(s, final).core.cursor == s.core.cursor
  {
    hide Pulled, Pushed, BlankRow, Filled, BlankGrid, Display.Marked, FilledRow;
  }

  lemma {:induction false} ModesNeverSetWrap(s: State, enable: bool, n: nat)
    requires s.Valid() && !s.core.cursor.wrapPending
    ensures !SetModes(s, enable, n).core.cursor.wrapPending
  {
    hide SetAlternateScreen;
    if n > 0 {
      ModesNeverSetWrap(s, enable, n - 1);
      SwitchClearsWrap(SetModes(s, enable, n - 1), enable);
    }
  }

  lemma SwitchClearsWrap(s: State, enable: bool)
    requires s.Valid()
    ensures !SetAlternateScreen(s, enable).core.cursor.wrapPending
  {
    hide ClearedScreen, AllMarked;
  }

  lemma ControlSequencesClearWrap(s: State, final: byte)
    requires s.Valid()
    ensures !HandleCsi(s, final).core.cursor.wrapPending
  {
    hide HandleEditing, SetModes;
    var t := NoWrap(s);
    EditingKeepsCursor(t, final);
    ModesNeverSetWrap(t, true, s.core.parser.count);
    ModesNeverSetWrap(t, false, s.core.parser.count);
  }

  lemma IndexClearsWrap(s: State)
    requires s.Valid()
    ensures !IndexDown(s).core.cursor.wrapPending && !IndexUp(s).core.cursor.wrapPending
  {
    hide PullRows, PushRows;
    RowsKeepMargins(NoWrap(s), s.core.margins.top, s.core.margins.bottom, 1);
  }

  lemma CharactersWrapAtMargin(s: State, character: char16)
    requires s.Valid() && character != 0
    ensures WrapAtMargin(PutCharacter(s, character))
  {
    hide IndexDown, CharacterStored;
    IndexClearsWrap(MoveTo(s, s.core.cursor.row, 0));
  }

  lemma GroundBytesWrapAtMargin(s: State, b: byte)
    requires s.Valid() && s.core.parser.mode == Ground && WrapAtMargin(s)
    ensures WrapAtMargin(HandleGroundByte(s, b))
  {
    hide PutCharacter, HandleFirstByte;
    var p := s.core.parser;
    if p.remaining == 0 {
      FirstBytesWrapAtMargin(s, b);
    } else if b / 0x40 != 2 {
      var t := WithParser(s, p.(remaining := 0));
      CharactersWrapAtMargin(t, Shown(0xfffd));
      FirstBytesWrapAtMargin(EmitCodePoint(t, 0xfffd), b);
    } else {
      var codePoint := p.codePoint * 0x40 + b % 0x40;
      CharactersWrapAtMargin(WithParser(s, p.(remaining := p.remaining - 1, codePoint := codePoint)), Shown(codePoint));
    }
  }

  lemma FirstBytesWrapAtMargin(s: State, b: byte)
    requires s.Valid() && AtRest(s) && WrapAtMargin(s)
    ensures WrapAtMargin(HandleFirstByte(s, b))
  {
    hide PutCharacter, IndexDown;
    if b == 0x0a {
      IndexClearsWrap(s);
    } else if 0x20 <= b < 0x7f {
      CharactersWrapAtMargin(s, b);
    }
  }

  lemma EscapeByteStrandsWrapExactly(s: State, b: byte)
    requires s.Valid() && s.core.parser.mode == Escape && WrapAtMargin(s)
    ensures WrapAtMargin(HandleEscapeByte(s, b)) <==> !StrandsWrap(s, b)
  {
    hide IndexDown, IndexUp, BlankGrid;
    var t := WithMode(s, Ground);
    IndexClearsWrap(t);
    IndexClearsWrap(MoveTo(t, s.core.cursor.row, 0));
  }

  /** A pending wrap, wherever the cursor has been moved meanwhile, sends the next character to the
      first column of the next line, or of the same row of the screen when that had to scroll. */
  lemma PendingWrapTakesTheNextLine(s: State, character: char16)
    requires s.Valid() && s.core.cursor.wrapPending && character != 0
    ensures var t, before := PutCharacter(s, character), s.core.cursor.row;
            var row := if before == s.core.margins.bottom then before else Min(before + 1, s.core.rows - 1);
            && t.core.Cells()[row][0] == Cell(character, s.core.pen.Attribute())
            && t.core.cursor == Cursor(row, Min(1, s.core.columns - 1), s.core.columns == 1)
  {
    hide IndexDown, CharacterStored, Pen.Attribute;
    var home := MoveTo(s, s.core.cursor.row, 0);
    NextLineReached(home);
    StoredAtCursor(IndexDown(home), character);
  }

  lemma NextLineReached(s: State)
    requires s.Valid()
    ensures var t, before := IndexDown(s), s.core.cursor.row;
            && t.core.pen == s.core.pen
            && t.core.cursor == Cursor(if before == s.core.margins.bottom then before else Min(before + 1, s.core.rows - 1),
                                       s.core.cursor.column, false)
  {
    hide PullRows;
    RowsKeepMargins(NoWrap(s), s.core.margins.top, s.core.margins.bottom, 1);
    ScrollKeepsPen(NoWrap(s));
  }

  lemma ScrollKeepsPen(s: State)
    requires s.Valid()
    ensures ScrollUp(s, 1).core.pen == s.core.pen
  {
  }

  lemma StoredAtCursor(s: State, character: char16)
    requires s.Valid() && character != 0
    ensures CharacterStored(s, character).core.Cells()[s.core.cursor.row][s.core.cursor.column]
         == Cell(character, s.core.pen.Attribute())
  {
    hide Display.Marked, Pen.Attribute;
  }

  /** A pending wrap stays with the last column under every byte except those two, under
      which it is always stranded. */
  lemma WrapIsStrandedExactlyByRestoreAndReset(s: State, b: byte)
    requires s.Valid() && WrapAtMargin(s)
    ensures WrapAtMargin(Step(s, b)) <==> !StrandsWrap(s, b)
  {
    hide HandleGroundByte, HandleEscapeByte, HandleCsi;
    match s.core.parser.mode
    case Ground =>
      if b != ESC {
        GroundBytesWrapAtMargin(s, b);
      }
    case Escape =>
      if b != ESC {
        EscapeByteStrandsWrapExactly(s, b);
      }
    case Csi =>
      if 0x40 <= b <= 0x7e {
        ControlSequencesClearWrap(s, b);
      }
    case Osc =>
    case OscEscape =>
  }
}
