/** Where single bytes, escape sequences and placing sequences put the cursor, and what saves,
    margins, modes, the alternate screen and a reset set up. */
module TerminalPlaces {
  import opened Basics
  import opened Grids
  import opened TerminalState
  import opened TerminalRendering
  import opened TerminalParsing
  import opened TerminalEditing
  import opened TerminalCommands
  import opened TerminalCuts
  import opened TerminalAlternate
  import opened TerminalSequences

  /** From s to t only the cursor moved. */
  predicate Placed(s: State, t: State, row: nat, column: nat) {
    && t.core == s.core.(cursor := Cursor(row, column, false), parser := t.core.parser)
    && t.core.parser.mode == Ground && t.display == s.display && t.replies == s.replies
  }

  // ---------- Single bytes ----------

  /** CR goes to the line's start, BS one column back. */
  lemma ReturnAndBackspacePlace(s: State)
    requires s.Valid() && AtRest(s)
    ensures Placed(s, Feed(s, [0x0d]), s.core.cursor.row, 0)
    ensures Placed(s, Feed(s, [0x08]), s.core.cursor.row, Max(s.core.cursor.column - 1, 0))
  {
    hide PutCharacter, IndexDown, HandleEscapeByte, HandleCsi, Feed;
    FeedOne(s, 0x0d);
    FeedOne(s, 0x08);
  }

  /** HT goes to the next multiple of eight, or to the last column when that comes first. */
  lemma TabPlaces(s: State)
    requires s.Valid() && AtRest(s)
    ensures var column, tab := s.core.cursor.column, Feed(s, [0x09]).core.cursor.column;
            && Placed(s, Feed(s, [0x09]), s.core.cursor.row, tab)
            && column <= tab <= column + 8 && (forall c | column < c < tab :: c % 8 != 0)
            && (tab + 1 == s.core.columns || (tab % 8 == 0 && column < tab))
  {
    hide Feed, Step, Core.Valid, Display.Valid;
    FeedOne(s, 0x09);
    var stop := NextTab(s.core.cursor.column);
    TabMoves(s, stop);
    assert Feed(s, [0x09]).core.cursor.column == Min(s.core.columns - 1, stop);
  }

  lemma TabMoves(s: State, stop: nat)
    requires s.Valid() && AtRest(s) && stop == (s.core.cursor.column + 8) / 8 * 8
    ensures Step(s, 0x09) == MoveTo(NoWrap(s), s.core.cursor.row, Min(s.core.columns - 1, stop))
    ensures Placed(s, Step(s, 0x09), s.core.cursor.row, Min(s.core.columns - 1, stop))
    ensures s.core.cursor.column < s.core.columns
  {
    hide PutCharacter, IndexDown, HandleEscapeByte, HandleCsi;
  }

  lemma NextTab(column: nat) returns (stop: nat)
    ensures stop == (column + 8) / 8 * 8
    ensures column < stop <= column + 8 && stop % 8 == 0 && forall c | column < c < stop :: c % 8 != 0
  {
    stop := (column + 8) / 8 * 8;
    forall c | column < c < stop ensures c % 8 != 0 {
      assert c / 8 < (column + 8) / 8;
    }
  }

  /** A byte that is no character, no lead byte and none of the controls above changes nothing. */
  lemma OtherBytesAreIgnored(s: State, b: byte)
    requires s.Valid() && AtRest(s)
    requires (b < 0x20 && b != 0x08 && b != 0x09 && b != 0x0a && b != 0x0d && b != ESC) || 0x7f <= b < 0xc0 || 0xf8 <= b
    ensures Feed(s, [b]) == s
  {
    hide PutCharacter, IndexDown, HandleEscapeByte, HandleCsi;
    FeedOne(s, b);
  }

  /** The screen one line further on: on the region's last row it scrolls by one, elsewhere the
      cursor goes down, but not off the screen. */
  predicate OneLineOn(s: State, t: State, column: nat)
    requires s.Valid()
  {
    var g, row, top, limit := s.core.Cells(), s.core.cursor.row, s.core.margins.top, s.core.margins.bottom + 1;
    && t.core == s.core.(buffers := t.core.buffers, cursor := t.core.cursor, parser := t.core.parser)
    && t.core.parser.mode == Ground && t.replies == s.replies
    && t.core.Cells() == (if row + 1 == limit then g[..top] + g[top + 1..limit] + [BlankLine(s)] + g[limit..] else g)
    && t.core.cursor == Cursor(if row + 1 == limit then row else Min(row + 1, s.core.rows - 1), column, false)
  }

  lemma IndexingGoesOneLineOn(s: State)
    requires s.Valid() && s.core.parser.mode == Ground
    ensures OneLineOn(s, IndexDown(s), s.core.cursor.column)
  {
    hide ScrollUp, BlankRow;
    var t := NoWrap(s);
    ScrollingIsSplicing(t, 1);
    assert Repeat(1, BlankLine(s)) == [BlankLine(s)];
  }

  /** LF goes one line on in the same column. */
  lemma LineFeedGoesOneLineOn(s: State)
    requires s.Valid() && AtRest(s)
    ensures OneLineOn(s, Feed(s, [0x0a]), s.core.cursor.column)
  {
    hide PutCharacter, IndexDown, HandleEscapeByte, HandleCsi, OneLineOn;
    FeedOne(s, 0x0a);
    IndexingGoesOneLineOn(s);
  }

  // ---------- Escape sequences ----------

  lemma EscapeIsRead(s: State, b: byte)
    requires s.Valid() && Listens(s) && b != ESC
    ensures var e := WithParser(s, s.core.parser.(mode := Escape, remaining := 0));
            Feed(s, [ESC, b]) == HandleEscapeByte(e, b)
  {
    hide HandleGroundByte, HandleEscapeByte, HandleCsi;
    EscapeOpens(s);
    TwoBytesFed(s, ESC, b);
  }

  /** ESC 7 saves the place and ESC 8 goes to the saved one; neither forgets a pending wrap. */
  lemma EscapesSaveAndRestore(s: State)
    requires s.Valid() && Listens(s)
    ensures var t := Feed(s, [ESC, '7' as byte]);
            && t.core == s.core.(saved := Place(s.core.cursor.row, s.core.cursor.column), parser := t.core.parser)
            && t.core.parser.mode == Ground && t.display == s.display && t.replies == s.replies
    ensures var t := Feed(s, [ESC, '8' as byte]);
            && t.core == s.core.(cursor := Cursor(s.core.saved.row, s.core.saved.column, s.core.cursor.wrapPending),
                                 parser := t.core.parser)
            && t.core.parser.mode == Ground && t.display == s.display && t.replies == s.replies
  {
    hide IndexDown, IndexUp, ClearedScreen, Feed;
    EscapeIsRead(s, '7' as byte);
    EscapeIsRead(s, '8' as byte);
  }

  /** ESC D goes one line on. */
  lemma EscapeGoesOneLineOn(s: State)
    requires s.Valid() && Listens(s)
    ensures OneLineOn(s, Feed(s, [ESC, 'D' as byte]), s.core.cursor.column)
  {
    hide Feed, HandleEscapeByte, OneLineOn, IndexDown;
    EscapeIsRead(s, 'D' as byte);
    var e := WithParser(s, s.core.parser.(mode := Escape, remaining := 0));
    EscapesIndex(e);
    IndexingGoesOneLineOn(WithMode(e, Ground));
    SameScreenOneLineOn(s, WithMode(e, Ground), IndexDown(WithMode(e, Ground)), s.core.cursor.column);
  }

  lemma EscapesIndex(e: State)
    requires e.Valid() && e.core.parser.mode == Escape
    ensures HandleEscapeByte(e, 'D' as byte) == IndexDown(WithMode(e, Ground))
    ensures HandleEscapeByte(e, 'E' as byte) == IndexDown(MoveTo(WithMode(e, Ground), e.core.cursor.row, 0))
    ensures HandleEscapeByte(e, 'M' as byte) == IndexUp(WithMode(e, Ground))
  {
    hide IndexDown, IndexUp, ClearedScreen;
  }

  lemma SameScreenOneLineOn(s: State, s': State, t: State, column: nat)
    requires s.Valid() && s'.Valid() && OneLineOn(s', t, column)
    requires s'.core == s.core.(parser := s'.core.parser, cursor := s'.core.cursor) && s'.core.cursor.row == s.core.cursor.row
    requires s'.replies == s.replies
    ensures OneLineOn(s, t, column)
  {
    hide BlankRow;
  }

  /** ESC E goes to the start of the next line. */
  lemma EscapeStartsTheNextLine(s: State)
    requires s.Valid() && Listens(s)
    ensures OneLineOn(s, Feed(s, [ESC, 'E' as byte]), 0)
  {
    hide Feed, HandleEscapeByte, OneLineOn, IndexDown;
    EscapeIsRead(s, 'E' as byte);
    var e := WithParser(s, s.core.parser.(mode := Escape, remaining := 0));
    EscapesIndex(e);
    var home := MoveTo(WithMode(e, Ground), e.core.cursor.row, 0);
    IndexingGoesOneLineOn(home);
    SameScreenOneLineOn(s, home, IndexDown(home), 0);
  }

  /** ESC M goes one line back: on the region's first row it scrolls the other way. */
  lemma EscapeGoesOneLineBack(s: State)
    requires s.Valid() && Listens(s)
    ensures var g, row, top, limit := s.core.Cells(), s.core.cursor.row, s.core.margins.top, s.core.margins.bottom + 1;
            var t := Feed(s, [ESC, 'M' as byte]);
            && t.core == s.core.(buffers := t.core.buffers, cursor := t.core.cursor, parser := t.core.parser)
            && t.core.parser.mode == Ground && t.replies == s.replies
            && t.core.Cells() == (if row == top then g[..top] + [BlankLine(s)] + g[top..limit - 1] + g[limit..] else g)
            && t.core.cursor == Cursor(if row == top || row == 0 then row else row - 1, s.core.cursor.column, false)
  {
    hide ScrollDown, HandleEscapeByte, Feed, BlankRow, Renderable, Sized, Display.Valid;
    EscapeIsRead(s, 'M' as byte);
    var e := WithParser(s, s.core.parser.(mode := Escape, remaining := 0));
    EscapesIndex(e);
    ScrollingIsSplicing(NoWrap(WithMode(e, Ground)), 1);
    assert Repeat(1, BlankLine(s)) == [BlankLine(s)];
  }

  /** ESC c blanks the displayed grid in the default colours, writes in them again, and resets cursor and
      margins, but not a pending wrap, the modes or the saved place. */
  lemma EscapeResets(s: State)
    requires s.Valid() && Listens(s)
    ensures var t := Feed(s, [ESC, 'c' as byte]);
            && t.core == s.core.(buffers := t.core.buffers, pen := t.core.pen, parser := t.core.parser,
                                 cursor := Cursor(0, 0, s.core.cursor.wrapPending), margins := Margins(0, s.core.rows - 1))
            && t.core.pen == s.core.pen.(foreground := s.core.pen.defaultForeground,
                                         background := s.core.pen.defaultBackground, bold := false, reverse := false)
            && t.core.parser.mode == Ground && t.replies == s.replies
            && t.core.buffers == s.core.buffers.WithCells(t.core.Cells())
            && (forall r, c | 0 <= r < s.core.rows && 0 <= c < s.core.columns ::
                  t.core.Cells()[r][c] == Blank(s.core.pen.DefaultAttribute()))
  {
    hide IndexDown, IndexUp, Feed, Pen.Attribute, Pen.DefaultAttribute;
    EscapeIsRead(s, 'c' as byte);
    SameDefault(s.core.pen);
  }

  lemma SameDefault(pen: Pen)
    ensures pen.Reset().DefaultAttribute() == pen.DefaultAttribute()
  {
  }

  // ---------- The saved place ----------

  /** The two bytes that save a place: ESC 7 and ESC [ ... s. */
  predicate Saves(s: State, b: byte) {
    (s.core.parser.mode == Escape && b == '7' as byte) || (s.core.parser.mode == Csi && b == 's' as byte)
  }

  lemma StepKeepsSaved(s: State, b: byte)
    requires s.Valid() && !Saves(s, b)
    ensures Step(s, b).core.saved == s.core.saved
  {
    hide HandleGroundByte, HandleEscapeByte, HandleCsi;
    if b != ESC {
      match s.core.parser.mode
      case Ground => GroundKeepsSaved(s, b);
      case Escape => EscapeKeepsSaved(s, b);
      case Csi =>
        if 0x40 <= b <= 0x7e {
          CsiKeepsSaved(s, b);
        }
      case Osc =>
      case OscEscape =>
    }
  }

  lemma GroundKeepsSaved(s: State, b: byte)
    requires s.Valid() && s.core.parser.mode == Ground
    ensures HandleGroundByte(s, b).core.saved == s.core.saved
  {
    hide PutCharacter, IndexDown;
  }

  lemma EscapeKeepsSaved(s: State, b: byte)
    requires s.Valid() && s.core.parser.mode == Escape && b != '7' as byte
    ensures HandleEscapeByte(s, b).core.saved == s.core.saved
  {
    hide IndexDown, IndexUp, ClearedScreen;
  }

  lemma CsiKeepsSaved(s: State, b: byte)
    requires s.Valid() && b != 's' as byte
    ensures HandleCsi(s, b).core.saved == s.core.saved
  {
    hide HandleEditing, SetModes, SelectGraphicRendition, SetScrollRegion, DeviceStatus, RestoreCursor, CursorMoved;
  }

  ghost predicate NeverSaves(s: State, data: seq<byte>)
    requires s.Valid()
  {
    forall n: nat | n < |data| :: !Saves(Feed(s, data[..n]), data[n])
  }

  lemma {:induction false} FeedKeepsSaved(s: State, data: seq<byte>)
    requires s.Valid() && NeverSaves(s, data)
    ensures Feed(s, data).core.saved == s.core.saved && Feed(s, data).core.rows == s.core.rows
         && Feed(s, data).core.columns == s.core.columns
    decreases |data|
  {
    hide Step, Saves;
    FeedKeeps(s, data, false);
    if data == [] {
      FeedNothing(s);
    } else {
      var front := data[..|data| - 1];
      forall n: nat | n < |front| ensures !Saves(Feed(s, front[..n]), front[n]) {
        assert front[..n] == data[..n];
      }
      FeedKeepsSaved(s, front);
      StepKeepsSaved(Feed(s, front), data[|data| - 1]);
    }
  }

  /** ESC 7, any bytes that do not save again, and ESC 8: the cursor is back where it was. */
  lemma RestoreReturnsToTheLastSave(s: State, data: seq<byte>)
    requires s.Valid() && Listens(s)
    requires NeverSaves(Feed(s, [ESC, '7' as byte]), data) && Listens(Feed(Feed(s, [ESC, '7' as byte]), data))
    ensures var t := Feed(Feed(Feed(s, [ESC, '7' as byte]), data), [ESC, '8' as byte]);
            t.core.cursor.row == s.core.cursor.row && t.core.cursor.column == s.core.cursor.column
  {
    hide Feed;
    var t := Feed(s, [ESC, '7' as byte]);
    EscapesSaveAndRestore(s);
    FeedKeepsSaved(t, data);
    EscapesSaveAndRestore(Feed(t, data));
  }

  // ---------- Placing sequences ----------

  /** The i-th written parameter; one that was not written is empty. */
  function Given(values: seq<int>, i: nat): int {
    if i < |values| then values[i] else -1
  }

  lemma ParametersAreGiven(s: State, private: bool, values: seq<int>)
    requires s.Valid() && Writable(values)
    ensures var p := Dispatched(s, private, values).core.parser;
            && p.NonZeroParameter(0) == Count(Given(values, 0)) && p.NonZeroParameter(1) == Count(Given(values, 1))
            && p.Parameter(0, 0) == Max(Given(values, 0), 0)
            && forall default :: p.Parameter(1, default) == if Given(values, 1) < 0 then default else Given(values, 1)
  {
  }

  /** A sequence that moves the cursor somewhere on the screen. */
  lemma SequencePlaces(s: State, values: seq<int>, final: byte)
    requires s.Valid() && Listens(s) && Writable(values) && 0x40 <= final <= 0x7e
    requires final as char !in "JKLM@PXSTmsurhlnc"
    ensures var place := CursorMoved(NoWrap(Dispatched(s, false, values)).core, final);
            Placed(s, Feed(s, ControlSequence(false, values, final)), place.0, place.1)
  {
    hide Feed, ControlSequence, CursorMoved, HandleCsi, Dispatched, NoWrap, State.Valid;
    DispatchedScreen(s, false, values);
    ControlSequenceIsRead(s, false, values, final);
    MotionIsCarriedOut(Dispatched(s, false, values), final);
  }

  lemma MotionIsCarriedOut(d: State, final: byte)
    requires d.Valid() && final as char !in "JKLM@PXSTmsurhlnc"
    ensures var place := CursorMoved(NoWrap(d).core, final);
            HandleCsi(d, final) == d.(core := d.core.(cursor := Cursor(place.0, place.1, false)))
  {
    hide CursorMoved, HandleEditing, SelectGraphicRendition, SaveCursor, RestoreCursor, SetScrollRegion, SetModes,
         DeviceStatus, QueueReply;
  }

  /** ESC [ n A, B, C and D: n up, down, right or left, but not off the screen. */
  lemma CursorIsMoved(s: State, values: seq<int>)
    requires s.Valid() && Listens(s) && Writable(values)
    ensures var n, row, column := Count(Given(values, 0)), s.core.cursor.row, s.core.cursor.column;
            && Placed(s, Feed(s, ControlSequence(false, values, 'A' as byte)), Max(row - n, 0), column)
            && Placed(s, Feed(s, ControlSequence(false, values, 'B' as byte)), Min(row + n, s.core.rows - 1), column)
            && Placed(s, Feed(s, ControlSequence(false, values, 'C' as byte)), row, Min(column + n, s.core.columns - 1))
            && Placed(s, Feed(s, ControlSequence(false, values, 'D' as byte)), row, Max(column - n, 0))
  {
    hide Feed, ControlSequence, Placed, Dispatched, CursorMoved, Listens, State.Valid, NoWrap, Count, Given, Min, Max;
    MotionsOf(s, values);
    SequencePlaces(s, values, 'A' as byte);
    SequencePlaces(s, values, 'B' as byte);
    SequencePlaces(s, values, 'C' as byte);
    SequencePlaces(s, values, 'D' as byte);
  }

  /** ESC [ n E and F: the start of the line n further on or back; G: column n; d: row n; H and f:
      row and column. Counting starts at 1, what is missing or zero is 1, and what lies off the
      screen is its last row or column. */
  lemma CursorIsPlaced(s: State, values: seq<int>)
    requires s.Valid() && Listens(s) && Writable(values)
    ensures var n, m, row, column := Count(Given(values, 0)), Count(Given(values, 1)), s.core.cursor.row, s.core.cursor.column;
            var lastRow, lastColumn := s.core.rows - 1, s.core.columns - 1;
            && Placed(s, Feed(s, ControlSequence(false, values, 'E' as byte)), Min(row + n, lastRow), 0)
            && Placed(s, Feed(s, ControlSequence(false, values, 'F' as byte)), Max(row - n, 0), 0)
            && Placed(s, Feed(s, ControlSequence(false, values, 'G' as byte)), row, Min(n - 1, lastColumn))
            && Placed(s, Feed(s, ControlSequence(false, values, 'd' as byte)), Min(n - 1, lastRow), column)
            && Placed(s, Feed(s, ControlSequence(false, values, 'H' as byte)), Min(n - 1, lastRow), Min(m - 1, lastColumn))
            && Placed(s, Feed(s, ControlSequence(false, values, 'f' as byte)), Min(n - 1, lastRow), Min(m - 1, lastColumn))
  {
    hide Feed, ControlSequence, Placed, Dispatched, CursorMoved, Listens, State.Valid, NoWrap, Count, Given, Min, Max;
    MotionsOf(s, values);
    SequencePlaces(s, values, 'E' as byte);
    SequencePlaces(s, values, 'F' as byte);
    SequencePlaces(s, values, 'G' as byte);
    SequencePlaces(s, values, 'd' as byte);
    SequencePlaces(s, values, 'H' as byte);
    SequencePlaces(s, values, 'f' as byte);
  }

  lemma MotionsOf(s: State, values: seq<int>)
    requires s.Valid() && Writable(values)
    ensures var c := NoWrap(Dispatched(s, false, values)).core;
            var n, m, row, column := Count(Given(values, 0)), Count(Given(values, 1)), s.core.cursor.row, s.core.cursor.column;
            var lastRow, lastColumn := s.core.rows - 1, s.core.columns - 1;
            && CursorMoved(c, 'A' as byte) == (Max(row - n, 0), column) && CursorMoved(c, 'B' as byte) == (Min(row + n, lastRow), column)
            && CursorMoved(c, 'C' as byte) == (row, Min(column + n, lastColumn)) && CursorMoved(c, 'D' as byte) == (row, Max(column - n, 0))
            && CursorMoved(c, 'E' as byte) == (Min(row + n, lastRow), 0) && CursorMoved(c, 'F' as byte) == (Max(row - n, 0), 0)
            && CursorMoved(c, 'G' as byte) == (row, Min(n - 1, lastColumn)) && CursorMoved(c, 'd' as byte) == (Min(n - 1, lastRow), column)
            && CursorMoved(c, 'H' as byte) == (Min(n - 1, lastRow), Min(m - 1, lastColumn))
            && CursorMoved(c, 'f' as byte) == (Min(n - 1, lastRow), Min(m - 1, lastColumn))
  {
    hide Dispatched, CursorMoved, Count, Given;
    ParametersAreGiven(s, false, values);
    DispatchedScreen(s, false, values);
    MotionsMean(NoWrap(Dispatched(s, false, values)).core);
  }

  lemma MotionsMean(c: Core)
    requires c.Valid()
    ensures var n, m, row, column := c.parser.NonZeroParameter(0), c.parser.NonZeroParameter(1), c.cursor.row, c.cursor.column;
            && CursorMoved(c, 'A' as byte) == (Max(row - n, 0), column)
            && CursorMoved(c, 'B' as byte) == (Min(row + n, c.rows - 1), column)
            && CursorMoved(c, 'C' as byte) == (row, Min(column + n, c.columns - 1))
            && CursorMoved(c, 'D' as byte) == (row, Max(column - n, 0))
            && CursorMoved(c, 'E' as byte) == (Min(row + n, c.rows - 1), 0)
            && CursorMoved(c, 'F' as byte) == (Max(row - n, 0), 0)
            && CursorMoved(c, 'G' as byte) == (row, Min(n - 1, c.columns - 1))
            && CursorMoved(c, 'd' as byte) == (Min(n - 1, c.rows - 1), column)
            && CursorMoved(c, 'H' as byte) == (Min(n - 1, c.rows - 1), Min(m - 1, c.columns - 1))
            && CursorMoved(c, 'f' as byte) == CursorMoved(c, 'H' as byte)
  {
  }

  lemma DispatchedScreen(s: State, private: bool, values: seq<int>)
    requires s.Valid() && Writable(values)
    ensures var d := Dispatched(s, private, values);
            d.core == s.core.(parser := d.core.parser) && d.display == s.display && d.replies == s.replies
            && d.core.parser.private == private && d.core.parser.count == |values|
            && d.core.parser.parameters[..|values|] == values
  {
  }

  /** ESC [ s saves the place, ESC [ u goes to the saved one; both forget a pending wrap. */
  lemma SequencesSaveAndRestore(s: State, values: seq<int>)
    requires s.Valid() && Listens(s) && Writable(values)
    ensures var t := Feed(s, ControlSequence(false, values, 's' as byte));
            && t.core == s.core.(saved := Place(s.core.cursor.row, s.core.cursor.column),
                                 cursor := s.core.cursor.(wrapPending := false), parser := t.core.parser)
            && t.core.parser.mode == Ground && t.display == s.display && t.replies == s.replies
    ensures Placed(s, Feed(s, ControlSequence(false, values, 'u' as byte)), s.core.saved.row, s.core.saved.column)
  {
    hide Feed, ControlSequence;
    ControlSequenceIsRead(s, false, values, 's' as byte);
    ControlSequenceIsRead(s, false, values, 'u' as byte);
  }

  /** ESC [ first ; last r: a region of at least two rows on the screen becomes the scroll region
      and the cursor goes home; any other request only forgets a pending wrap. */
  lemma ScrollRegionIsSet(s: State, values: seq<int>)
    requires s.Valid() && Listens(s) && Writable(values)
    ensures var first, last := Count(Given(values, 0)), if Given(values, 1) < 0 then s.core.rows else Given(values, 1);
            var t := Feed(s, ControlSequence(false, values, 'r' as byte));
            if first < last <= s.core.rows then
              && t.core == s.core.(margins := Margins(first - 1, last - 1), cursor := Cursor(0, 0, false), parser := t.core.parser)
              && t.core.parser.mode == Ground && t.display == s.display && t.replies == s.replies
            else Placed(s, t, s.core.cursor.row, s.core.cursor.column)
  {
    hide Feed, ControlSequence, Dispatched;
    ParametersAreGiven(s, false, values);
    DispatchedScreen(s, false, values);
    ControlSequenceIsRead(s, false, values, 'r' as byte);
  }

  /** A final byte without a meaning only forgets a pending wrap. */
  lemma OtherSequencesAreIgnored(s: State, private: bool, values: seq<int>, final: byte)
    requires s.Valid() && Listens(s) && Writable(values) && 0x40 <= final <= 0x7e
    requires final as char !in "ABCDEFGHJKLMPSTX@fdmsurhlnc"
    ensures Placed(s, Feed(s, ControlSequence(private, values, final)), s.core.cursor.row, s.core.cursor.column)
  {
    hide Feed, ControlSequence, HandleCsi, Dispatched;
    DispatchedScreen(s, private, values);
    ControlSequenceIsRead(s, private, values, final);
    MotionIsCarriedOut(Dispatched(s, private, values), final);
  }

  // ---------- Modes ----------

  /** A mode other than the alternate screen's is set or reset by its number: 1 and 25 are private
      modes, 4 is not, and the same number in the other family means nothing. */
  lemma ModeIsSet(s: State, private: bool, value: int, enable: bool)
    requires s.Valid() && Listens(s) && -1 <= value <= MAX_PARAMETER && !(private && SwitchesScreen(value))
    ensures var t := Feed(s, ControlSequence(private, [value], if enable then 'h' as byte else 'l' as byte));
            && t.core == s.core.(modes := t.core.modes, cursor := s.core.cursor.(wrapPending := false), parser := t.core.parser)
            && t.core.parser.mode == Ground && t.display == s.display && t.replies == s.replies
            && t.core.modes == (if private && value == 1 then s.core.modes.(applicationCursor := enable)
                                else if private && value == 25 then s.core.modes.(cursorVisible := enable)
                                else if !private && value == 4 then s.core.modes.(insert := enable)
                                else s.core.modes)
  {
    hide Feed, ControlSequence, HandleCsi, Dispatched;
    ControlSequenceIsRead(s, private, [value], if enable then 'h' as byte else 'l' as byte);
    DispatchedScreen(s, private, [value]);
    ModeIsCarriedOut(Dispatched(s, private, [value]), value, enable);
  }

  lemma ModeIsCarriedOut(d: State, value: int, enable: bool)
    requires d.Valid() && d.core.parser.count == 1 && d.core.parser.parameters[..1] == [value]
    requires !(d.core.parser.private && SwitchesScreen(value))
    ensures var t, private := HandleCsi(d, if enable then 'h' as byte else 'l' as byte), d.core.parser.private;
            && t.display == d.display && t.replies == d.replies
            && t.core == d.core.(modes := t.core.modes, cursor := d.core.cursor.(wrapPending := false))
            && t.core.modes == (if private && value == 1 then d.core.modes.(applicationCursor := enable)
                                else if private && value == 25 then d.core.modes.(cursorVisible := enable)
                                else if !private && value == 4 then d.core.modes.(insert := enable)
                                else d.core.modes)
  {
    hide SetAlternateScreen;
    assert d.core.parser.parameters[0] == d.core.parser.parameters[..1][0];
    assert SetModes(NoWrap(d), enable, 0) == NoWrap(d);
  }

  lemma SetModeIgnoresParser(s: State, p: Parser, value: int, enable: bool)
    requires s.Valid() && p.Valid() && p.private == s.core.parser.private
    ensures SetMode(WithParser(s, p), value, enable) == WithParser(SetMode(s, value, enable), p)
  {
    hide BlankGrid, Screen.Cleared, Display.Marked, Pen.Attribute, Pen.DefaultAttribute;
  }

  lemma {:induction false} SetModesReadOn(s: State, p: Parser, enable: bool, n: nat)
    requires s.Valid() && p.Valid() && p.private == s.core.parser.private && n <= p.count && n <= s.core.parser.count
    requires p.parameters[..n] == s.core.parser.parameters[..n]
    ensures SetModes(WithParser(s, p), enable, n) == WithParser(SetModes(s, enable, n), p)
  {
    hide SetMode, Renderable, Sized, Display.Valid;
    if n > 0 {
      var q := s.core.parser;
      assert p.parameters[..n - 1] == p.parameters[..n][..n - 1] && q.parameters[..n - 1] == q.parameters[..n][..n - 1];
      assert p.parameters[n - 1] == p.parameters[..n][n - 1] && q.parameters[n - 1] == q.parameters[..n][n - 1];
      SetModesReadOn(s, p, enable, n - 1);
      SetModeIgnoresParser(SetModes(s, enable, n - 1), p, p.Parameter(n - 1, 0), enable);
    }
  }

  /** A list of modes sets its modes one after the other. */
  lemma ModesAreSetInOrder(s: State, private: bool, values: seq<int>, last: int, enable: bool)
    requires s.Valid() && Listens(s) && Writable(values) && Writable(values + [last])
    ensures var final := if enable then 'h' as byte else 'l' as byte;
            var t := Feed(s, ControlSequence(private, values + [last], final));
            var u := Feed(Feed(s, ControlSequence(private, values, final)), ControlSequence(private, [last], final));
            t.core == u.core.(parser := t.core.parser) && t.display == u.display && t.replies == u.replies
  {
    hide Feed, ControlSequence, SetModes, SetMode, State.Valid;
    assert (values + [last])[|values|] == last;
    var n := |values|;
    var all := ModesAreFed(s, private, values + [last], enable);
    var front := ModesAreFed(s, private, values, enable);
    var before := WithParser(NoWrap(s), front);
    var reached := SetModes(before, enable, n);
    var middle := WithMode(reached, Ground);
    var single := ModesAreFed(middle, private, [last], enable);
    assert all.parameters[..n] == all.parameters[..n + 1][..n];
    LastModeIsSet(before, all, n, enable);
    WrapStaysForgotten(before, enable, n);
    OneModeIsSet(reached, single, enable);
    SameParameter(all, n, single, last);
  }

  lemma SameParameter(p: Parser, n: nat, q: Parser, value: int)
    requires p.Valid() && q.Valid() && n < p.count
    requires p.parameters[..n + 1][n] == value && q.parameters[..1] == [value]
    ensures p.Parameter(n, 0) == q.Parameter(0, 0)
  {
    assert q.parameters[0] == q.parameters[..1][0];
  }

  /** A sequence of modes sets them with the written parameters at hand. */
  lemma ModesAreFed(s: State, private: bool, values: seq<int>, enable: bool) returns (p: Parser)
    requires s.Valid() && Listens(s) && Writable(values)
    ensures p.Valid() && p.private == private && p.count == |values| && p.parameters[..|values|] == values && p.remaining == 0
    ensures Feed(s, ControlSequence(private, values, if enable then 'h' as byte else 'l' as byte))
         == WithMode(SetModes(WithParser(NoWrap(s), p), enable, |values|), Ground)
  {
    hide Feed, ControlSequence, HandleCsi, Dispatched, SetModes;
    var d := Dispatched(s, private, values);
    ControlSequenceIsRead(s, private, values, if enable then 'h' as byte else 'l' as byte);
    DispatchedScreen(s, private, values);
    ModesAreCarriedOut(d, enable);
    p := d.core.parser;
    assert NoWrap(d) == WithParser(NoWrap(s), p);
    ParserAtRest(s, private, values);
  }

  lemma ParserAtRest(s: State, private: bool, values: seq<int>)
    requires s.Valid() && Writable(values)
    ensures Dispatched(s, private, values).core.parser.remaining == 0
  {
  }

  lemma ModesAreCarriedOut(d: State, enable: bool)
    requires d.Valid()
    ensures HandleCsi(d, if enable then 'h' as byte else 'l' as byte) == SetModes(NoWrap(d), enable, d.core.parser.count)
  {
    hide SetModes;
  }

  lemma LastModeIsSet(s: State, p: Parser, n: nat, enable: bool)
    requires s.Valid() && p.Valid() && p.private == s.core.parser.private && p.count == n + 1 && s.core.parser.count == n
    requires p.parameters[..n] == s.core.parser.parameters[..n]
    ensures SetModes(WithParser(s, p), enable, n + 1)
         == WithParser(SetMode(SetModes(s, enable, n), p.Parameter(n, 0), enable), p)
  {
    hide SetMode;
    SetModesReadOn(s, p, enable, n);
    SetModeIgnoresParser(SetModes(s, enable, n), p, p.Parameter(n, 0), enable);
  }

  lemma OneModeIsSet(s: State, p: Parser, enable: bool)
    requires s.Valid() && p.Valid() && p.private == s.core.parser.private
    ensures SetModes(WithParser(s, p), enable, 1) == WithParser(SetMode(s, p.Parameter(0, 0), enable), p)
  {
    hide SetMode;
    assert SetModes(WithParser(s, p), enable, 0) == WithParser(s, p);
    SetModeIgnoresParser(s, p, p.Parameter(0, 0), enable);
  }

  lemma WrapStaysForgotten(s: State, enable: bool, n: nat)
    requires s.Valid() && !s.core.cursor.wrapPending
    ensures !SetModes(s, enable, n).core.cursor.wrapPending
  {
    ModesNeverSetWrap(s, enable, n);
  }

  /** Entering the alternate screen: it is blank in the default colours, the cursor and the margins are
      reset, and the primary grid and the place left there are kept. */
  lemma AlternateIsEntered(s: State, value: int)
    requires s.Valid() && Listens(s) && SwitchesScreen(value) && !s.core.buffers.alternateActive
    ensures var t := Feed(s, ControlSequence(true, [value], 'h' as byte));
            && t.core == s.core.(buffers := t.core.buffers, cursor := Cursor(0, 0, false),
                                 primaryPlace := Place(s.core.cursor.row, s.core.cursor.column),
                                 margins := Margins(0, s.core.rows - 1), parser := t.core.parser)
            && t.core.parser.mode == Ground && t.replies == s.replies
            && t.core.buffers.alternateActive && t.core.buffers.primary == s.core.buffers.primary
            && (forall r, c | 0 <= r < s.core.rows && 0 <= c < s.core.columns ::
                  t.core.Cells()[r][c] == Blank(s.core.pen.DefaultAttribute()))
  {
    hide Feed, ControlSequence, HandleCsi, Dispatched;
    ControlSequenceIsRead(s, true, [value], 'h' as byte);
    DispatchedScreen(s, true, [value]);
    EntryIsCarriedOut(Dispatched(s, true, [value]), value);
  }

  lemma EntryIsCarriedOut(d: State, value: int)
    requires d.Valid() && d.core.parser.count == 1 && d.core.parser.parameters[..1] == [value] && d.core.parser.private
    requires SwitchesScreen(value) && !d.core.buffers.alternateActive
    ensures var t := HandleCsi(d, 'h' as byte);
            && t.core == d.core.(buffers := t.core.buffers, cursor := Cursor(0, 0, false),
                                 primaryPlace := Place(d.core.cursor.row, d.core.cursor.column),
                                 margins := Margins(0, d.core.rows - 1))
            && t.replies == d.replies && t.core.buffers.alternateActive && t.core.buffers.primary == d.core.buffers.primary
            && (forall r, c | 0 <= r < d.core.rows && 0 <= c < d.core.columns ::
                  t.core.Cells()[r][c] == Blank(d.core.pen.DefaultAttribute()))
  {
    hide Pen.Attribute, Pen.DefaultAttribute;
    assert d.core.parser.parameters[0] == d.core.parser.parameters[..1][0];
    assert SetModes(NoWrap(d), true, 0) == NoWrap(d);
  }

  // ---------- Characters ----------

  /** A character goes into the cell at the cursor, or with insert mode in front of it, pushing the
      rest of the line right; the cursor goes on, or waits in the last column for the next one. */
  lemma CharacterIsPut(s: State, character: char16)
    requires s.Valid() && character != 0 && !s.core.cursor.wrapPending
    ensures var t, g, row, column, width := PutCharacter(s, character), s.core.Cells(), s.core.cursor.row, s.core.cursor.column, s.core.columns;
            var cell := Cell(character, s.core.pen.Attribute());
            && t.core == s.core.(buffers := t.core.buffers, cursor := Cursor(row, Min(column + 1, width - 1), column + 1 == width))
            && t.replies == s.replies
            && t.core.Cells() == g[row := if s.core.modes.insert && column + 1 < width
                                          then g[row][..column] + [cell] + g[row][column..width - 1]
                                          else g[row][column := cell]]
  {
    hide IndexDown, Pen.Attribute, Display.Marked, Pushed;
    var line, column, width := s.core.Cells()[s.core.cursor.row], s.core.cursor.column, s.core.columns;
    var cell := Cell(character, s.core.pen.Attribute());
    PushedIsSplice(line, column, width, 1, cell);
    assert Repeat(1, cell) == [cell];
    assert line[..column] + [cell] + line[column..width - 1] + line[width..] == line[..column] + [cell] + line[column..width - 1];
  }

  /** The character a decoded code point shows as: itself, or '?' when it is none of the characters a
      cell can hold. */
  function Stand(codePoint: nat): (character: char16) {
    if 0 < codePoint < 0xd800 || 0xe000 <= codePoint <= 0xffff then codePoint else 0x3f
  }

  /** Two bytes put what their bits mean, overlong forms included; and so do three and four. */
  lemma TwoBytesArePut(s: State, a: nat, b: nat)
    requires s.Valid() && AtRest(s) && a < 0x20 && b < 0x40
    ensures var k := a * 0x40 + b;
            Feed(s, [0xc0 + a, 0x80 + b]) == WithCodePoint(PutCharacter(s, Stand(k)), k)
  {
    hide EmitCodePoint, PutCharacter, Feed, WithCodePoint;
    PairIsRead(s, a, b);
    CodePointStands(s, a * 0x40 + b);
  }

  lemma ThreeBytesArePut(s: State, a: nat, b: nat, c: nat)
    requires s.Valid() && AtRest(s) && a < 0x10 && b < 0x40 && c < 0x40
    ensures var k := (a * 0x40 + b) * 0x40 + c;
            Feed(s, [0xe0 + a, 0x80 + b, 0x80 + c]) == WithCodePoint(PutCharacter(s, Stand(k)), k)
  {
    hide EmitCodePoint, PutCharacter, Feed, WithCodePoint;
    TripleIsRead(s, a, b, c);
    CodePointStands(s, (a * 0x40 + b) * 0x40 + c);
  }

  lemma FourBytesArePut(s: State, a: nat, b: nat, c: nat, d: nat)
    requires s.Valid() && AtRest(s) && a < 8 && b < 0x40 && c < 0x40 && d < 0x40
    ensures var k := ((a * 0x40 + b) * 0x40 + c) * 0x40 + d;
            Feed(s, [0xf0 + a, 0x80 + b, 0x80 + c, 0x80 + d]) == WithCodePoint(PutCharacter(s, Stand(k)), k)
  {
    hide EmitCodePoint, PutCharacter, Feed, WithCodePoint;
    QuadrupleIsRead(s, a, b, c, d);
    CodePointStands(s, ((a * 0x40 + b) * 0x40 + c) * 0x40 + d);
  }

  lemma CodePointStands(s: State, codePoint: nat)
    requires s.Valid() && AtRest(s) && codePoint < 0x20_0000
    ensures EmitCodePoint(WithCodePoint(s, codePoint), codePoint) == WithCodePoint(PutCharacter(s, Stand(codePoint)), codePoint)
  {
    hide PutCharacter;
    PutIgnoresParser(s, Stand(codePoint), s.core.parser.(codePoint := codePoint));
  }

  lemma QuadrupleIsRead(s: State, a: nat, b: nat, c: nat, d: nat)
    requires s.Valid() && AtRest(s) && a < 8 && b < 0x40 && c < 0x40 && d < 0x40
    ensures var codePoint := ((a * 0x40 + b) * 0x40 + c) * 0x40 + d;
            Feed(s, [0xf0 + a, 0x80 + b, 0x80 + c, 0x80 + d]) == EmitCodePoint(WithCodePoint(s, codePoint), codePoint)
  {
    hide EmitCodePoint, Step, Feed, Awaiting, WithCodePoint;
    ThreeOfFourAreRead(s, a, b, c);
    ContinuationIsRead(s, 1, (a * 0x40 + b) * 0x40 + c, d);
    FeedLast(s, [0xf0 + a, 0x80 + b, 0x80 + c], 0x80 + d);
    assert [0xf0 + a, 0x80 + b, 0x80 + c] + [0x80 + d] == [0xf0 + a, 0x80 + b, 0x80 + c, 0x80 + d];
  }

  lemma ThreeOfFourAreRead(s: State, a: nat, b: nat, c: nat)
    requires s.Valid() && AtRest(s) && a < 8 && b < 0x40 && c < 0x40
    ensures Feed(s, [0xf0 + a, 0x80 + b, 0x80 + c]) == Awaiting(s, 1, (a * 0x40 + b) * 0x40 + c)
  {
    hide EmitCodePoint, Step, Feed, Awaiting, WithCodePoint;
    LongLeadIsRead(s, a);
    ContinuationIsRead(s, 3, a, b);
    ContinuationIsRead(s, 2, a * 0x40 + b, c);
    ThreeBytes(s, 0xf0 + a, 0x80 + b, 0x80 + c);
  }

  lemma LongLeadIsRead(s: State, bits: nat)
    requires s.Valid() && AtRest(s) && bits < 8
    ensures Step(s, 0xf0 + bits) == Awaiting(s, 3, bits)
  {
    hide PutCharacter, IndexDown, HandleEscapeByte, HandleCsi;
  }

  /** A sequence cut short shows as one replacement character, and the byte that cut it counts in full. */
  lemma CutSequenceIsReplaced(s: State, remaining: nat, codePoint: nat, b: byte)
    requires s.Valid() && AtRest(s) && remaining >= 1 && Partial(remaining, codePoint) && !(0x80 <= b < 0xc0) && b != ESC
    ensures Feed(Awaiting(s, remaining, codePoint), [b])
         == Feed(WithCodePoint(PutCharacter(s, 0xfffd), codePoint), [b])
  {
    hide PutCharacter, HandleFirstByte, HandleEscapeByte, HandleCsi;
    var t := Awaiting(s, remaining, codePoint);
    FeedOne(t, b);
    FeedOne(WithCodePoint(PutCharacter(s, 0xfffd), codePoint), b);
    PutIgnoresParser(s, 0xfffd, s.core.parser.(codePoint := codePoint));
    assert b / 0x40 != 2;
  }

  // ---------- A new terminal ----------

  /** A new terminal writes on two blank grids from the top left corner, in the colours it finds, with the
      cursor visible and every other mode off, nothing queued and nothing to repaint. */
  lemma NewTerminalIs(columns: nat, rows: nat, console: Screen)
    requires 1 <= columns <= MAX_UINT16 && 1 <= rows <= MAX_UINT16 && Sized(console.cells, rows, columns)
    ensures var s := Created(columns, rows, console);
            && s.core.cursor == Cursor(0, 0, false) && s.core.saved == Place(0, 0) && s.core.margins == Margins(0, rows - 1)
            && s.core.modes == Modes(true, false, false) && !s.core.buffers.alternateActive && AtRest(s)
            && s.replies == [] && s.display.console == console
            && s.core.pen.foreground == s.core.pen.defaultForeground == console.attribute % 16
            && s.core.pen.background == s.core.pen.defaultBackground == console.attribute / 16 % 8
            && !s.core.pen.bold && !s.core.pen.reverse
            && forall r: nat, c: nat | r < rows && c < columns ::
                 s.core.Cells()[r][c] == Blank(s.core.pen.DefaultAttribute()) && !s.display.InSpan(r, c)
  {
    hide Pen.Attribute, Pen.DefaultAttribute;
  }
}
