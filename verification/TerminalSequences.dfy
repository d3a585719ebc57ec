/** What the bytes of each sequence do to the screen, said in terms of the old screen alone. */
module TerminalSequences {
  import opened Basics
  import opened Grids
  import opened TerminalState
  import opened TerminalRendering
  import opened TerminalParsing
  import opened TerminalEditing
  import opened TerminalCommands
  import opened TerminalCuts

  /** A sequence with one parameter, which may be empty (-1). */
  function Sequence(value: int, final: byte): seq<byte>
    requires -1 <= value <= MAX_PARAMETER
  {
    ControlSequence(false, [value], final)
  }

  /** A missing count, or one of zero, means one. */
  function Count(value: int): nat {
    if value <= 0 then 1 else value
  }

  /** From s to t the displayed grid became g, a pending wrap was forgotten, and nothing else that
      later bytes depend on changed. */
  predicate Edited(s: State, t: State, g: Grid) {
    && t.core == s.core.(buffers := t.core.buffers, cursor := s.core.cursor.(wrapPending := false), parser := t.core.parser)
    && t.core.parser.mode == Ground && t.replies == s.replies
    && t.core.buffers == (if s.core.buffers.alternateActive then s.core.buffers.(alternate := g) else s.core.buffers.(primary := g))
  }

  predicate OnlyGridChanged(s: State, t: State) {
    t.core == s.core.WithCells(t.core.Cells()) && t.replies == s.replies
  }

  /** The state in which a sequence's final byte is carried out. */
  function At(s: State, value: int): (d: State)
    requires s.Valid() && -1 <= value <= MAX_PARAMETER
    ensures d.Valid()
  {
    NoWrap(Dispatched(s, false, [value]))
  }

  lemma SameGridAt(s: State, value: int)
    requires s.Valid() && -1 <= value <= MAX_PARAMETER
    ensures var d := At(s, value);
            && d.core == s.core.(cursor := s.core.cursor.(wrapPending := false), parser := d.core.parser)
            && d.replies == s.replies && d.core.Cells() == s.core.Cells() && BlankLine(d) == BlankLine(s)
            && d.core.parser.NonZeroParameter(0) == Count(value)
            && d.core.parser.Parameter(0, 0) == Max(value, 0)
  {
    hide BlankRow;
  }

  lemma EditingIsRead(s: State, value: int, final: byte)
    requires s.Valid() && Listens(s) && -1 <= value <= MAX_PARAMETER && IsEditing(final)
    ensures Feed(s, Sequence(value, final)) == WithMode(HandleEditing(At(s, value), final), Ground)
  {
    hide Feed, ControlSequence, HandleEditing;
    ControlSequenceIsRead(s, false, [value], final);
    EditingIsCarriedOut(Dispatched(s, false, [value]), final);
  }

  /** A sequence that ends in a state in which only cells changed. */
  lemma SequenceEdits(s: State, value: int, final: byte, u: State)
    requires s.Valid() && u.Valid() && Listens(s) && -1 <= value <= MAX_PARAMETER && IsEditing(final)
    requires HandleEditing(At(s, value), final) == u && OnlyGridChanged(At(s, value), u)
    ensures Edited(s, Feed(s, Sequence(value, final)), u.core.Cells())
  {
    hide Feed, Sequence, At, HandleEditing, OnlyGridChanged, Edited;
    EditingIsRead(s, value, final);
    OnlyCellsIsEdited(s, value, u);
  }

  lemma CellsAreGrid(s: State, t: State)
    requires OnlyCellsChanged(s, t)
    ensures OnlyGridChanged(s, t)
  {
  }

  /** Which operation a final byte stands for. */
  lemma FinalBytesMean(d: State)
    requires d.Valid()
    ensures var n, c, row := d.core.parser.NonZeroParameter(0), d.core.cursor.column, d.core.cursor.row;
            && HandleEditing(d, 'L' as byte) == InsertLines(d, n) && HandleEditing(d, 'M' as byte) == DeleteLines(d, n)
            && HandleEditing(d, '@' as byte) == InsertCharacters(d, n) && HandleEditing(d, 'P' as byte) == DeleteCharacters(d, n)
            && HandleEditing(d, 'S' as byte) == ScrollUp(d, n) && HandleEditing(d, 'T' as byte) == ScrollDown(d, n)
            && HandleEditing(d, 'X' as byte) == Erased(d, row, row + 1, c, Min(d.core.columns - 1, c + n - 1))
            && HandleEditing(d, 'J' as byte) == EraseDisplay(d, d.core.parser.Parameter(0, 0))
            && HandleEditing(d, 'K' as byte) == EraseLine(d, d.core.parser.Parameter(0, 0))
  {
    hide EraseDisplay, EraseLine, InsertLines, DeleteLines, InsertCharacters, DeleteCharacters, ScrollUp, ScrollDown, Erased;
  }

  lemma EditingIsCarriedOut(d: State, final: byte)
    requires d.Valid() && IsEditing(final)
    ensures HandleCsi(d, final) == HandleEditing(NoWrap(d), final)
  {
    hide HandleEditing;
  }

  /** Changing only cells after the wrap was forgotten is editing. */
  lemma OnlyCellsIsEdited(s: State, value: int, u: State)
    requires s.Valid() && u.Valid() && -1 <= value <= MAX_PARAMETER
    requires OnlyGridChanged(At(s, value), u)
    ensures Edited(s, WithMode(u, Ground), u.core.Cells())
  {
    SameGridAt(s, value);
  }

  // ---------- Lines ----------

  lemma LineEditsAt(s: State, value: int)
    requires s.Valid() && -1 <= value <= MAX_PARAMETER
    ensures var g, row, limit := s.core.Cells(), s.core.cursor.row, s.core.margins.bottom + 1;
            var n := Min(Count(value), limit - row);
            var deleted, inserted := DeleteLines(At(s, value), Count(value)), InsertLines(At(s, value), Count(value));
            && OnlyGridChanged(At(s, value), deleted) && OnlyGridChanged(At(s, value), inserted)
            && if s.core.margins.top <= row < limit then
                 && deleted.core.Cells() == g[..row] + g[row + n..limit] + Repeat(n, BlankLine(s)) + g[limit..]
                 && inserted.core.Cells() == g[..row] + Repeat(n, BlankLine(s)) + g[row..limit - n] + g[limit..]
               else deleted.core.Cells() == g && inserted.core.Cells() == g
  {
    hide InsertLines, DeleteLines, Repeat, BlankLine, At, OnlyGridChanged, OnlyCellsChanged, State.Valid;
    SameGridAt(s, value);
    LineEditingIsSplicing(At(s, value), Count(value));
    NothingEdited(s, value);
    CellsAreGrid(At(s, value), DeleteLines(At(s, value), Count(value)));
    CellsAreGrid(At(s, value), InsertLines(At(s, value), Count(value)));
  }

  /** ESC [ n L: n blank rows are pasted in at the cursor's row, and the region's last n are lost. */
  lemma LinesAreInserted(s: State, value: int)
    requires s.Valid() && Listens(s) && -1 <= value <= MAX_PARAMETER
    ensures var g, row, limit := s.core.Cells(), s.core.cursor.row, s.core.margins.bottom + 1;
            var n := Min(Count(value), limit - row);
            Edited(s, Feed(s, Sequence(value, 'L' as byte)),
                   if s.core.margins.top <= row < limit
                   then g[..row] + Repeat(n, BlankLine(s)) + g[row..limit - n] + g[limit..] else g)
  {
    hide Feed, Sequence, HandleEditing, InsertLines, DeleteLines, Repeat, Listens, Count, BlankLine, Edited, At, OnlyGridChanged, State.Valid;
    FinalBytesMean(At(s, value));
    CountAt(s, value);
    LineEditsAt(s, value);
    SequenceEdits(s, value, 'L' as byte, InsertLines(At(s, value), Count(value)));
  }

  /** ESC [ n M: n rows are cut out at the cursor's row, and blank ones come in at the region's end. */
  lemma LinesAreDeleted(s: State, value: int)
    requires s.Valid() && Listens(s) && -1 <= value <= MAX_PARAMETER
    ensures var g, row, limit := s.core.Cells(), s.core.cursor.row, s.core.margins.bottom + 1;
            var n := Min(Count(value), limit - row);
            Edited(s, Feed(s, Sequence(value, 'M' as byte)),
                   if s.core.margins.top <= row < limit
                   then g[..row] + g[row + n..limit] + Repeat(n, BlankLine(s)) + g[limit..] else g)
  {
    hide Feed, Sequence, HandleEditing, InsertLines, DeleteLines, Repeat, Listens, Count, BlankLine, Edited, At, OnlyGridChanged, State.Valid;
    FinalBytesMean(At(s, value));
    CountAt(s, value);
    LineEditsAt(s, value);
    SequenceEdits(s, value, 'M' as byte, DeleteLines(At(s, value), Count(value)));
  }

  lemma CountAt(s: State, value: int)
    requires s.Valid() && -1 <= value <= MAX_PARAMETER
    ensures At(s, value).core.parser.NonZeroParameter(0) == Count(value)
  {
    hide At;
    SameGridAt(s, value);
  }

  lemma NothingEdited(s: State, value: int)
    requires s.Valid() && -1 <= value <= MAX_PARAMETER
    ensures OnlyCellsChanged(At(s, value), At(s, value))
  {
  }

  /** ESC [ n S: the region's first n rows are cut out and blank ones come in at its end. */
  lemma RegionIsScrolledUp(s: State, value: int)
    requires s.Valid() && Listens(s) && -1 <= value <= MAX_PARAMETER
    ensures var g, top, limit := s.core.Cells(), s.core.margins.top, s.core.margins.bottom + 1;
            var n := Min(Count(value), limit - top);
            Edited(s, Feed(s, Sequence(value, 'S' as byte)),
                   g[..top] + g[top + n..limit] + Repeat(n, BlankLine(s)) + g[limit..])
  {
    hide Feed, Sequence, HandleEditing, ScrollUp, ScrollDown, Repeat, Listens, BlankLine, Edited, At, OnlyGridChanged, OnlyCellsChanged, State.Valid;
    FinalBytesMean(At(s, value));
    SameGridAt(s, value);
    ScrollingIsSplicing(At(s, value), Count(value));
    CellsAreGrid(At(s, value), ScrollUp(At(s, value), Count(value)));
    SequenceEdits(s, value, 'S' as byte, ScrollUp(At(s, value), Count(value)));
  }

  /** ESC [ n T: n blank rows are pasted in at the region's top, and its last n are lost. */
  lemma RegionIsScrolledDown(s: State, value: int)
    requires s.Valid() && Listens(s) && -1 <= value <= MAX_PARAMETER
    ensures var g, top, limit := s.core.Cells(), s.core.margins.top, s.core.margins.bottom + 1;
            var n := Min(Count(value), limit - top);
            Edited(s, Feed(s, Sequence(value, 'T' as byte)),
                   g[..top] + Repeat(n, BlankLine(s)) + g[top..limit - n] + g[limit..])
  {
    hide Feed, Sequence, HandleEditing, ScrollUp, ScrollDown, Repeat, Listens, BlankLine, Edited, At, OnlyGridChanged, OnlyCellsChanged, State.Valid;
    FinalBytesMean(At(s, value));
    SameGridAt(s, value);
    ScrollingIsSplicing(At(s, value), Count(value));
    CellsAreGrid(At(s, value), ScrollDown(At(s, value), Count(value)));
    SequenceEdits(s, value, 'T' as byte, ScrollDown(At(s, value), Count(value)));
  }

  // ---------- Characters ----------

  /** ESC [ n @: n blanks are pasted in at the cursor, and the line's last n cells are lost. */
  lemma CharactersAreInserted(s: State, value: int)
    requires s.Valid() && Listens(s) && -1 <= value <= MAX_PARAMETER
    ensures var g, row, column, width := s.core.Cells(), s.core.cursor.row, s.core.cursor.column, s.core.columns;
            var n := Min(Count(value), width - column);
            Edited(s, Feed(s, Sequence(value, '@' as byte)),
                   g[row := g[row][..column] + Repeat(n, Blank(s.core.pen.Attribute())) + g[row][column..width - n]])
  {
    hide Feed, Sequence, HandleEditing, InsertCharacters, DeleteCharacters, Repeat, Listens, Edited, At, OnlyGridChanged, OnlyCellsChanged, State.Valid, Pen.Attribute;
    FinalBytesMean(At(s, value));
    SameGridAt(s, value);
    CharacterEditingIsSplicing(At(s, value), Count(value));
    CellsAreGrid(At(s, value), InsertCharacters(At(s, value), Count(value)));
    SequenceEdits(s, value, '@' as byte, InsertCharacters(At(s, value), Count(value)));
  }

  /** ESC [ n P: n cells are cut out at the cursor, and blanks come in at the line's end. */
  lemma CharactersAreDeleted(s: State, value: int)
    requires s.Valid() && Listens(s) && -1 <= value <= MAX_PARAMETER
    ensures var g, row, column, width := s.core.Cells(), s.core.cursor.row, s.core.cursor.column, s.core.columns;
            var n := Min(Count(value), width - column);
            Edited(s, Feed(s, Sequence(value, 'P' as byte)),
                   g[row := g[row][..column] + g[row][column + n..] + Repeat(n, Blank(s.core.pen.Attribute()))])
  {
    hide Feed, Sequence, HandleEditing, InsertCharacters, DeleteCharacters, Repeat, Listens, Edited, At, OnlyGridChanged, OnlyCellsChanged, State.Valid, Pen.Attribute;
    FinalBytesMean(At(s, value));
    SameGridAt(s, value);
    CharacterEditingIsSplicing(At(s, value), Count(value));
    CellsAreGrid(At(s, value), DeleteCharacters(At(s, value), Count(value)));
    SequenceEdits(s, value, 'P' as byte, DeleteCharacters(At(s, value), Count(value)));
  }

  /** ESC [ n X: n cells from the cursor on become blank where they are. */
  lemma CharactersAreErased(s: State, value: int)
    requires s.Valid() && Listens(s) && -1 <= value <= MAX_PARAMETER
    ensures var g, row, column, width := s.core.Cells(), s.core.cursor.row, s.core.cursor.column, s.core.columns;
            var n := Min(Count(value), width - column);
            Edited(s, Feed(s, Sequence(value, 'X' as byte)),
                   g[row := g[row][..column] + Repeat(n, Blank(s.core.pen.Attribute())) + g[row][column + n..]])
  {
    hide Feed, Sequence, HandleEditing, Edited, At, Erased, OnlyGridChanged, OnlyCellsChanged, State.Valid, Pen.Attribute, Repeat, Listens;
    FinalBytesMean(At(s, value));
    SameGridAt(s, value);
    var u := ErasedFromCursor(At(s, value), Count(value));
    CellsAreGrid(At(s, value), u);
    SequenceEdits(s, value, 'X' as byte, u);
  }

  lemma ErasedFromCursor(d: State, count: nat) returns (t: State)
    requires d.Valid() && 1 <= count
    ensures var g, row, column := d.core.Cells(), d.core.cursor.row, d.core.cursor.column;
            var n := Min(count, d.core.columns - column);
            && t.Valid() && t == Erased(d, row, row + 1, column, Min(d.core.columns - 1, column + count - 1))
            && OnlyCellsChanged(d, t)
            && t.core.Cells() == g[row := g[row][..column] + Repeat(n, Blank(d.core.pen.Attribute())) + g[row][column + n..]]
  {
    hide Erased, Pen.Attribute;
    var row, column, end := d.core.cursor.row, d.core.cursor.column, Min(d.core.columns - 1, d.core.cursor.column + count - 1);
    t := Erased(d, row, row + 1, column, end);
    ErasedInRow(d, row, column, end);
  }

  lemma ErasedInRow(d: State, row: nat, start: nat, end: nat)
    requires d.Valid() && row < d.core.rows && start <= end < d.core.columns
    ensures var g, t := d.core.Cells(), Erased(d, row, row + 1, start, end);
            && OnlyCellsChanged(d, t)
            && t.core.Cells() == g[row := g[row][..start] + Repeat(end + 1 - start, Blank(d.core.pen.Attribute())) + g[row][end + 1..]]
  {
    hide Pen.Attribute, Display.Marked;
    var g, t := d.core.Cells(), Erased(d, row, row + 1, start, end);
    var line := g[row][..start] + Repeat(end + 1 - start, Blank(d.core.pen.Attribute())) + g[row][end + 1..];
    assert t.core.Cells()[row] == line;
    assert forall r | 0 <= r < |g| && r != row :: t.core.Cells()[r] == g[r];
    MarkedKeepsConsole(d.display, row, row + 1, start, end);
  }

  lemma MarkedKeepsConsole(d: Display, first: nat, limit: nat, start: nat, end: nat)
    requires |d.dirtyStart| == |d.dirtyEnd|
    ensures d.Marked(first, limit, start, end).console == d.console
  {
  }

  // ---------- Erasing ----------

  /** ESC [ J and K: every cell either stays or becomes blank, by its place in reading order. */
  lemma DisplayIsErased(s: State, value: int, r: nat, c: nat)
    requires s.Valid() && Listens(s) && -1 <= value <= MAX_PARAMETER && r < s.core.rows && c < s.core.columns
    ensures var t, row, column := Feed(s, Sequence(value, 'J' as byte)), s.core.cursor.row, s.core.cursor.column;
            && Edited(s, t, t.core.Cells())
            && t.core.Cells()[r][c]
               == if value == 2 || value == 3 then Blank(s.core.pen.DefaultAttribute())
                  else if (if value == 1 then r < row || (r == row && c <= column) else r > row || (r == row && c >= column))
                  then Blank(s.core.pen.Attribute()) else s.core.Cells()[r][c]
  {
    hide Feed, Sequence, HandleEditing, EraseDisplay, At, Pen.Attribute, Pen.DefaultAttribute;
    FinalBytesMean(At(s, value));
    SameGridAt(s, value);
    EraseDisplayMeans(At(s, value), Max(value, 0), r, c);
    ErasingKeeps(At(s, value), Max(value, 0));
    SequenceEdits(s, value, 'J' as byte, EraseDisplay(At(s, value), Max(value, 0)));
  }

  lemma LineIsErased(s: State, value: int, r: nat, c: nat)
    requires s.Valid() && Listens(s) && -1 <= value <= MAX_PARAMETER && r < s.core.rows && c < s.core.columns
    ensures var t, row, column := Feed(s, Sequence(value, 'K' as byte)), s.core.cursor.row, s.core.cursor.column;
            && Edited(s, t, t.core.Cells())
            && t.core.Cells()[r][c]
               == if r == row && (value == 2 || (if value == 1 then c <= column else c >= column))
                  then Blank(s.core.pen.Attribute()) else s.core.Cells()[r][c]
  {
    hide Feed, Sequence, HandleEditing, EraseLine, At, Pen.Attribute, Pen.DefaultAttribute;
    FinalBytesMean(At(s, value));
    SameGridAt(s, value);
    EraseLineMeans(At(s, value), Max(value, 0), r, c);
    ErasingKeeps(At(s, value), Max(value, 0));
    SequenceEdits(s, value, 'K' as byte, EraseLine(At(s, value), Max(value, 0)));
  }

  lemma ErasingKeeps(d: State, mode: int)
    requires d.Valid()
    ensures OnlyGridChanged(d, EraseDisplay(d, mode)) && OnlyGridChanged(d, EraseLine(d, mode))
  {
    hide Filled, BlankGrid, Display.Marked, Pen.Attribute, Pen.DefaultAttribute;
  }
}
