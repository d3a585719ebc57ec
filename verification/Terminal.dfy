/** The terminal emulator as it runs: fields and buffers updated in place. View() is the
    abstract state, and every method leaves exactly the state TerminalState says it does. */
module TerminalEmulator {
  import opened Basics
  import opened Grids
  import opened FlatGrid
  import opened TerminalState

  function UntilNul(text: seq<char16>): (prefix: seq<char16>)
    ensures prefix <= text && 0 !in prefix
  {
    if text == [] || text[0] == 0 then [] else [text[0]] + UntilNul(text[1..])
  }

  lemma UntilNulStops(text: seq<char16>, n: nat)
    requires n < |text| && text[n] == 0 && 0 !in text[..n]
    ensures UntilNul(text) == text[..n]
  {
    if n > 0 {
      assert text[0] in text[..n];
      assert text[1..][..n - 1] == text[..n][1..];
      UntilNulStops(text[1..], n - 1);
    }
  }

  lemma RenderableLineHasNoNul(g: Grid, rows: nat, columns: nat, r: nat)
    requires Renderable(g, rows, columns) && r < rows
    ensures |g[r]| == columns && forall c | 0 <= c < columns :: g[r][c].character != 0
  {
    assert RenderableLine(g[r], columns);
  }

  /** The firmware's text console: characters are stored as given, and a line that reaches
      the right edge neither wraps nor scrolls. */
  class Console {
    var screen: Screen

    constructor (screen: Screen)
      ensures this.screen == screen
    {
      this.screen := screen;
    }

    method ClearScreen()
      modifies this
      ensures screen == old(screen).Cleared()
    {
      screen := screen.Cleared();
    }

    method SetAttribute(attribute: nat)
      modifies this
      ensures screen == old(screen).(attribute := attribute)
    {
      screen := screen.(attribute := attribute);
    }

    method SetCursorPosition(column: nat, row: nat)
      modifies this
      ensures screen == old(screen).(cursorRow := row, cursorColumn := column)
    {
      screen := screen.(cursorRow := row, cursorColumn := column);
    }

    method EnableCursor(visible: bool)
      modifies this
      ensures screen == old(screen).(cursorVisible := visible)
    {
      screen := screen.(cursorVisible := visible);
    }

    method OutputString(text: array<char16>)
      modifies this
      ensures screen == old(screen).Painted(
        Draw(old(screen).cursorRow, old(screen).cursorColumn, old(screen).attribute, UntilNul(text[..])))
    {
      screen := screen.Painted(Draw(screen.cursorRow, screen.cursorColumn, screen.attribute, UntilNul(text[..])));
    }
  }

  /** CopyMem of a byte string into a buffer. */
  method StoreBytes(buffer: array<byte>, at: nat, bytes: seq<byte>)
    requires at + |bytes| <= buffer.Length
    modifies buffer
    ensures buffer[..] == old(buffer[..at]) + bytes + old(buffer[at + |bytes|..])
  {
    forall i | at <= i < at + |bytes| {
      buffer[i] := bytes[i - at];
    }
  }

  /** The three console calls that paint one run. */
  method OutputAt(console: Console, row: nat, column: nat, attribute: nat, text: array<char16>)
    modifies console
    ensures console.screen == old(console.screen).Painted(Draw(row, column, attribute, UntilNul(text[..])))
  {
    console.SetAttribute(attribute);
    console.SetCursorPosition(column, row);
    console.OutputString(text);
  }

  /** Copies n cells inside a buffer, as if through a temporary. */
  method CopyMem(buffer: array<Cell>, to: nat, from: nat, n: nat)
    requires to + n <= buffer.Length && from + n <= buffer.Length
    modifies buffer
    ensures buffer[..] == old(buffer[..to]) + old(buffer[from..from + n]) + old(buffer[to + n..])
  {
    forall i | 0 <= i < n {
      buffer[to + i] := buffer[from + i];
    }
  }

  /** The copy, fill and mark loops of an upward move add up to the move. */
  lemma PulledInSteps(v: State, top: nat, bottom: nat, n: nat)
    requires v.Valid() && top <= bottom < v.core.rows && 1 <= n <= bottom - top + 1
    requires v.(core := v.core.WithCells(CopiedBack(v.core.Cells(), top, bottom + 1 - n, n))).Valid()
    ensures var copied := v.(core := v.core.WithCells(CopiedBack(v.core.Cells(), top, bottom + 1 - n, n)));
            var filled := Erased(copied, bottom + 1 - n, bottom + 1, 0, v.core.columns - 1);
            filled.(display := filled.display.Marked(top, bottom + 1, 0, v.core.columns - 1))
            == TerminalState.PullRows(v, top, bottom, n)
  {
    var g, last := v.core.Cells(), v.core.columns - 1;
    PulledByCopies(g, top, bottom + 1, n, v.core.columns, v.core.pen.Attribute());
    v.display.MarkedAbsorbs(bottom + 1 - n, bottom + 1, 0, last, top, bottom + 1, 0, last);
  }

  lemma PushedInSteps(v: State, top: nat, bottom: nat, n: nat)
    requires v.Valid() && top <= bottom < v.core.rows && 1 <= n <= bottom - top + 1
    requires v.(core := v.core.WithCells(CopiedForward(v.core.Cells(), top + n, bottom + 1, n))).Valid()
    ensures var copied := v.(core := v.core.WithCells(CopiedForward(v.core.Cells(), top + n, bottom + 1, n)));
            var filled := Erased(copied, top, top + n, 0, v.core.columns - 1);
            filled.(display := filled.display.Marked(top, bottom + 1, 0, v.core.columns - 1))
            == TerminalState.PushRows(v, top, bottom, n)
  {
    var g, last := v.core.Cells(), v.core.columns - 1;
    PushedByCopies(g, top, bottom + 1, n, v.core.columns, v.core.pen.Attribute());
    v.display.MarkedAbsorbs(top, top + n, 0, last, top, bottom + 1, 0, last);
  }

  /** The state with the cursor's line replaced and nothing marked. */
  ghost function WithLine(s: State, line: seq<Cell>): State
    requires s.core.cursor.row < |s.core.Cells()|
  {
    s.(core := s.core.WithCells(s.core.Cells()[s.core.cursor.row := line]))
  }

  ghost function LineCopiedBack(s: State, n: nat): State
    requires s.Valid() && 1 <= n <= s.core.columns - s.core.cursor.column
  {
    var c := s.core;
    WithLine(s, CopiedBack(c.Cells()[c.cursor.row], c.cursor.column, c.columns - n, n))
  }

  ghost function LineCopiedForward(s: State, n: nat): State
    requires s.Valid() && 1 <= n <= s.core.columns - s.core.cursor.column
  {
    var c := s.core;
    WithLine(s, CopiedForward(c.Cells()[c.cursor.row], c.cursor.column + n, c.columns, n))
  }

  /** The cursor's line marked from the cursor on. */
  ghost function RestMarked(s: State): State
    requires s.Valid()
  {
    var c := s.core;
    s.(display := s.display.Marked(c.cursor.row, c.cursor.row + 1, c.cursor.column, c.columns - 1))
  }

  /** Part of the cursor's line blanked in the current colours. */
  ghost function SpanErased(s: State, start: nat, end: nat): (t: State)
    requires s.Valid() && start <= end < s.core.columns
    ensures t.Valid()
  {
    Erased(s, s.core.cursor.row, s.core.cursor.row + 1, start, end)
  }

  /** The copy, fill and mark loops of a move within the cursor's line add up to the move. */
  lemma LinePulledInSteps(v: State, count: nat)
    requires v.Valid() && 1 <= count
    ensures var n := Min(count, v.core.columns - v.core.cursor.column);
            LineCopiedBack(v, n).Valid() ==>
            RestMarked(SpanErased(LineCopiedBack(v, n), v.core.columns - n, v.core.columns - 1))
            == TerminalState.DeleteCharacters(v, count)
  {
    hide CopiedBack, Filled, FilledRow, Pulled, Display.Marked;
    var n := Min(count, v.core.columns - v.core.cursor.column);
    var c, last, attribute := v.core.cursor, v.core.columns - 1, v.core.pen.Attribute();
    var line := v.core.Cells()[c.row];
    var copied := LineCopiedBack(v, n);
    FilledOneRow(copied.core.Cells(), c.row, v.core.columns - n, v.core.columns, attribute);
    LinePulledByCopies(line, c.column, n, attribute);
    v.display.MarkedAbsorbs(c.row, c.row + 1, v.core.columns - n, last, c.row, c.row + 1, c.column, last);
  }

  lemma LinePushedInSteps(v: State, count: nat)
    requires v.Valid() && 1 <= count
    ensures var n := Min(count, v.core.columns - v.core.cursor.column);
            LineCopiedForward(v, n).Valid() ==>
            RestMarked(SpanErased(LineCopiedForward(v, n), v.core.cursor.column, v.core.cursor.column + n - 1))
            == TerminalState.InsertCharacters(v, count)
  {
    hide CopiedForward, Filled, FilledRow, Pushed, Display.Marked;
    var n := Min(count, v.core.columns - v.core.cursor.column);
    var c, last, attribute := v.core.cursor, v.core.columns - 1, v.core.pen.Attribute();
    var line := v.core.Cells()[c.row];
    var copied := LineCopiedForward(v, n);
    FilledOneRow(copied.core.Cells(), c.row, c.column, c.column + n, attribute);
    LinePushedByCopies(line, c.column, n, attribute);
    assert Filled(copied.core.Cells(), c.row, c.row + 1, c.column, c.column + n, attribute)
        == v.core.Cells()[c.row := Pushed(line, c.column, v.core.columns, n, Blank(attribute))];
    v.display.MarkedAbsorbs(c.row, c.row + 1, c.column, c.column + n - 1, c.row, c.row + 1, c.column, last);
  }

  ghost function GapOpened(s: State): State
    requires s.Valid()
  {
    if s.core.modes.insert && s.core.cursor.column + 1 < s.core.columns then RestMarked(LineCopiedForward(s, 1)) else s
  }

  ghost function CellWritten(s: State, character: char16): (t: State)
    requires s.Valid() && character != 0
    ensures t.Valid()
  {
    var c := s.core;
    var line := c.Cells()[c.cursor.row][c.cursor.column := Cell(character, c.pen.Attribute())];
    Rewritten(s, c.Cells()[c.cursor.row := line], c.cursor.row, c.cursor.row + 1, c.cursor.column, c.cursor.column)
  }

  /** Opening a gap and storing a cell add up to storing a character. */
  lemma StoredInSteps(v: State, character: char16)
    requires v.Valid() && character != 0
    ensures GapOpened(v).Valid() ==> CellWritten(GapOpened(v), character) == CharacterStored(v, character)
  {
    hide CopiedForward, Pushed, Display.Marked;
    var c := v.core;
    var line := c.Cells()[c.cursor.row];
    var cell := Cell(character, c.pen.Attribute());
    if c.modes.insert && c.cursor.column + 1 < c.columns {
      var copied := CopiedForward(line, c.cursor.column + 1, c.columns, 1);
      GapFilled(line, c.cursor.column, cell);
      assert c.Cells()[c.cursor.row := copied][c.cursor.row := copied[c.cursor.column := cell]]
          == c.Cells()[c.cursor.row := copied[c.cursor.column := cell]];
      v.display.MarkedAlso(c.cursor.row, c.cursor.row + 1, c.cursor.column, c.columns - 1, c.cursor.column, c.cursor.column);
    }
  }

  class Terminal {
    const columns: nat
    const rows: nat
    const primary: array<Cell>
    const alternate: array<Cell>
    var cells: array<Cell>  // the buffer on display: primary or alternate
    const dirtyStart: array<char16>
    const dirtyEnd: array<char16>
    const renderBuffer: array<char16>
    var row: nat
    var column: nat
    var savedRow: nat
    var savedColumn: nat
    var primaryRow: nat
    var primaryColumn: nat
    var scrollTop: nat
    var scrollBottom: nat
    var pen: Pen
    var cursorVisible: bool
    var applicationCursor: bool
    var insertMode: bool
    var wrapPending: bool
    var alternateActive: bool
    var mode: Mode
    const parameters: array<int>
    var parameterCount: nat
    var privateCsi: bool
    var utf8Remaining: nat
    var utf8CodePoint: nat
    const replies: array<byte>
    var replyLength: nat
    const console: Console

    /** The buffers have their sizes and none of them overlaps another. */
    ghost predicate Allocated() {
      && 1 <= columns <= MAX_UINT16 && 1 <= rows <= MAX_UINT16
      && primary.Length == rows * columns && alternate.Length == rows * columns
      && primary != alternate
      && dirtyStart.Length == rows && dirtyEnd.Length == rows && renderBuffer.Length == columns + 1
      && dirtyStart != dirtyEnd && renderBuffer != dirtyStart && renderBuffer != dirtyEnd
      && parameters.Length == TERMINAL_MAX_PARAMS && replies.Length == TERMINAL_REPLY_SIZE
      && (replies as object) != dirtyStart && (replies as object) != dirtyEnd && (replies as object) != renderBuffer
      && (parameters as object) != dirtyStart && (parameters as object) != dirtyEnd
      && (parameters as object) != renderBuffer && (parameters as object) != replies
      && (primary as object) != dirtyStart && (primary as object) != dirtyEnd && (primary as object) != renderBuffer
      && (primary as object) != replies && (primary as object) != parameters
      && (alternate as object) != dirtyStart && (alternate as object) != dirtyEnd
      && (alternate as object) != renderBuffer
      && (alternate as object) != replies && (alternate as object) != parameters
    }

    ghost function Footprint(): set<object> {
      {this, primary, alternate, dirtyStart, dirtyEnd, renderBuffer, parameters, replies, console}
    }

    ghost function CoreView(): Core
      requires Allocated()
      reads this, primary, alternate, parameters
    {
      Core(columns, rows,
           Buffers(GridOf(primary[..], rows, columns), GridOf(alternate[..], rows, columns), alternateActive),
           Cursor(row, column, wrapPending), Place(savedRow, savedColumn), Place(primaryRow, primaryColumn),
           Margins(scrollTop, scrollBottom), pen, Modes(cursorVisible, applicationCursor, insertMode),
           Parser(mode, parameters[..], parameterCount, privateCsi, utf8Remaining, utf8CodePoint))
    }

    /** The abstract state these fields and buffers stand for. */
    ghost function View(): State
      requires Allocated() && replyLength <= replies.Length
      reads this, primary, alternate, parameters, replies, dirtyStart, dirtyEnd, console
    {
      State(CoreView(), replies[..replyLength], Display(dirtyStart[..], dirtyEnd[..], console.screen))
    }

    ghost predicate Valid()
      reads this, primary, alternate, parameters, replies, dirtyStart, dirtyEnd, console
    {
      && Allocated()
      && replyLength <= replies.Length
      && cells == (if alternateActive then alternate else primary)
      && View().Valid()
    }

    constructor (c: nat, r: nat, console: Console)
      requires 1 <= c <= MAX_UINT16 && 1 <= r <= MAX_UINT16 && Sized(console.screen.cells, r, c)
      ensures Valid() && this.console == console && fresh(Footprint() - {console})
      ensures View() == Created(c, r, console.screen)
    {
      columns, rows := c, r;
      var attribute := console.screen.attribute;
      var colours := Pen(attribute % 16, attribute / 16 % 8, attribute % 16, attribute / 16 % 8, false, false);
      primary := new Cell[r * c](_ => Blank(0));
      alternate := new Cell[r * c](_ => Blank(0));
      cells := primary;
      dirtyStart := new char16[r](_ => c);
      dirtyEnd := new char16[r](_ => 0);
      renderBuffer := new char16[c + 1](_ => 0);
      row, column, savedRow, savedColumn, primaryRow, primaryColumn := 0, 0, 0, 0, 0, 0;
      scrollTop, scrollBottom := 0, r - 1;
      pen := colours;
      cursorVisible, applicationCursor, insertMode, wrapPending, alternateActive := true, false, false, false, false;
      mode, parameterCount, privateCsi, utf8Remaining, utf8CodePoint := Ground, 1, false, 0, 0;
      parameters := new int[TERMINAL_MAX_PARAMS](_ => -1);
      replies := new byte[TERMINAL_REPLY_SIZE](_ => 0);
      replyLength := 0;
      this.console := console;
      new;
      FillBuffer(primary);
      FillBuffer(alternate);
      Begin(r, c);
    }

    /** The fields of a terminal nothing has been fed to yet stand for the created state. */
    lemma Begin(r: nat, c: nat)
      requires Allocated() && r == rows && c == columns && Sized(console.screen.cells, r, c)
      requires pen == Pen(console.screen.attribute % 16, console.screen.attribute / 16 % 8,
                          console.screen.attribute % 16, console.screen.attribute / 16 % 8, false, false)
      requires GridOf(primary[..], rows, columns) == BlankGrid(r, c, pen.DefaultAttribute())
      requires GridOf(alternate[..], rows, columns) == BlankGrid(r, c, pen.DefaultAttribute())
      requires forall i | 0 <= i < r :: dirtyStart[i] == c && dirtyEnd[i] == 0
      requires forall i | 0 <= i < TERMINAL_MAX_PARAMS :: parameters[i] == -1
      requires row == column == savedRow == savedColumn == primaryRow == primaryColumn == 0
      requires scrollTop == 0 && scrollBottom == r - 1 && replyLength == 0 && parameterCount == 1
      requires utf8Remaining == 0 && utf8CodePoint == 0 && mode == Ground && !privateCsi
      requires cursorVisible && !applicationCursor && !insertMode && !wrapPending && !alternateActive
      ensures View() == Created(c, r, console.screen)
    {
      assert parameters[..] == NO_PARAMETERS;
      assert dirtyStart[..] == Repeat(r, c) && dirtyEnd[..] == Repeat(r, 0) && replies[..replyLength] == [];
    }

    /** Takes its size from the answer to the console's mode query; the console is left as it is. */
    static method Create(console: Console, known: bool, columns: nat, rows: nat) returns (terminal: Terminal)
      requires var usable := known && 1 <= columns <= 65535 && 1 <= rows <= 65535;
               Sized(console.screen.cells, if usable then rows else 25, if usable then columns else 80)
      ensures terminal.Valid() && terminal.console == console && fresh(terminal.Footprint() - {console})
      ensures terminal.View() == if known && 1 <= columns <= 65535 && 1 <= rows <= 65535
                                 then Created(columns, rows, console.screen) else Created(80, 25, console.screen)
    {
      var size := SizeFromMode(known, columns, rows);
      terminal := new Terminal(size.0, size.1, console);
    }

    /** Blanks a buffer in the default colours. */
    method FillBuffer(buffer: array<Cell>)
      requires Allocated() && (buffer == primary || buffer == alternate)
      modifies buffer
      ensures GridOf(buffer[..], rows, columns) == BlankGrid(rows, columns, pen.DefaultAttribute())
    {
      var blank := Blank(pen.DefaultAttribute());
      for index := 0 to rows * columns
        invariant forall i | 0 <= i < index :: buffer[i] == blank
      {
        buffer[index] := blank;
      }
      UniformBuffer(buffer[..], rows, columns, pen.DefaultAttribute());
    }

    /** One cell of the displayed buffer. */
    method CellAt(r: nat, c: nat) returns (cell: Cell)
      requires Valid() && r < rows && c < columns
      ensures cell == View().core.Cells()[r][c]
    {
      CellOfGrid(cells[..], rows, columns, r, c);
      cell := cells[r * columns + c];
    }

    method StoreAt(r: nat, c: nat, cell: Cell)
      requires Valid() && r < rows && c < columns && cell.character != 0
      modifies cells
      ensures Valid()
      ensures View() == old(View()).(core := old(View()).core.WithCells(
        old(View()).core.Cells()[r := old(View()).core.Cells()[r][c := cell]]))
    {
      ghost var before := cells[..];
      CellOfGrid(before, rows, columns, r, c);
      cells[r * columns + c] := cell;
      StoreCell(before, cells[..], rows, columns, r, c, cell);
    }

    /** CopyMem of one row of the displayed buffer onto another. */
    method CopyRow(to: nat, from: nat)
      requires Valid() && to < rows && from < rows
      modifies cells
      ensures Valid()
      ensures View() == old(View()).(core := old(View()).core.WithCells(
        old(View()).core.Cells()[to := old(View()).core.Cells()[from]]))
    {
      ghost var before := cells[..];
      RowFits(rows, columns, to);
      RowFits(rows, columns, from);
      CopyMem(cells, to * columns, from * columns, columns);
      StoreRow(before, cells[..], rows, columns, to, from);
    }

    method MarkDirty(r: nat, start: nat, end: nat)
      requires Valid() && start <= end
      modifies dirtyStart, dirtyEnd
      ensures Valid()
      ensures View() == if r >= rows || start >= columns then old(View())
                        else old(View()).(display := old(View()).display.Marked(r, r + 1, start, Min(end, columns - 1)))
    {
      if r >= rows || start >= columns {
        return;
      }
      var last := Min(end, columns - 1);
      dirtyStart[r] := Min(dirtyStart[r], start);
      dirtyEnd[r] := Max(dirtyEnd[r], last);
      assert View().display == old(View()).display.Marked(r, r + 1, start, last);
    }

    method MarkDirtyRows(first: nat, last: nat)
      requires Valid() && first <= last
      modifies dirtyStart, dirtyEnd
      ensures Valid()
      ensures View() == old(View()).(display :=
        old(View()).display.Marked(first, Max(first, Min(last, rows - 1) + 1), 0, columns - 1))
    {
      hide Display.Marked, CoreView, Core.Valid, Sized;
      FrameIs();
      ghost var v := View();
      var end := Min(last, rows - 1);
      var r := first;
      v.display.MarkedNothing(first, 0, columns - 1);
      while r <= end
        invariant first <= r <= Max(first, end + 1)
        invariant Valid() && View() == v.(display := v.display.Marked(first, r, 0, columns - 1))
      {
        v.display.MarkedExtends(first, r, 0, columns - 1);
        MarkDirty(r, 0, columns - 1);
        r := r + 1;
      }
    }

    method FillCells(r: nat, start: nat, end: nat, attribute: nat)
      requires Valid() && start <= end
      modifies cells, dirtyStart, dirtyEnd
      ensures Valid()
      ensures View() == if r >= rows || start >= columns then old(View())
                        else Blanked(old(View()), r, r + 1, start, Min(end, columns - 1), attribute)
    {
      hide Display.Marked, GridOf, Filled, Renderable;
      if r >= rows || start >= columns {
        return;
      }
      var last := Min(end, columns - 1);
      StoreBlanks(r, start, last, attribute);
      MarkDirty(r, start, last);
    }

    /** The loop of FillCells. */
    method StoreBlanks(r: nat, start: nat, last: nat, attribute: nat)
      requires Valid() && r < rows && start <= last < columns
      modifies cells
      ensures Valid()
      ensures View() == old(View()).(core := old(View()).core.WithCells(
        Filled(old(View()).core.Cells(), r, r + 1, start, last + 1, attribute)))
    {
      hide Filled, GridOf;
      ghost var v := View();
      ghost var g := v.core.Cells();
      FilledNothing(g, r, r + 1, start, attribute);
      for c := start to last + 1
        invariant Valid() && View() == v.(core := v.core.WithCells(Filled(g, r, r + 1, start, c, attribute)))
      {
        FilledExtends(g, r, start, c, attribute);
        StoreAt(r, c, Blank(attribute));
      }
    }

    /** Blanks whole rows first..limit in the current colours (limit excluded). */
    method FillRows(first: nat, limit: nat)
      requires Valid() && first <= limit <= rows
      modifies cells, dirtyStart, dirtyEnd
      ensures Valid() && View() == Erased(old(View()), first, limit, 0, columns - 1)
    {
      hide Blanked, GridOf, Renderable, Sized;
      FillRowsIn(first, limit, pen.Attribute());
    }

    lemma FrameIs()
      requires Valid()
      ensures View().Valid() && View().core.rows == rows && View().core.columns == columns
      ensures |View().core.Cells()| == rows && forall r | 0 <= r < rows :: |View().core.Cells()[r]| == columns
      ensures 1 <= rows && 1 <= columns
    {
    }

    method FillRowsIn(first: nat, limit: nat, attribute: nat)
      requires Valid() && first <= limit <= rows
      modifies cells, dirtyStart, dirtyEnd
      ensures Valid() && View() == Blanked(old(View()), first, limit, 0, columns - 1, attribute)
    {
      hide Blanked, View, CoreView, Allocated, State.Valid;
      ghost var v := View();
      FrameIs();
      BlankedNothing(v, first, 0, columns - 1, attribute);
      for r := first to limit
        invariant Valid() && View() == Blanked(v, first, r, 0, columns - 1, attribute)
      {
        BlankedExtends(v, first, r, 0, columns - 1, attribute);
        FillCells(r, 0, columns - 1, attribute);
      }
    }

    /** Moves rows top..bottom n places up, copying in ascending order, and blanks the last n. */
    method PullRows(top: nat, bottom: nat, n: nat)
      requires Valid() && top <= bottom < rows && 1 <= n <= bottom - top + 1
      modifies cells, dirtyStart, dirtyEnd
      ensures Valid() && View() == TerminalState.PullRows(old(View()), top, bottom, n)
    {
      hide Erased, Core.WithCells, CopiedBack, TerminalState.PullRows, Display.Marked;
      ghost var v := View();
      assert columns == v.core.columns && rows == v.core.rows;
      CopyRowsBack(top, bottom, n);
      FillRows(bottom + 1 - n, bottom + 1);
      MarkDirtyRows(top, bottom);
      assert View() == TerminalState.PullRows(v, top, bottom, n) by { PulledInSteps(v, top, bottom, n); }
    }

    method CopyRowsBack(top: nat, bottom: nat, n: nat)
      requires Valid() && top <= bottom < rows && 1 <= n <= bottom - top + 1
      modifies cells
      ensures Valid()
      ensures View() == old(View()).(core := old(View()).core.WithCells(
        CopiedBack(old(View()).core.Cells(), top, bottom + 1 - n, n)))
    {
      hide CopiedBack, GridOf;
      ghost var v := View();
      ghost var g := v.core.Cells();
      CopiedBackNothing(g, top, n);
      var r := top;
      while r + n <= bottom
        invariant top <= r <= bottom + 1 - n
        invariant Valid() && View() == v.(core := v.core.WithCells(CopiedBack(g, top, r, n)))
      {
        CopiedBackExtends(g, top, r, n);
        CopyRow(r, r + n);
        r := r + 1;
      }
    }

    /** Moves rows top..bottom n places down, copying in descending order, and blanks the first n. */
    method PushRows(top: nat, bottom: nat, n: nat)
      requires Valid() && top <= bottom < rows && 1 <= n <= bottom - top + 1
      modifies cells, dirtyStart, dirtyEnd
      ensures Valid() && View() == TerminalState.PushRows(old(View()), top, bottom, n)
    {
      hide Erased, Core.WithCells, CopiedForward, TerminalState.PushRows, Display.Marked;
      ghost var v := View();
      assert columns == v.core.columns && rows == v.core.rows;
      CopyRowsForward(top, bottom, n);
      FillRows(top, top + n);
      MarkDirtyRows(top, bottom);
      assert View() == TerminalState.PushRows(v, top, bottom, n) by { PushedInSteps(v, top, bottom, n); }
    }

    method CopyRowsForward(top: nat, bottom: nat, n: nat)
      requires Valid() && top <= bottom < rows && 1 <= n <= bottom - top + 1
      modifies cells
      ensures Valid()
      ensures View() == old(View()).(core := old(View()).core.WithCells(
        CopiedForward(old(View()).core.Cells(), top + n, bottom + 1, n)))
    {
      hide CopiedForward, GridOf;
      ghost var v := View();
      ghost var g := v.core.Cells();
      CopiedForwardNothing(g, bottom + 1, n);
      var r := bottom + 1;
      while r > top + n
        invariant top + n <= r <= bottom + 1
        invariant Valid() && View() == v.(core := v.core.WithCells(CopiedForward(g, r, bottom + 1, n)))
      {
        CopiedForwardExtends(g, r - 1, bottom + 1, n);
        r := r - 1;
        CopyRow(r, r - n);
      }
    }

    method ScrollUp(count: nat)
      requires Valid()
      modifies cells, dirtyStart, dirtyEnd
      ensures Valid() && View() == TerminalState.ScrollUp(old(View()), count)
    {
      var n := Min(count, scrollBottom - scrollTop + 1);
      if n != 0 {
        PullRows(scrollTop, scrollBottom, n);
      }
    }

    method ScrollDown(count: nat)
      requires Valid()
      modifies cells, dirtyStart, dirtyEnd
      ensures Valid() && View() == TerminalState.ScrollDown(old(View()), count)
    {
      var n := Min(count, scrollBottom - scrollTop + 1);
      if n != 0 {
        PushRows(scrollTop, scrollBottom, n);
      }
    }

    method InsertLines(count: nat)
      requires Valid() && 1 <= count
      modifies cells, dirtyStart, dirtyEnd
      ensures Valid() && View() == TerminalState.InsertLines(old(View()), count)
    {
      if row < scrollTop || row > scrollBottom {
        return;
      }
      PushRows(row, scrollBottom, Min(count, scrollBottom - row + 1));
    }

    method DeleteLines(count: nat)
      requires Valid() && 1 <= count
      modifies cells, dirtyStart, dirtyEnd
      ensures Valid() && View() == TerminalState.DeleteLines(old(View()), count)
    {
      if row < scrollTop || row > scrollBottom {
        return;
      }
      PullRows(row, scrollBottom, Min(count, scrollBottom - row + 1));
    }

    /** Moves the cursor's line from column `column` on n cells left, in ascending order. */
    method CopyLineBack(n: nat)
      requires Valid() && 1 <= n <= columns - column
      modifies cells
      ensures Valid() && View() == LineCopiedBack(old(View()), n)
    {
      hide CopiedBack, GridOf;
      ghost var v := View();
      ghost var line := v.core.Cells()[row];
      CopiedBackNothing(line, column, n);
      assert v.core.Cells()[row := line] == v.core.Cells();
      var c := column;
      while c + n < columns
        invariant column <= c <= columns - n
        invariant Valid() && View() == WithLine(v, CopiedBack(line, column, c, n))
      {
        CopiedBackExtends(line, column, c, n);
        var cell := CellAt(row, c + n);
        StoreAt(row, c, cell);
        c := c + 1;
      }
    }

    /** Moves the cursor's line from column `column` on n cells right, in descending order. */
    method CopyLineForward(n: nat)
      requires Valid() && 1 <= n <= columns - column
      modifies cells
      ensures Valid() && View() == LineCopiedForward(old(View()), n)
    {
      hide CopiedForward, GridOf;
      ghost var v := View();
      ghost var line := v.core.Cells()[row];
      CopiedForwardNothing(line, columns, n);
      assert v.core.Cells()[row := line] == v.core.Cells();
      var c := columns;
      while c > column + n
        invariant column + n <= c <= columns
        invariant Valid() && View() == WithLine(v, CopiedForward(line, c, columns, n))
      {
        CopiedForwardExtends(line, c - 1, columns, n);
        c := c - 1;
        var cell := CellAt(row, c - n);
        StoreAt(row, c, cell);
      }
    }

    /** Blanks part of the cursor's line in the current colours. */
    method EraseSpan(start: nat, end: nat)
      requires Valid() && start <= end < columns
      modifies cells, dirtyStart, dirtyEnd
      ensures Valid() && View() == SpanErased(old(View()), start, end)
    {
      hide Filled, Rewritten, GridOf;
      FillCells(row, start, end, pen.Attribute());
    }

    /** Marks the cursor's line from the cursor on. */
    method MarkRest()
      requires Valid()
      modifies dirtyStart, dirtyEnd
      ensures Valid() && View() == RestMarked(old(View()))
    {
      MarkDirty(row, column, columns - 1);
    }

    method InsertCharacters(count: nat)
      requires Valid() && 1 <= count
      modifies cells, dirtyStart, dirtyEnd
      ensures Valid() && View() == TerminalState.InsertCharacters(old(View()), count)
    {
      hide LineCopiedForward, SpanErased, RestMarked, TerminalState.InsertCharacters;
      ghost var v := View();
      var n := Min(count, columns - column);
      assert columns == v.core.columns && column == v.core.cursor.column;
      CopyLineForward(n);
      EraseSpan(column, column + n - 1);
      MarkRest();
      assert View() == TerminalState.InsertCharacters(v, count) by { LinePushedInSteps(v, count); }
    }

    method DeleteCharacters(count: nat)
      requires Valid() && 1 <= count
      modifies cells, dirtyStart, dirtyEnd
      ensures Valid() && View() == TerminalState.DeleteCharacters(old(View()), count)
    {
      hide LineCopiedBack, SpanErased, RestMarked, TerminalState.DeleteCharacters;
      ghost var v := View();
      var n := Min(count, columns - column);
      assert columns == v.core.columns && n == Min(count, v.core.columns - v.core.cursor.column);
      CopyLineBack(n);
      EraseSpan(columns - n, columns - 1);
      MarkRest();
      assert View() == TerminalState.DeleteCharacters(v, count) by { LinePulledInSteps(v, count); }
    }

    method ClearWrap()
      requires Valid()
      modifies this
      ensures Valid() && View() == NoWrap(old(View()))
      ensures cells == old(cells)
    {
      wrapPending := false;
    }

    method MoveCursor(r: nat, c: nat)
      requires Valid() && r < rows && c < columns
      modifies this
      ensures Valid() && View() == MoveTo(old(View()), r, c)
      ensures cells == old(cells)
    {
      row, column := r, c;
    }

    method IndexDown()
      requires Valid()
      modifies this, cells, dirtyStart, dirtyEnd
      ensures Valid() && View() == TerminalState.IndexDown(old(View()))
      ensures cells == old(cells)
    {
      hide TerminalState.ScrollUp, GridOf, Renderable, Sized;
      ClearWrap();
      if row == scrollBottom {
        ScrollUp(1);
      } else if row + 1 < rows {
        MoveCursor(row + 1, column);
      }
    }

    method IndexUp()
      requires Valid()
      modifies this, cells, dirtyStart, dirtyEnd
      ensures Valid() && View() == TerminalState.IndexUp(old(View()))
      ensures cells == old(cells)
    {
      hide TerminalState.ScrollDown, GridOf, Renderable, Sized;
      ClearWrap();
      if row == scrollTop {
        ScrollDown(1);
      } else if row != 0 {
        MoveCursor(row - 1, column);
      }
    }

    method PutCharacter(character: char16)
      requires Valid() && character != 0
      modifies this, cells, dirtyStart, dirtyEnd
      ensures Valid() && View() == TerminalState.PutCharacter(old(View()), character)
      ensures cells == old(cells)
    {
      hide TerminalState.IndexDown, Written, GridOf, Renderable, Sized;
      if wrapPending {
        MoveCursor(row, 0);
        IndexDown();
      }
      WriteCell(character);
    }

    /** The rest of PutCharacter, once no wrap is pending. */
    method WriteCell(character: char16)
      requires Valid() && character != 0
      modifies this, cells, dirtyStart, dirtyEnd
      ensures Valid() && View() == Written(old(View()), character)
      ensures cells == old(cells)
    {
      hide GapOpened, CellWritten, Advanced, CharacterStored;
      ghost var v := View();
      OpenGap();
      StoreAtCursor(character);
      Advance();
      assert View() == Written(v, character) by { StoredInSteps(v, character); }
    }

    /** In insert mode, moves the rest of the cursor's line one cell right. */
    method OpenGap()
      requires Valid()
      modifies cells, dirtyStart, dirtyEnd
      ensures Valid() && View() == GapOpened(old(View()))
    {
      if insertMode && column + 1 < columns {
        CopyLineForward(1);
        MarkRest();
      }
    }

    method StoreAtCursor(character: char16)
      requires Valid() && character != 0
      modifies cells, dirtyStart, dirtyEnd
      ensures Valid() && View() == CellWritten(old(View()), character)
    {
      StoreAt(row, column, Cell(character, pen.Attribute()));
      MarkDirty(row, column, column);
    }

    method Advance()
      requires Valid()
      modifies this
      ensures Valid() && View() == TerminalState.Advanced(old(View())) && cells == old(cells)
    {
      if column + 1 == columns {
        wrapPending := true;
      } else {
        column := column + 1;
      }
    }

    /** ClearBuffer on the displayed buffer. */
    method ClearCells()
      requires Valid()
      modifies cells
      ensures Valid()
      ensures View() == old(View()).(core := old(View()).core.WithCells(DefaultGrid(old(View()).core)))
    {
      FillBuffer(cells);
    }

    method ClearDisplay()
      requires Valid()
      modifies cells, console
      ensures Valid() && View() == ClearedScreen(old(View()))
    {
      hide GridOf, BlankGrid;
      ClearCells();
      console.ClearScreen();
    }

    /** Empties every span. */
    method ResetSpans()
      requires Valid()
      modifies dirtyStart, dirtyEnd
      ensures Valid()
      ensures View() == old(View()).(display := old(View()).display.Unmarked(columns))
    {
      hide GridOf, Renderable, Sized;
      for r := 0 to rows
        invariant forall i | 0 <= i < r :: dirtyStart[i] == columns && dirtyEnd[i] == 0
      {
        dirtyStart[r] := columns;
        dirtyEnd[r] := 0;
      }
      assert dirtyStart[..] == Repeat(rows, columns) && dirtyEnd[..] == Repeat(rows, 0);
    }

    method EraseDisplay(eraseMode: int)
      requires Valid()
      modifies cells, dirtyStart, dirtyEnd, console
      ensures Valid() && View() == TerminalState.EraseDisplay(old(View()), eraseMode)
    {
      hide GridOf, Renderable, Sized, ClearedScreen, Blanked, Display.Unmarked;
      if eraseMode == 2 || eraseMode == 3 {
        ClearDisplay();
        ResetSpans();
      } else if eraseMode == 1 {
        FillRows(0, row);
        EraseSpan(0, column);
      } else {
        EraseSpan(column, columns - 1);
        FillRows(row + 1, rows);
      }
    }

    method EraseLine(eraseMode: int)
      requires Valid()
      modifies cells, dirtyStart, dirtyEnd
      ensures Valid() && View() == TerminalState.EraseLine(old(View()), eraseMode)
    {
      hide GridOf, Renderable, Sized, Blanked;
      if eraseMode == 1 {
        EraseSpan(0, column);
      } else if eraseMode == 2 {
        EraseSpan(0, columns - 1);
      } else {
        EraseSpan(column, columns - 1);
      }
    }

    method SetAlternateScreen(enable: bool)
      requires Valid()
      modifies this, alternate, dirtyStart, dirtyEnd, console
      ensures Valid() && View() == TerminalState.SetAlternateScreen(old(View()), enable)
      ensures unchanged(primary)
    {
      hide GridOf, Renderable, Sized, AlternateShown, PrimaryShown, AllMarked, ClearedScreen;
      if enable && !alternateActive {
        ShowAlternate();
        ClearDisplay();
      } else if !enable && alternateActive {
        ShowPrimary();
        MarkAll();
      }
      ClearWrap();
    }

    method ShowAlternate()
      requires Valid()
      modifies this
      ensures Valid() && View() == AlternateShown(old(View()))
      ensures cells == alternate
    {
      hide GridOf, Renderable, Sized;
      SavePrimaryPlace();
      Show(true);
      MoveCursor(0, 0);
      ResetMargins();
    }

    method ShowPrimary()
      requires Valid()
      modifies this
      ensures Valid() && View() == PrimaryShown(old(View()))
    {
      hide GridOf, Renderable, Sized;
      Show(false);
      MoveCursor(Min(primaryRow, rows - 1), Min(primaryColumn, columns - 1));
      ResetMargins();
    }

    method SavePrimaryPlace()
      requires Valid()
      modifies this
      ensures Valid()
      ensures View() == old(View()).(core := old(View()).core.(
        primaryPlace := Place(old(View()).core.cursor.row, old(View()).core.cursor.column)))
    {
      hide GridOf;
      primaryRow, primaryColumn := row, column;
    }

    /** Points the display at one of the two buffers. */
    method Show(alternateBuffer: bool)
      requires Valid()
      modifies this
      ensures Valid() && cells == if alternateBuffer then alternate else primary
      ensures View() == old(View()).(core := old(View()).core.(
        buffers := old(View()).core.buffers.(alternateActive := alternateBuffer)))
    {
      hide GridOf;
      cells := if alternateBuffer then alternate else primary;
      alternateActive := alternateBuffer;
    }

    method ResetMargins()
      requires Valid()
      modifies this
      ensures Valid() && cells == old(cells)
      ensures View() == old(View()).(core := old(View()).core.(margins := Margins(0, rows - 1)))
    {
      hide GridOf;
      scrollTop, scrollBottom := 0, rows - 1;
    }

    method MarkAll()
      requires Valid()
      modifies dirtyStart, dirtyEnd
      ensures Valid() && View() == AllMarked(old(View()))
    {
      MarkDirtyRows(0, rows - 1);
    }

    method Parameter(index: nat, default: int) returns (value: int)
      requires Valid()
      ensures value == View().core.parser.Parameter(index, default)
    {
      hide GridOf;
      if index >= parameterCount || parameters[index] < 0 {
        value := default;
      } else {
        value := parameters[index];
      }
    }

    method NonZeroParameter(index: nat) returns (value: nat)
      requires Valid()
      ensures value == View().core.parser.NonZeroParameter(index)
    {
      hide GridOf;
      var p := Parameter(index, 1);
      value := if p <= 0 then 1 else p;
    }

    method SetModes(enable: bool)
      requires Valid()
      modifies this, alternate, dirtyStart, dirtyEnd, console
      ensures Valid() && View() == TerminalState.SetModes(old(View()), enable, old(View()).core.parser.count)
    {
      hide GridOf, Renderable, Sized, TerminalState.SetMode;
      ghost var v := View();
      for index := 0 to parameterCount
        invariant Valid() && View() == TerminalState.SetModes(v, enable, index)
      {
        var value := Parameter(index, 0);
        SetOneMode(value, enable);
      }
    }

    method SetOneMode(value: int, enable: bool)
      requires Valid()
      modifies this, alternate, dirtyStart, dirtyEnd, console
      ensures Valid() && View() == TerminalState.SetMode(old(View()), value, enable)
    {
      hide GridOf, Renderable, Sized, TerminalState.SetAlternateScreen;
      if privateCsi {
        if value == 1 {
          applicationCursor := enable;
        } else if value == 25 {
          cursorVisible := enable;
        } else if value == 47 || value == 1047 || value == 1049 {
          SetAlternateScreen(enable);
        }
      } else if value == 4 {
        insertMode := enable;
      }
    }

    method SelectGraphicRendition()
      requires Valid()
      modifies this
      ensures Valid() && View() == TerminalState.SelectGraphicRendition(old(View()))
      ensures cells == old(cells)
    {
      hide GridOf, Renderable, Sized, Rendition;
      ghost var v := View();
      var index := 0;
      while index < parameterCount
        invariant Valid() && cells == old(cells)
        invariant View() == v.(core := v.core.(pen := pen))
        invariant Renditions(pen, v.core.parser, index) == Renditions(v.core.pen, v.core.parser, 0)
        decreases v.core.parser.count - index
      {
        var next, used := RenditionAt(index);
        pen := next;
        index := index + used;
      }
    }

    /** One parameter of a graphic rendition, with the colour arguments it takes. */
    method RenditionAt(index: nat) returns (next: Pen, used: nat)
      requires Valid() && index < parameterCount
      ensures (next, used) == Rendition(View().core.pen, View().core.parser, index)
    {
      hide GridOf, Renderable, Sized;
      used := 1;
      next := pen;
      var value := Parameter(index, 0);
      var kind := Parameter(index + 1, -1);
      if value == 0 {
        next := pen.Reset();
      } else if value == 1 {
        next := pen.(bold := true);
      } else if value == 22 {
        next := pen.(bold := false);
      } else if value == 7 {
        next := pen.(reverse := true);
      } else if value == 27 {
        next := pen.(reverse := false);
      } else if 30 <= value <= 37 {
        next := pen.(foreground := value - 30);
      } else if 90 <= value <= 97 {
        next := pen.(foreground := value - 90 + 8);
      } else if value == 39 {
        next := pen.(foreground := pen.defaultForeground);
      } else if 40 <= value <= 47 {
        next := pen.(background := value - 40);
      } else if 100 <= value <= 107 {
        next := pen.(background := value - 100 + 8);
      } else if value == 49 {
        next := pen.(background := pen.defaultBackground);
      } else if (value == 38 || value == 48) && index + 2 < parameterCount && kind == 5 {
        var color := Parameter(index + 2, 0);
        next := Coloured(pen, value == 38, Map256Color(color));
        used := 3;
      } else if (value == 38 || value == 48) && index + 4 < parameterCount && kind == 2 {
        var red := Parameter(index + 2, 0);
        var green := Parameter(index + 3, 0);
        var blue := Parameter(index + 4, 0);
        next := Coloured(pen, value == 38, MapRgbColor(red, green, blue));
        used := 5;
      }
    }

    method QueueReply(reply: seq<byte>)
      requires Valid()
      modifies replies, this`replyLength
      ensures Valid() && View() == TerminalState.QueueReply(old(View()), reply)
    {
      hide GridOf;
      ghost var before := replies[..];
      var length := Min(|reply|, TERMINAL_REPLY_SIZE - replyLength);
      StoreBytes(replies, replyLength, reply[..length]);
      replyLength := replyLength + length;
      assert replies[..replyLength] == before[..old(replyLength)] + reply[..length];
    }

    /** Moves queued reply bytes into a caller's buffer, and the rest to the front of the queue. */
    method TakeResponse(buffer: array?<byte>, capacity: nat) returns (length: nat)
      requires Valid()
      requires buffer != null ==> capacity <= buffer.Length && (buffer as object) !in Footprint()
      modifies buffer, replies, this`replyLength
      ensures Valid()
      ensures var taken := TerminalState.TakeResponse(old(View()), if buffer == null then 0 else capacity);
              View() == taken.0 && length == |taken.1| && (buffer != null ==> buffer[..length] == taken.1)
    {
      if buffer == null || capacity == 0 {
        return 0;
      }
      length := Min(capacity, replyLength);
      forall i | 0 <= i < length {
        buffer[i] := replies[i];
      }
      DropReplies(length);
    }

    /** Moves the replies after the first n to the front of the queue. */
    method DropReplies(n: nat)
      requires Valid() && n <= replyLength
      modifies replies, this`replyLength
      ensures Valid() && View() == old(View()).(replies := old(View()).replies[n..])
    {
      ghost var before := replies[..];
      var left := replyLength - n;
      StoreBytes(replies, 0, replies[n..replyLength]);
      replyLength := left;
      assert replies[..replyLength] == before[n..old(replyLength)];
    }

    method SaveCursor()
      requires Valid()
      modifies this
      ensures Valid() && View() == TerminalState.SaveCursor(old(View()))
      ensures cells == old(cells)
    {
      savedRow, savedColumn := row, column;
    }

    method RestoreCursor()
      requires Valid()
      modifies this
      ensures Valid() && View() == TerminalState.RestoreCursor(old(View()))
      ensures cells == old(cells)
    {
      hide GridOf;
      MoveCursor(Min(savedRow, rows - 1), Min(savedColumn, columns - 1));
    }

    method SetScrollRegion()
      requires Valid()
      modifies this
      ensures Valid() && View() == TerminalState.SetScrollRegion(old(View()))
      ensures cells == old(cells)
    {
      hide GridOf, Renderable, Sized;
      var first := NonZeroParameter(0);
      var given := Parameter(1, rows);
      var bottom := if given == 0 then MAX_UINTN else given - 1;
      if first - 1 < bottom < rows {
        SetMargins(first - 1, bottom);
        MoveCursor(0, 0);
      }
    }

    method SetMargins(top: nat, bottom: nat)
      requires Valid() && top <= bottom < rows
      modifies this
      ensures Valid() && cells == old(cells)
      ensures View() == old(View()).(core := old(View()).core.(margins := Margins(top, bottom)))
    {
      hide GridOf;
      scrollTop, scrollBottom := top, bottom;
    }

    method DeviceStatus(report: int)
      requires Valid()
      modifies replies, this`replyLength
      ensures Valid() && View() == TerminalState.DeviceStatus(old(View()), report)
    {
      hide GridOf, Renderable, Sized, TerminalState.QueueReply;
      if report == 5 {
        QueueReply([ESC, 0x5b, 0x30, 0x6e]);
      } else if report == 6 {
        QueueReply(CursorReport(row, column));
      }
    }

    /** The cursor-motion sequences. */
    method HandleMotion(final: byte)
      requires Valid()
      modifies this
      ensures Valid() && cells == old(cells)
      ensures var place := CursorMoved(old(View()).core, final); View() == MoveTo(old(View()), place.0, place.1)
    {
      hide GridOf, Renderable, Sized, CursorMoved;
      var r, c := MotionTarget(final);
      MoveCursor(r, c);
    }

    method MotionTarget(final: byte) returns (r: nat, c: nat)
      requires Valid()
      ensures (r, c) == CursorMoved(View().core, final)
    {
      hide GridOf, Renderable, Sized, Repeat, Parser.NonZeroParameter, Parser.Parameter;
      var count := NonZeroParameter(0);
      r, c := row, column;
      match final as char {
        case 'A' => r := if count > row then 0 else row - count;
        case 'B' => r := Min(rows - 1, row + count);
        case 'C' => c := Min(columns - 1, column + count);
        case 'D' => c := if count > column then 0 else column - count;
        case 'E' => r, c := Min(rows - 1, row + count), 0;
        case 'F' => r, c := if count > row then 0 else row - count, 0;
        case 'G' => c := Min(columns - 1, count - 1);
        case 'H' =>
          var second := NonZeroParameter(1);
          r, c := Min(rows - 1, count - 1), Min(columns - 1, second - 1);
        case 'f' =>
          var second := NonZeroParameter(1);
          r, c := Min(rows - 1, count - 1), Min(columns - 1, second - 1);
        case 'd' => r := Min(rows - 1, count - 1);
        case _ =>
      }
    }

    method HandleEditing(final: byte)
      requires Valid()
      modifies cells, dirtyStart, dirtyEnd, console
      ensures Valid() && View() == TerminalState.HandleEditing(old(View()), final)
    {
      hide GridOf, Renderable, Sized, TerminalState.EraseDisplay, TerminalState.EraseLine, TerminalState.InsertLines,
           TerminalState.DeleteLines, TerminalState.InsertCharacters, TerminalState.DeleteCharacters, Erased,
           TerminalState.ScrollUp, TerminalState.ScrollDown;
      var count := NonZeroParameter(0);
      var kind := Parameter(0, 0);
      match final as char {
        case 'J' => EraseDisplay(kind);
        case 'K' => EraseLine(kind);
        case 'L' => InsertLines(count);
        case 'M' => DeleteLines(count);
        case '@' => InsertCharacters(count);
        case 'P' => DeleteCharacters(count);
        case 'X' => EraseSpan(column, Min(columns - 1, column + count - 1));
        case 'S' => ScrollUp(count);
        case 'T' => ScrollDown(count);
        case _ =>
      }
    }

    /** A complete control sequence, by its final byte. */
    method HandleCsi(final: byte)
      requires Valid()
      modifies this, primary, alternate, dirtyStart, dirtyEnd, replies, console
      ensures Valid() && View() == TerminalState.HandleCsi(old(View()), final)
    {
      hide GridOf, Renderable, Sized, TerminalState.HandleEditing, TerminalState.SelectGraphicRendition,
           TerminalState.SaveCursor, TerminalState.RestoreCursor, TerminalState.SetScrollRegion,
           TerminalState.SetModes, TerminalState.DeviceStatus, TerminalState.QueueReply, CursorMoved;
      var report := Parameter(0, 0);
      ClearWrap();
      if IsEditing(final) {
        HandleEditing(final);
      } else {
        match final as char {
          case 'm' => SelectGraphicRendition();
          case 's' => SaveCursor();
          case 'u' => RestoreCursor();
          case 'r' => SetScrollRegion();
          case 'h' => SetModes(true);
          case 'l' => SetModes(false);
          case 'n' => DeviceStatus(report);
          case 'c' => QueueReply([ESC, 0x5b, 0x3f, 0x31, 0x3b, 0x30, 0x63]);
          case _ => HandleMotion(final);
        }
      }
    }

    method EnterMode(next: Mode)
      requires Valid() && (next == Ground || utf8Remaining == 0)
      modifies this
      ensures Valid() && View() == WithMode(old(View()), next)
      ensures cells == old(cells)
    {
      mode := next;
    }

    /** The bytes a UTF-8 sequence still needs, and its code point so far. */
    method SetUtf8(remaining: nat, codePoint: nat)
      requires Valid() && View().core.parser.(remaining := remaining, codePoint := codePoint).Valid()
      modifies this
      ensures Valid() && cells == old(cells)
      ensures View() == WithParser(old(View()), old(View()).core.parser.(remaining := remaining, codePoint := codePoint))
    {
      utf8Remaining, utf8CodePoint := remaining, codePoint;
    }

    method ResetParser()
      requires Valid()
      modifies this, parameters
      ensures Valid() && View() == WithParser(old(View()), TerminalState.ResetParser(old(View()).core.parser))
      ensures cells == old(cells)
    {
      hide GridOf, Renderable, Sized;
      ClearParameters();
      mode := Ground;
      parameterCount := 1;
      privateCsi := false;
    }

    method ClearParameters()
      requires Allocated()
      modifies parameters
      ensures parameters[..] == Repeat(TERMINAL_MAX_PARAMS, -1)
    {
      for index := 0 to TERMINAL_MAX_PARAMS
        invariant forall i | 0 <= i < index :: parameters[i] == -1
      {
        parameters[index] := -1;
      }
    }

    /** A byte of a control sequence before its final byte. */
    method Collect(b: byte)
      requires Valid() && mode == Csi
      modifies this, parameters
      ensures Valid() && View() == WithParser(old(View()), Collected(old(View()).core.parser, b))
      ensures cells == old(cells)
    {
      if b == 0x3f && parameterCount == 1 && parameters[0] < 0 {
        privateCsi := true;
      } else if 0x30 <= b <= 0x39 {
        AppendDigit(b - 0x30);
      } else if b == 0x3b && parameterCount < TERMINAL_MAX_PARAMS {
        StartParameter();
      }
    }

    method AppendDigit(digit: nat)
      requires Valid() && mode == Csi && digit <= 9
      modifies parameters
      ensures Valid() && View() == WithParser(old(View()), Collected(old(View()).core.parser, 0x30 + digit))
    {
      ghost var p := View().core.parser;
      var last := parameterCount - 1;
      var value := Max(parameters[last], 0);
      parameters[last] := if value < 1000000 then value * 10 + digit else value;
      assert parameters[..] == Collected(p, 0x30 + digit).parameters;
    }

    method StartParameter()
      requires Valid() && mode == Csi && parameterCount < TERMINAL_MAX_PARAMS
      modifies this`parameterCount, parameters
      ensures Valid() && View() == WithParser(old(View()), Collected(old(View()).core.parser, 0x3b))
    {
      ghost var p := View().core.parser;
      parameters[parameterCount] := -1;
      parameterCount := parameterCount + 1;
      assert parameters[..] == Collected(p, 0x3b).parameters;
    }

    method EmitCodePoint(codePoint: nat)
      requires Valid()
      modifies this, cells, dirtyStart, dirtyEnd
      ensures Valid() && View() == TerminalState.EmitCodePoint(old(View()), codePoint)
      ensures cells == old(cells)
    {
      hide GridOf, Renderable, Sized, TerminalState.PutCharacter;
      if codePoint == 0 || codePoint > 0xffff || 0xd800 <= codePoint <= 0xdfff {
        PutCharacter(0x3f);
      } else {
        PutCharacter(codePoint);
      }
    }

    /** A byte in ground state while no UTF-8 sequence is open. */
    method HandleFirstByte(b: byte)
      requires Valid() && mode == Ground && utf8Remaining == 0
      modifies this, cells, dirtyStart, dirtyEnd
      ensures Valid() && View() == TerminalState.HandleFirstByte(old(View()), b)
    {
      hide GridOf, Renderable, Sized, TerminalState.PutCharacter, TerminalState.IndexDown;
      if b == ESC {
        EnterMode(Escape);
      } else if b == 0x0d {
        ClearWrap();
        MoveCursor(row, 0);
      } else if b == 0x0a {
        IndexDown();
      } else if b == 0x08 {
        ClearWrap();
        MoveCursor(row, if column == 0 then 0 else column - 1);
      } else if b == 0x09 {
        ClearWrap();
        MoveCursor(row, Min(columns - 1, (column + 8) / 8 * 8));
      } else if 0x20 <= b < 0x7f {
        PutCharacter(b);
      } else if b / 0x20 == 6 {
        SetUtf8(1, b % 0x20);
      } else if b / 0x10 == 0xe {
        SetUtf8(2, b % 0x10);
      } else if b / 8 == 0x1e {
        SetUtf8(3, b % 8);
      }
    }

    method HandleGroundByte(b: byte)
      requires Valid() && mode == Ground
      modifies this, cells, dirtyStart, dirtyEnd
      ensures Valid() && View() == TerminalState.HandleGroundByte(old(View()), b)
    {
      hide GridOf, Renderable, Sized, TerminalState.EmitCodePoint, TerminalState.HandleFirstByte;
      if utf8Remaining == 0 {
        HandleFirstByte(b);
      } else if b / 0x40 != 2 {
        SetUtf8(0, utf8CodePoint);
        EmitCodePoint(0xfffd);
        HandleFirstByte(b);
      } else {
        var codePoint := utf8CodePoint * 0x40 + b % 0x40;
        SetUtf8(utf8Remaining - 1, codePoint);
        if utf8Remaining == 0 {
          EmitCodePoint(codePoint);
        }
      }
    }

    method ResetTerminal()
      requires Valid()
      modifies this, cells, console
      ensures Valid()
      ensures var v := old(View());
              View() == ClearedScreen(v.(core := v.core.(
                pen := v.core.pen.Reset(), cursor := v.core.cursor.(row := 0, column := 0),
                margins := Margins(0, v.core.rows - 1))))
    {
      hide CoreView, Allocated, State.Valid, ClearedScreen, Pen.Reset;
      FrameIs();
      ResetPen();
      MoveCursor(0, 0);
      ResetMargins();
      ClearDisplay();
    }

    method ResetPen()
      requires Valid()
      modifies this
      ensures Valid() && cells == old(cells)
      ensures View() == old(View()).(core := old(View()).core.(pen := old(View()).core.pen.Reset()))
    {
      hide GridOf, Renderable, Sized;
      pen := pen.Reset();
    }

    method HandleEscapeByte(b: byte)
      requires Valid() && mode == Escape
      modifies this, primary, alternate, dirtyStart, dirtyEnd, parameters, console
      ensures Valid() && View() == TerminalState.HandleEscapeByte(old(View()), b)
    {
      hide GridOf, Renderable, Sized, ClearedScreen, TerminalState.SaveCursor, TerminalState.RestoreCursor,
           TerminalState.IndexDown, TerminalState.IndexUp;
      if b == 0x5b {
        ResetParser();
        EnterMode(Csi);
      } else if b == 0x5d {
        EnterMode(Osc);
      } else {
        EnterMode(Ground);
        match b as char {
          case '7' => SaveCursor();
          case '8' => RestoreCursor();
          case 'D' => IndexDown();
          case 'M' => IndexUp();
          case 'E' =>
            MoveCursor(row, 0);
            IndexDown();
          case 'c' => ResetTerminal();
          case _ =>
        }
      }
    }

    /** One byte from the server. */
    method HandleByte(b: byte)
      requires Valid()
      modifies this, primary, alternate, dirtyStart, dirtyEnd, parameters, replies, console
      ensures Valid() && View() == Step(old(View()), b)
    {
      hide GridOf, Renderable, Sized, TerminalState.HandleGroundByte, TerminalState.HandleEscapeByte,
           TerminalState.HandleCsi, Collected;
      if b == ESC {
        if mode == Osc {
          EnterMode(OscEscape);
        } else if mode != OscEscape {
          StartEscape();
        }
        return;
      }
      match mode
      case Ground => HandleGroundByte(b);
      case Escape => HandleEscapeByte(b);
      case Csi =>
        if 0x40 <= b <= 0x7e {
          HandleCsi(b);
          EnterMode(Ground);
        } else {
          Collect(b);
        }
      case Osc =>
        if b == 0x07 {
          EnterMode(Ground);
        }
      case OscEscape => EnterMode(if b == 0x5c then Ground else Osc);
    }

    method StartEscape()
      requires Valid()
      modifies this
      ensures Valid() && View() == WithParser(old(View()), old(View()).core.parser.(mode := Escape, remaining := 0))
    {
      mode := Escape;
      utf8Remaining := 0;
    }

    method Feed(data: seq<byte>)
      requires Valid()
      modifies this, primary, alternate, dirtyStart, dirtyEnd, parameters, replies, console
      ensures Valid() && View() == TerminalState.Feed(old(View()), data)
    {
      hide GridOf, Renderable, Sized, Step;
      ghost var v := View();
      for index := 0 to |data|
        invariant Valid() && View() == TerminalState.Feed(v, data[..index])
      {
        HandleByte(data[index]);
        assert data[..index + 1][..index] == data[..index];
      }
      assert data[..|data|] == data;
    }

    // ---------- Repainting ----------

    /** Loads one run of equal attribute into the render buffer, terminated, and finds its end. */
    method LoadRun(r: nat, position: nat, end: nat) returns (runEnd: nat)
      requires Valid() && r < rows && position <= end < columns
      modifies renderBuffer
      ensures Valid() && View() == old(View())
      ensures var line := View().core.Cells()[r];
              runEnd == RunEnd(line, position, end)
              && UntilNul(renderBuffer[..]) == Characters(line[position..runEnd + 1])
    {
      hide GridOf, RunEnd;
      runEnd := FindRunEnd(r, position, end);
      var length := runEnd - position + 1;
      CopyText(r, position, length);
      renderBuffer[length] := 0;
      RenderableLineHasNoNul(View().core.Cells(), rows, columns, r);
      UntilNulStops(renderBuffer[..], length);
    }

    method CopyText(r: nat, position: nat, length: nat)
      requires Valid() && r < rows && position + length <= columns
      modifies renderBuffer
      ensures Valid() && View() == old(View())
      ensures renderBuffer[..length] == Characters(View().core.Cells()[r][position..position + length])
    {
      hide GridOf;
      ghost var line := View().core.Cells()[r];
      for index := 0 to length
        invariant Valid() && View() == old(View())
        invariant forall i | 0 <= i < index :: renderBuffer[i] == line[position + i].character
      {
        var cell := CellAt(r, position + index);
        renderBuffer[index] := cell.character;
      }
    }

    method FindRunEnd(r: nat, position: nat, end: nat) returns (runEnd: nat)
      requires Valid() && r < rows && position <= end < columns
      ensures runEnd == RunEnd(View().core.Cells()[r], position, end)
    {
      hide GridOf;
      ghost var line := View().core.Cells()[r];
      var first := CellAt(r, position);
      runEnd := position;
      while runEnd < end
        invariant position <= runEnd <= end
        invariant line[runEnd].attribute == first.attribute
        invariant RunEnd(line, runEnd, end) == RunEnd(line, position, end)
      {
        var next := CellAt(r, runEnd + 1);
        if next.attribute != first.attribute {
          return;
        }
        runEnd := runEnd + 1;
      }
    }

    /** Paints columns position..end of row r, one output call for each run of equal attribute. */
    method PaintLine(r: nat, start: nat, end: nat)
      requires Valid() && r < rows && start <= end < columns
      modifies renderBuffer, console
      ensures Valid()
      ensures View() == old(View()).(display := old(View()).display.(console :=
        LinePainted(old(View()).display.console, old(View()).core.Cells()[r], r, start, end)))
    {
      hide GridOf, Screen.Painted, RunEnd;
      ghost var v := View();
      ghost var line := v.core.Cells()[r];
      var position := start;
      while position <= end
        invariant start <= position <= end + 1
        invariant Valid() && View() == v.(display := v.display.(console := console.screen))
        invariant LinePainted(console.screen, line, r, position, end) == LinePainted(v.display.console, line, r, start, end)
      {
        position := PaintRun(r, position, end);
      }
    }

    method PaintRun(r: nat, position: nat, end: nat) returns (next: nat)
      requires Valid() && r < rows && position <= end < columns
      modifies renderBuffer, console
      ensures Valid()
      ensures View() == old(View()).(display := old(View()).display.(console :=
        old(View()).display.console.Painted(RunDraw(old(View()).core.Cells()[r], r, position, end))))
      ensures next == RunEnd(old(View()).core.Cells()[r], position, end) + 1
    {
      hide CoreView, Core.Valid, Core.Cells, RunEnd, Screen.Painted;
      FrameIs();
      var cell := CellAt(r, position);
      var runEnd := LoadRun(r, position, end);
      OutputAt(console, r, position, cell.attribute, renderBuffer);
      next := runEnd + 1;
    }

    /** Repaints and empties the span of one row. */
    method FlushRow(r: nat)
      requires Valid() && r < rows
      modifies renderBuffer, dirtyStart, dirtyEnd, console
      ensures Valid() && View() == RowFlushed(old(View()), r)
    {
      hide GridOf, LinePainted;
      var start, end := dirtyStart[r], dirtyEnd[r];
      if start >= columns || end < start {
        return;
      }
      PaintLine(r, start, end);
      dirtyStart[r] := columns;
      dirtyEnd[r] := 0;
      assert View().display.dirtyStart == old(View()).display.dirtyStart[r := columns];
      assert View().display.dirtyEnd == old(View()).display.dirtyEnd[r := 0];
    }

    method Flush()
      requires Valid()
      modifies renderBuffer, dirtyStart, dirtyEnd, console
      ensures Valid() && View() == TerminalState.Flush(old(View()))
    {
      hide GridOf, Renderable, Sized, RowFlushed;
      ghost var v := View();
      console.EnableCursor(false);
      ghost var hidden := View();
      for r := 0 to rows
        invariant Valid() && View() == RowsFlushed(hidden, r)
      {
        FlushRow(r);
      }
      console.SetAttribute(pen.Attribute());
      console.SetCursorPosition(column, row);
      console.EnableCursor(cursorVisible);
    }
  }
}
