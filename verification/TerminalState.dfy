/** The terminal as a value: its state and, for every operation of the emulator, the whole
    state that operation leaves. The class in Terminal.dfy is proved against these functions. */
module TerminalState {
  import opened Basics
  import opened Grids

  const TERMINAL_MAX_PARAMS: nat := 16
  const TERMINAL_REPLY_SIZE: nat := 128
  const MAX_PARAMETER: int := 9999999
  const MAX_UINT16: nat := 0xffff
  const MAX_UINTN: nat := 0xffff_ffff_ffff_ffff

  /** The colours a character is written with. */
  datatype Pen = Pen(
    defaultForeground: nat, defaultBackground: nat,
    foreground: nat, background: nat, bold: bool, reverse: bool)
  {
    predicate Valid() {
      defaultForeground < 16 && defaultBackground < 8 && foreground < 16 && background < 16
    }

    /** The UEFI text attribute (background in bits 4-6) of the next character. */
    function Attribute(): nat {
      var f := if bold && foreground < 8 then foreground + 8 else foreground;
      if reverse then background % 16 + 16 * (f % 8) else f % 16 + 16 * (background % 8)
    }

    function DefaultAttribute(): nat {
      defaultForeground + 16 * defaultBackground
    }

    function Reset(): Pen {
      this.(foreground := defaultForeground, background := defaultBackground, bold := false, reverse := false)
    }
  }

  datatype Mode = Ground | Escape | Csi | Osc | OscEscape

  /** The byte parser. A parameter of -1 was left empty. */
  datatype Parser = Parser(
    mode: Mode, parameters: seq<int>, count: nat, private: bool,
    remaining: nat, codePoint: nat)
  {
    predicate Valid() {
      && |parameters| == TERMINAL_MAX_PARAMS
      && 1 <= count <= TERMINAL_MAX_PARAMS
      && (forall i | 0 <= i < TERMINAL_MAX_PARAMS :: -1 <= parameters[i] <= MAX_PARAMETER)
      && remaining <= 3
      && (mode != Ground ==> remaining == 0)
      && codePoint < (match remaining case 0 => 0x20_0000 case 1 => 0x8000 case 2 => 0x200 case _ => 8)
    }

    function Parameter(index: nat, default: int): (value: int)
      requires Valid()
      ensures value == default || 0 <= value <= MAX_PARAMETER
    {
      if index >= count || parameters[index] < 0 then default else parameters[index]
    }

    function NonZeroParameter(index: nat): (value: nat)
      requires Valid()
      ensures 1 <= value <= MAX_PARAMETER
    {
      var p := Parameter(index, 1);
      if p <= 0 then 1 else p
    }
  }

  /** The two screen buffers; the alternate one is on display while it is active. */
  datatype Buffers = Buffers(primary: Grid, alternate: Grid, alternateActive: bool)
  {
    function Cells(): Grid {
      if alternateActive then alternate else primary
    }

    function WithCells(g: Grid): Buffers {
      if alternateActive then this.(alternate := g) else this.(primary := g)
    }
  }

  datatype Place = Place(row: nat, column: nat)

  datatype Cursor = Cursor(row: nat, column: nat, wrapPending: bool)

  datatype Margins = Margins(top: nat, bottom: nat)

  datatype Modes = Modes(cursorVisible: bool, applicationCursor: bool, insert: bool)

  /** Everything that decides how later bytes are understood: grids, cursor, modes, parser. */
  datatype Core = Core(
    columns: nat, rows: nat,
    buffers: Buffers, cursor: Cursor, saved: Place, primaryPlace: Place, margins: Margins,
    pen: Pen, modes: Modes, parser: Parser)
  {
    /** The grid on display. */
    function Cells(): Grid {
      buffers.Cells()
    }

    function WithCells(g: Grid): Core {
      this.(buffers := buffers.WithCells(g))
    }

    predicate Contains(row: nat, column: nat) {
      row < rows && column < columns
    }

    ghost predicate Valid() {
      && 1 <= columns <= MAX_UINT16 && 1 <= rows <= MAX_UINT16
      && Renderable(buffers.primary, rows, columns) && Renderable(buffers.alternate, rows, columns)
      && Contains(cursor.row, cursor.column)
      && Contains(saved.row, saved.column)
      && Contains(primaryPlace.row, primaryPlace.column)
      && margins.top <= margins.bottom < rows
      && pen.Valid() && parser.Valid()
    }
  }

  /** One OutputString call: text painted in one attribute from a position. */
  datatype Draw = Draw(row: nat, column: nat, attribute: nat, text: seq<char16>)

  /** The firmware console: what it shows, its attribute and cursor, and its output calls so far. */
  datatype Screen = Screen(
    cells: Grid, attribute: nat, cursorRow: nat, cursorColumn: nat, cursorVisible: bool,
    drawn: seq<Draw>)
  {
    function Cleared(): Screen
    {
      this.(cells := seq(|cells|, r requires 0 <= r < |cells| => BlankRow(|cells[r]|, attribute)),
            cursorRow := 0, cursorColumn := 0)
    }

    /** Paints text from (row, column) on. Cells past the right edge are not wrapped. */
    function Painted(d: Draw): (painted: Screen)
      ensures |painted.cells| == |cells|
      ensures forall r | 0 <= r < |cells| :: |painted.cells[r]| == |cells[r]|
    {
      this.(
        cells := seq(|cells|, r requires 0 <= r < |cells| =>
          if r == d.row then PaintedRow(cells[r], d) else cells[r]),
        attribute := d.attribute,
        cursorRow := d.row,
        cursorColumn := d.column + |d.text|,
        drawn := drawn + [d])
    }

    static function PaintedRow(row: seq<Cell>, d: Draw): (painted: seq<Cell>)
      ensures |painted| == |row|
    {
      seq(|row|, c requires 0 <= c < |row| =>
        if d.column <= c < d.column + |d.text| then Cell(d.text[c - d.column], d.attribute) else row[c])
    }
  }

  /** The rendering cache: per row the span of columns that still have to be repainted
      (columns, 0 when there are none), over the console the spans will be painted on. */
  datatype Display = Display(dirtyStart: seq<nat>, dirtyEnd: seq<nat>, console: Screen)
  {
    ghost predicate Valid(rows: nat, columns: nat) {
      && |dirtyStart| == rows && |dirtyEnd| == rows
      && (forall r | 0 <= r < rows ::
            (dirtyStart[r] == columns && dirtyEnd[r] == 0) || dirtyStart[r] <= dirtyEnd[r] < columns)
      && Sized(console.cells, rows, columns)
    }

    predicate InSpan(r: nat, c: nat)
      requires r < |dirtyStart| && r < |dirtyEnd|
    {
      dirtyStart[r] <= c <= dirtyEnd[r]
    }

    /** Rows first..limit (limit excluded) grow to cover columns start..end. */
    function Marked(first: nat, limit: nat, start: nat, end: nat): Display
      requires |dirtyStart| == |dirtyEnd|
    {
      this.(
        dirtyStart := seq(|dirtyStart|, r requires 0 <= r < |dirtyStart| =>
          if first <= r < limit then Min(dirtyStart[r], start) else dirtyStart[r]),
        dirtyEnd := seq(|dirtyEnd|, r requires 0 <= r < |dirtyEnd| =>
          if first <= r < limit then Max(dirtyEnd[r], end) else dirtyEnd[r]))
    }

    lemma MarkedNothing(first: nat, start: nat, end: nat)
      requires |dirtyStart| == |dirtyEnd|
      ensures Marked(first, first, start, end) == this
    {
      var d := Marked(first, first, start, end);
      assert d.dirtyStart == dirtyStart && d.dirtyEnd == dirtyEnd;
    }

    lemma MarkedExtends(first: nat, r: nat, start: nat, end: nat)
      requires |dirtyStart| == |dirtyEnd| && first <= r
      ensures Marked(first, r, start, end).Marked(r, r + 1, start, end) == Marked(first, r + 1, start, end)
    {
      var d, e := Marked(first, r, start, end).Marked(r, r + 1, start, end), Marked(first, r + 1, start, end);
      assert d.dirtyStart == e.dirtyStart && d.dirtyEnd == e.dirtyEnd;
    }

    /** Marks inside a rectangle that is marked afterwards leave no trace. */
    lemma MarkedAbsorbs(first: nat, limit: nat, start: nat, end: nat, first': nat, limit': nat, start': nat, end': nat)
      requires |dirtyStart| == |dirtyEnd|
      requires first' <= first && limit <= limit' && start' <= start && end <= end'
      ensures Marked(first, limit, start, end).Marked(first', limit', start', end')
           == Marked(first', limit', start', end')
    {
      var d := Marked(first, limit, start, end).Marked(first', limit', start', end');
      var e := Marked(first', limit', start', end');
      assert d.dirtyStart == e.dirtyStart && d.dirtyEnd == e.dirtyEnd;
    }

    /** Marking a part of what is already marked changes nothing. */
    lemma MarkedAlso(first: nat, limit: nat, start: nat, end: nat, start': nat, end': nat)
      requires |dirtyStart| == |dirtyEnd| && start <= start' && end' <= end
      ensures Marked(first, limit, start, end).Marked(first, limit, start', end') == Marked(first, limit, start, end)
    {
      var d, e := Marked(first, limit, start, end).Marked(first, limit, start', end'), Marked(first, limit, start, end);
      assert d.dirtyStart == e.dirtyStart && d.dirtyEnd == e.dirtyEnd;
    }

    function Unmarked(columns: nat): Display {
      this.(
        dirtyStart := Repeat(|dirtyStart|, columns),
        dirtyEnd := Repeat(|dirtyEnd|, 0))
    }
  }

  datatype State = State(core: Core, replies: seq<byte>, display: Display)
  {
    ghost predicate Valid() {
      && core.Valid()
      && |replies| <= TERMINAL_REPLY_SIZE
      && display.Valid(core.rows, core.columns)
    }
  }

  /** What no control sequence changes: the screen's size, the default colours and the parser. */
  predicate SameSettings(s: State, t: State) {
    && t.core.rows == s.core.rows && t.core.columns == s.core.columns
    && t.core.parser == s.core.parser
    && t.core.pen.DefaultAttribute() == s.core.pen.DefaultAttribute()
  }

  /** What no operation on the screen changes: the saved place besides. */
  predicate SameFrame(s: State, t: State) {
    SameSettings(s, t) && t.core.saved == s.core.saved
  }

  /** The only way an operation changes single cells: it rewrites the displayed grid within
      rows first..limit (limit excluded) and columns start..end, and marks that rectangle for repainting. */
  function Rewritten(s: State, g: Grid, first: nat, limit: nat, start: nat, end: nat): (t: State)
    requires s.Valid() && Renderable(g, s.core.rows, s.core.columns)
    requires first <= limit <= s.core.rows && start <= end < s.core.columns
    requires SameOutside(s.core.Cells(), g, first, limit, start, end)
    ensures t.Valid() && SameFrame(s, t) && t.replies == s.replies
  {
    s.(core := s.core.WithCells(g), display := s.display.Marked(first, limit, start, end))
  }

  ghost predicate SameOutside(g: Grid, h: Grid, first: nat, limit: nat, start: nat, end: nat)
    requires |g| == |h| && forall r | 0 <= r < |g| :: |g[r]| == |h[r]|
  {
    forall r, c | 0 <= r < |g| && 0 <= c < |g[r]| && !(first <= r < limit && start <= c <= end) ::
      h[r][c] == g[r][c]
  }

  function Blanked(s: State, first: nat, limit: nat, start: nat, end: nat, attribute: nat): (t: State)
    requires s.Valid()
    requires first <= limit <= s.core.rows && start <= end < s.core.columns
    ensures t.Valid() && SameFrame(s, t) && t.replies == s.replies
  {
    var g := Filled(s.core.Cells(), first, limit, start, end + 1, attribute);
    assert Renderable(g, s.core.rows, s.core.columns) by {
      forall r, c | 0 <= r < s.core.rows && 0 <= c < s.core.columns ensures g[r][c].character != 0 {
        assert g[r][c] == s.core.Cells()[r][c] || g[r][c] == Blank(attribute);
      }
    }
    Rewritten(s, g, first, limit, start, end)
  }

  lemma BlankedNothing(s: State, first: nat, start: nat, end: nat, attribute: nat)
    requires s.Valid() && first <= s.core.rows && start <= end < s.core.columns
    ensures Blanked(s, first, first, start, end, attribute) == s
  {
    var g := s.core.Cells();
    var h := Filled(g, first, first, start, end + 1, attribute);
    assert forall r | 0 <= r < |g| :: h[r] == g[r];
    s.display.MarkedNothing(first, start, end);
    assert s.core.WithCells(h) == s.core;
  }

  lemma BlankedExtends(s: State, first: nat, r: nat, start: nat, end: nat, attribute: nat)
    requires s.Valid() && first <= r < s.core.rows && start <= end < s.core.columns
    ensures Blanked(Blanked(s, first, r, start, end, attribute), r, r + 1, start, end, attribute)
         == Blanked(s, first, r + 1, start, end, attribute)
  {
    var g := s.core.Cells();
    var h := Filled(Filled(g, first, r, start, end + 1, attribute), r, r + 1, start, end + 1, attribute);
    assert h == Filled(g, first, r + 1, start, end + 1, attribute);
    s.display.MarkedExtends(first, r, start, end);
  }

  /** Blanks a rectangle in the current colours. */
  function Erased(s: State, first: nat, limit: nat, start: nat, end: nat): (t: State)
    requires s.Valid()
    requires first <= limit <= s.core.rows && start <= end < s.core.columns
    ensures t.Valid() && SameFrame(s, t) && t.replies == s.replies
  {
    Blanked(s, first, limit, start, end, s.core.pen.Attribute())
  }

  function PullRows(s: State, top: nat, bottom: nat, n: nat): (t: State)
    requires s.Valid() && top <= bottom < s.core.rows
    ensures t.Valid() && SameFrame(s, t) && t.replies == s.replies
  {
    var blank := BlankRow(s.core.columns, s.core.pen.Attribute());
    Rewritten(s, Pulled(s.core.Cells(), top, bottom + 1, n, blank), top, bottom + 1, 0, s.core.columns - 1)
  }

  function PushRows(s: State, top: nat, bottom: nat, n: nat): (t: State)
    requires s.Valid() && top <= bottom < s.core.rows
    ensures t.Valid() && SameFrame(s, t) && t.replies == s.replies
  {
    var blank := BlankRow(s.core.columns, s.core.pen.Attribute());
    Rewritten(s, Pushed(s.core.Cells(), top, bottom + 1, n, blank), top, bottom + 1, 0, s.core.columns - 1)
  }

  function ScrollUp(s: State, count: nat): (t: State)
    requires s.Valid()
    ensures t.Valid() && SameFrame(s, t) && t.replies == s.replies
  {
    var n := Min(count, s.core.margins.bottom - s.core.margins.top + 1);
    if n == 0 then s else PullRows(s, s.core.margins.top, s.core.margins.bottom, n)
  }

  function ScrollDown(s: State, count: nat): (t: State)
    requires s.Valid()
    ensures t.Valid() && SameFrame(s, t) && t.replies == s.replies
  {
    var n := Min(count, s.core.margins.bottom - s.core.margins.top + 1);
    if n == 0 then s else PushRows(s, s.core.margins.top, s.core.margins.bottom, n)
  }

  function MoveTo(s: State, row: nat, column: nat): (t: State)
    requires s.Valid() && row < s.core.rows && column < s.core.columns
    ensures t.Valid() && SameFrame(s, t) && t.replies == s.replies
  {
    s.(core := s.core.(cursor := s.core.cursor.(row := row, column := column)))
  }

  function NoWrap(s: State): (t: State)
    requires s.Valid()
    ensures t.Valid() && SameFrame(s, t) && t.replies == s.replies
  {
    s.(core := s.core.(cursor := s.core.cursor.(wrapPending := false)))
  }

  function IndexDown(s: State): (t: State)
    requires s.Valid()
    ensures t.Valid() && SameFrame(s, t) && t.replies == s.replies
  {
    var t := NoWrap(s);
    if t.core.cursor.row == t.core.margins.bottom then ScrollUp(t, 1)
    else if t.core.cursor.row + 1 < t.core.rows then MoveTo(t, t.core.cursor.row + 1, t.core.cursor.column)
    else t
  }

  function IndexUp(s: State): (t: State)
    requires s.Valid()
    ensures t.Valid() && SameFrame(s, t) && t.replies == s.replies
  {
    var t := NoWrap(s);
    if t.core.cursor.row == t.core.margins.top then ScrollDown(t, 1)
    else if t.core.cursor.row != 0 then MoveTo(t, t.core.cursor.row - 1, t.core.cursor.column)
    else t
  }

  /** Writes one cell at the cursor, in insert mode after pushing the rest of the line right. */
  function CharacterStored(s: State, character: char16): (t: State)
    requires s.Valid() && character != 0
    ensures t.Valid() && SameFrame(s, t) && t.replies == s.replies && t.core.cursor == s.core.cursor
  {
    var c := s.core;
    var cell := Cell(character, c.pen.Attribute());
    var line := c.Cells()[c.cursor.row];
    if c.modes.insert && c.cursor.column + 1 < c.columns then
      var h := c.Cells()[c.cursor.row := Pushed(line, c.cursor.column, c.columns, 1, cell)];
      Rewritten(s, h, c.cursor.row, c.cursor.row + 1, c.cursor.column, c.columns - 1)
    else
      var h := c.Cells()[c.cursor.row := line[c.cursor.column := cell]];
      Rewritten(s, h, c.cursor.row, c.cursor.row + 1, c.cursor.column, c.cursor.column)
  }

  /** The cursor after a character: one further, or where it is with a wrap pending. */
  function Advanced(s: State): (t: State)
    requires s.Valid()
    ensures t.Valid() && SameFrame(s, t) && t.replies == s.replies
  {
    if s.core.cursor.column + 1 == s.core.columns
    then s.(core := s.core.(cursor := s.core.cursor.(wrapPending := true)))
    else MoveTo(s, s.core.cursor.row, s.core.cursor.column + 1)
  }

  function Written(s: State, character: char16): (t: State)
    requires s.Valid() && character != 0
    ensures t.Valid() && SameFrame(s, t) && t.replies == s.replies
  {
    Advanced(CharacterStored(s, character))
  }

  function PutCharacter(s: State, character: char16): (t: State)
    requires s.Valid() && character != 0
    ensures t.Valid() && SameFrame(s, t) && t.replies == s.replies
  {
    Written(if s.core.cursor.wrapPending then IndexDown(MoveTo(s, s.core.cursor.row, 0)) else s, character)
  }

  function QueueReply(s: State, reply: seq<byte>): (t: State)
    requires s.Valid()
    ensures t.Valid() && SameFrame(s, t)
  {
    s.(replies := s.replies + reply[..Min(|reply|, TERMINAL_REPLY_SIZE - |s.replies|)])
  }

  function Map256Color(color: nat): (result: nat)
    ensures result < 16
  {
    if color < 16 then color
    else if color >= 232 then (if color >= 244 then 15 else 8)
    else
      var red, green, blue := (color - 16) / 36, (color - 16) / 6 % 6, (color - 16) % 6;
      (if blue >= 3 then 1 else 0) + (if green >= 3 then 2 else 0) + (if red >= 3 then 4 else 0)
      + (if Max(red, Max(green, blue)) >= 5 then 8 else 0)
  }

  function MapRgbColor(red: nat, green: nat, blue: nat): (result: nat)
    ensures result < 16
  {
    (if blue >= 128 then 1 else 0) + (if green >= 128 then 2 else 0) + (if red >= 128 then 4 else 0)
    + (if Max(red, Max(green, blue)) >= 192 then 8 else 0)
  }

  /** The effect of one select-graphic-rendition parameter, and how many parameters it used. */
  function Rendition(pen: Pen, p: Parser, index: nat): (result: (Pen, nat))
    requires pen.Valid() && p.Valid() && index < p.count
    ensures result.0.Valid() && 1 <= result.1 <= 5
    ensures result.0.DefaultAttribute() == pen.DefaultAttribute()
  {
    var value := p.Parameter(index, 0);
    if value == 0 then (pen.Reset(), 1)
    else if value == 1 then (pen.(bold := true), 1)
    else if value == 22 then (pen.(bold := false), 1)
    else if value == 7 then (pen.(reverse := true), 1)
    else if value == 27 then (pen.(reverse := false), 1)
    else if 30 <= value <= 37 then (pen.(foreground := value - 30), 1)
    else if 90 <= value <= 97 then (pen.(foreground := value - 90 + 8), 1)
    else if value == 39 then (pen.(foreground := pen.defaultForeground), 1)
    else if 40 <= value <= 47 then (pen.(background := value - 40), 1)
    else if 100 <= value <= 107 then (pen.(background := value - 100 + 8), 1)
    else if value == 49 then (pen.(background := pen.defaultBackground), 1)
    else if (value == 38 || value == 48) && index + 2 < p.count && p.Parameter(index + 1, -1) == 5 then
      (Coloured(pen, value == 38, Map256Color(p.Parameter(index + 2, 0))), 3)
    else if (value == 38 || value == 48) && index + 4 < p.count && p.Parameter(index + 1, -1) == 2 then
      (Coloured(pen, value == 38,
        MapRgbColor(p.Parameter(index + 2, 0), p.Parameter(index + 3, 0), p.Parameter(index + 4, 0))), 5)
    else (pen, 1)
  }

  function Coloured(pen: Pen, isForeground: bool, color: nat): Pen {
    if isForeground then pen.(foreground := color) else pen.(background := color)
  }

  function Renditions(pen: Pen, p: Parser, index: nat): (result: Pen)
    requires pen.Valid() && p.Valid()
    ensures result.Valid() && result.DefaultAttribute() == pen.DefaultAttribute()
    decreases p.count - index
  {
    if index >= p.count then pen
    else
      var (next, used) := Rendition(pen, p, index);
      Renditions(next, p, index + used)
  }

  function SelectGraphicRendition(s: State): (t: State)
    requires s.Valid()
    ensures t.Valid() && SameFrame(s, t) && t.replies == s.replies
  {
    s.(core := s.core.(pen := Renditions(s.core.pen, s.core.parser, 0)))
  }

  function SaveCursor(s: State): (t: State)
    requires s.Valid()
    ensures t.Valid() && SameSettings(s, t) && t.replies == s.replies
  {
    s.(core := s.core.(saved := Place(s.core.cursor.row, s.core.cursor.column)))
  }

  function RestoreCursor(s: State): (t: State)
    requires s.Valid()
    ensures t.Valid() && SameFrame(s, t) && t.replies == s.replies
  {
    MoveTo(s, Min(s.core.saved.row, s.core.rows - 1), Min(s.core.saved.column, s.core.columns - 1))
  }

  function DefaultGrid(c: Core): Grid {
    BlankGrid(c.rows, c.columns, c.pen.DefaultAttribute())
  }

  /** Blanks the displayed grid and the console together; the spans stay as they are. */
  function ClearedScreen(s: State): (t: State)
    requires s.Valid()
    ensures t.Valid() && SameFrame(s, t) && t.replies == s.replies
  {
    s.(core := s.core.WithCells(DefaultGrid(s.core)),
       display := s.display.(console := s.display.console.Cleared()))
  }

  function EraseDisplay(s: State, mode: int): (t: State)
    requires s.Valid()
    ensures t.Valid() && SameFrame(s, t) && t.replies == s.replies
  {
    var c := s.core;
    if mode == 2 || mode == 3 then
      var t := ClearedScreen(s);
      t.(display := t.display.Unmarked(c.columns))
    else if mode == 1 then
      Erased(Erased(s, 0, c.cursor.row, 0, c.columns - 1), c.cursor.row, c.cursor.row + 1, 0, c.cursor.column)
    else
      Erased(Erased(s, c.cursor.row, c.cursor.row + 1, c.cursor.column, c.columns - 1), c.cursor.row + 1, c.rows, 0, c.columns - 1)
  }

  function EraseLine(s: State, mode: int): (t: State)
    requires s.Valid()
    ensures t.Valid() && SameFrame(s, t) && t.replies == s.replies
  {
    var c := s.core;
    if mode == 1 then Erased(s, c.cursor.row, c.cursor.row + 1, 0, c.cursor.column)
    else if mode == 2 then Erased(s, c.cursor.row, c.cursor.row + 1, 0, c.columns - 1)
    else Erased(s, c.cursor.row, c.cursor.row + 1, c.cursor.column, c.columns - 1)
  }

  /** Puts the alternate buffer on display, remembering where the cursor was. */
  function AlternateShown(s: State): (t: State)
    requires s.Valid()
    ensures t.Valid() && SameFrame(s, t) && t.replies == s.replies
  {
    var c := s.core;
    s.(core := c.(primaryPlace := Place(c.cursor.row, c.cursor.column),
                  cursor := c.cursor.(row := 0, column := 0),
                  buffers := c.buffers.(alternateActive := true),
                  margins := Margins(0, c.rows - 1)))
  }

  /** Puts the primary buffer and its cursor back on display. */
  function PrimaryShown(s: State): (t: State)
    requires s.Valid()
    ensures t.Valid() && SameFrame(s, t) && t.replies == s.replies
  {
    var c := s.core;
    s.(core := c.(buffers := c.buffers.(alternateActive := false),
                  cursor := c.cursor.(row := Min(c.primaryPlace.row, c.rows - 1),
                                      column := Min(c.primaryPlace.column, c.columns - 1)),
                  margins := Margins(0, c.rows - 1)))
  }

  function AllMarked(s: State): (t: State)
    requires s.Valid()
    ensures t.Valid() && SameFrame(s, t) && t.replies == s.replies
  {
    s.(display := s.display.Marked(0, s.core.rows, 0, s.core.columns - 1))
  }

  function SetAlternateScreen(s: State, enable: bool): (t: State)
    requires s.Valid()
    ensures t.Valid() && SameFrame(s, t) && t.replies == s.replies
  {
    NoWrap(if enable && !s.core.buffers.alternateActive then ClearedScreen(AlternateShown(s))
           else if !enable && s.core.buffers.alternateActive then AllMarked(PrimaryShown(s))
           else s)
  }

  function SetMode(s: State, value: int, enable: bool): (t: State)
    requires s.Valid()
    ensures t.Valid() && SameFrame(s, t) && t.replies == s.replies
  {
    if s.core.parser.private then
      if value == 1 then s.(core := s.core.(modes := s.core.modes.(applicationCursor := enable)))
      else if value == 25 then s.(core := s.core.(modes := s.core.modes.(cursorVisible := enable)))
      else if value == 47 || value == 1047 || value == 1049 then SetAlternateScreen(s, enable)
      else s
    else if value == 4 then s.(core := s.core.(modes := s.core.modes.(insert := enable)))
    else s
  }

  /** The first n parameters of a mode sequence, in order. */
  function SetModes(s: State, enable: bool, n: nat): (t: State)
    requires s.Valid()
    ensures t.Valid() && SameFrame(s, t) && t.replies == s.replies
  {
    if n == 0 then s
    else
      var t := SetModes(s, enable, n - 1);
      SetMode(t, t.core.parser.Parameter(n - 1, 0), enable)
  }

  function InsertLines(s: State, count: nat): (t: State)
    requires s.Valid() && 1 <= count
    ensures t.Valid() && SameFrame(s, t) && t.replies == s.replies
  {
    var c := s.core;
    if c.cursor.row < c.margins.top || c.cursor.row > c.margins.bottom then s
    else PushRows(s, c.cursor.row, c.margins.bottom, Min(count, c.margins.bottom - c.cursor.row + 1))
  }

  function DeleteLines(s: State, count: nat): (t: State)
    requires s.Valid() && 1 <= count
    ensures t.Valid() && SameFrame(s, t) && t.replies == s.replies
  {
    var c := s.core;
    if c.cursor.row < c.margins.top || c.cursor.row > c.margins.bottom then s
    else PullRows(s, c.cursor.row, c.margins.bottom, Min(count, c.margins.bottom - c.cursor.row + 1))
  }

  function InsertCharacters(s: State, count: nat): (t: State)
    requires s.Valid() && 1 <= count
    ensures t.Valid() && SameFrame(s, t) && t.replies == s.replies
  {
    var c := s.core;
    var n := Min(count, c.columns - c.cursor.column);
    var line := Pushed(c.Cells()[c.cursor.row], c.cursor.column, c.columns, n, Blank(c.pen.Attribute()));
    Rewritten(s, c.Cells()[c.cursor.row := line], c.cursor.row, c.cursor.row + 1, c.cursor.column, c.columns - 1)
  }

  function DeleteCharacters(s: State, count: nat): (t: State)
    requires s.Valid() && 1 <= count
    ensures t.Valid() && SameFrame(s, t) && t.replies == s.replies
  {
    var c := s.core;
    var n := Min(count, c.columns - c.cursor.column);
    var line := Pulled(c.Cells()[c.cursor.row], c.cursor.column, c.columns, n, Blank(c.pen.Attribute()));
    Rewritten(s, c.Cells()[c.cursor.row := line], c.cursor.row, c.cursor.row + 1, c.cursor.column, c.columns - 1)
  }

  /** Decimal digits of n, most significant first. */
  function Decimal(n: nat): (digits: seq<byte>)
    ensures |digits| >= 1
    ensures forall i | 0 <= i < |digits| :: 0x30 <= digits[i] <= 0x39
  {
    if n < 10 then [0x30 + n] else Decimal(n / 10) + [0x30 + n % 10]
  }

  /** ESC [ row ; column R, both counted from 1. */
  function CursorReport(row: nat, column: nat): seq<byte> {
    [ESC, 0x5b] + Decimal(row + 1) + [0x3b] + Decimal(column + 1) + [0x52]
  }

  function DeviceStatus(s: State, mode: int): (t: State)
    requires s.Valid()
    ensures t.Valid() && SameFrame(s, t)
  {
    if mode == 5 then QueueReply(s, [ESC, 0x5b, 0x30, 0x6e])
    else if mode == 6 then QueueReply(s, CursorReport(s.core.cursor.row, s.core.cursor.column))
    else s
  }

  /** The margins are accepted when top < bottom < rows; a bottom of 0 is the largest UINTN less one row. */
  function SetScrollRegion(s: State): (t: State)
    requires s.Valid()
    ensures t.Valid() && SameFrame(s, t) && t.replies == s.replies
  {
    var p := s.core.parser;
    var top := p.NonZeroParameter(0) - 1;
    var given := p.Parameter(1, s.core.rows);
    var bottom := if given == 0 then MAX_UINTN else given - 1;
    if top < bottom < s.core.rows then
      MoveTo(s.(core := s.core.(margins := Margins(top, bottom))), 0, 0)
    else s
  }

  /** The cursor after a cursor-motion sequence; other final bytes do not move it. */
  function CursorMoved(c: Core, final: byte): (position: (nat, nat))
    requires c.Valid()
    ensures position.0 < c.rows && position.1 < c.columns
  {
    var count := c.parser.NonZeroParameter(0);
    var up := if count > c.cursor.row then 0 else c.cursor.row - count;
    var down := Min(c.rows - 1, c.cursor.row + count);
    match final as char
    case 'A' => (up, c.cursor.column)
    case 'B' => (down, c.cursor.column)
    case 'C' => (c.cursor.row, Min(c.columns - 1, c.cursor.column + count))
    case 'D' => (c.cursor.row, if count > c.cursor.column then 0 else c.cursor.column - count)
    case 'E' => (down, 0)
    case 'F' => (up, 0)
    case 'G' => (c.cursor.row, Min(c.columns - 1, count - 1))
    case 'H' => (Min(c.rows - 1, count - 1), Min(c.columns - 1, c.parser.NonZeroParameter(1) - 1))
    case 'f' => (Min(c.rows - 1, count - 1), Min(c.columns - 1, c.parser.NonZeroParameter(1) - 1))
    case 'd' => (Min(c.rows - 1, count - 1), c.cursor.column)
    case _ => (c.cursor.row, c.cursor.column)
  }

  /** The sequences that edit cells. */
  function HandleEditing(s: State, final: byte): (t: State)
    requires s.Valid()
    ensures t.Valid() && SameFrame(s, t) && t.replies == s.replies
  {
    var c := s.core;
    var count := c.parser.NonZeroParameter(0);
    match final as char
    case 'J' => EraseDisplay(s, c.parser.Parameter(0, 0))
    case 'K' => EraseLine(s, c.parser.Parameter(0, 0))
    case 'L' => InsertLines(s, count)
    case 'M' => DeleteLines(s, count)
    case '@' => InsertCharacters(s, count)
    case 'P' => DeleteCharacters(s, count)
    case 'X' => Erased(s, c.cursor.row, c.cursor.row + 1, c.cursor.column, Min(c.columns - 1, c.cursor.column + count - 1))
    case 'S' => ScrollUp(s, count)
    case 'T' => ScrollDown(s, count)
    case _ => s
  }

  predicate IsEditing(final: byte) {
    final as char in "JKLM@PXST"
  }

  /** A complete control sequence, by its final byte. */
  function HandleCsi(s: State, final: byte): (t: State)
    requires s.Valid()
    ensures t.Valid() && SameSettings(s, t)
  {
    var p := s.core.parser;
    var t := NoWrap(s);
    if IsEditing(final) then HandleEditing(t, final)
    else
      match final as char
      case 'm' => SelectGraphicRendition(t)
      case 's' => SaveCursor(t)
      case 'u' => RestoreCursor(t)
      case 'r' => SetScrollRegion(t)
      case 'h' => SetModes(t, true, p.count)
      case 'l' => SetModes(t, false, p.count)
      case 'n' => DeviceStatus(t, p.Parameter(0, 0))
      case 'c' => QueueReply(t, [ESC, 0x5b, 0x3f, 0x31, 0x3b, 0x30, 0x63])
      case _ =>
        var (row, column) := CursorMoved(t.core, final);
        MoveTo(t, row, column)
  }

  function WithParser(s: State, p: Parser): (t: State)
    requires s.Valid() && p.Valid()
    ensures t.Valid() && t.replies == s.replies
  {
    s.(core := s.core.(parser := p))
  }

  function WithMode(s: State, mode: Mode): (t: State)
    requires s.Valid() && (mode == Ground || s.core.parser.remaining == 0)
    ensures t.Valid() && t.replies == s.replies
  {
    WithParser(s, s.core.parser.(mode := mode))
  }

  /** A fresh parameter list, in ground state. */
  function ResetParser(p: Parser): (q: Parser)
    requires p.Valid()
    ensures q.Valid()
  {
    p.(mode := Ground, parameters := Repeat(TERMINAL_MAX_PARAMS, -1), count := 1, private := false)
  }

  /** The 16-bit character a code point is shown as: '?' outside the basic plane and for surrogates. */
  function Shown(codePoint: nat): (character: char16)
    ensures character != 0
  {
    if codePoint == 0 || codePoint > 0xffff || 0xd800 <= codePoint <= 0xdfff then 0x3f else codePoint
  }

  function EmitCodePoint(s: State, codePoint: nat): (t: State)
    requires s.Valid()
    ensures t.Valid() && SameFrame(s, t) && t.replies == s.replies
  {
    PutCharacter(s, Shown(codePoint))
  }

  /** A byte in ground state while no UTF-8 sequence is open. */
  function HandleFirstByte(s: State, b: byte): (t: State)
    requires s.Valid() && s.core.parser.mode == Ground && s.core.parser.remaining == 0
    ensures t.Valid() && t.replies == s.replies
  {
    var c := s.core;
    if b == ESC then WithMode(s, Escape)
    else if b == 0x0d then MoveTo(NoWrap(s), c.cursor.row, 0)
    else if b == 0x0a then IndexDown(s)
    else if b == 0x08 then MoveTo(NoWrap(s), c.cursor.row, if c.cursor.column == 0 then 0 else c.cursor.column - 1)
    else if b == 0x09 then MoveTo(NoWrap(s), c.cursor.row, Min(c.columns - 1, (c.cursor.column + 8) / 8 * 8))
    else if 0x20 <= b < 0x7f then PutCharacter(s, b)
    else if b / 0x20 == 6 then WithParser(s, c.parser.(remaining := 1, codePoint := b % 0x20))
    else if b / 0x10 == 0xe then WithParser(s, c.parser.(remaining := 2, codePoint := b % 0x10))
    else if b / 8 == 0x1e then WithParser(s, c.parser.(remaining := 3, codePoint := b % 8))
    else s
  }

  function HandleGroundByte(s: State, b: byte): (t: State)
    requires s.Valid() && s.core.parser.mode == Ground
    ensures t.Valid() && t.replies == s.replies
  {
    var p := s.core.parser;
    if p.remaining == 0 then HandleFirstByte(s, b)
    else if b / 0x40 != 2 then
      HandleFirstByte(EmitCodePoint(WithParser(s, p.(remaining := 0)), 0xfffd), b)
    else
      var codePoint := p.codePoint * 0x40 + b % 0x40;
      var t := WithParser(s, p.(remaining := p.remaining - 1, codePoint := codePoint));
      if p.remaining == 1 then EmitCodePoint(t, codePoint) else t
  }

  function HandleEscapeByte(s: State, b: byte): (t: State)
    requires s.Valid() && s.core.parser.mode == Escape
    ensures t.Valid() && t.replies == s.replies
  {
    var c := s.core;
    if b == 0x5b then WithParser(s, ResetParser(c.parser).(mode := Csi))
    else if b == 0x5d then WithMode(s, Osc)
    else
      var t := WithMode(s, Ground);
      match b as char
      case '7' => SaveCursor(t)
      case '8' => RestoreCursor(t)
      case 'D' => IndexDown(t)
      case 'M' => IndexUp(t)
      case 'E' => IndexDown(MoveTo(t, c.cursor.row, 0))
      case 'c' =>
        ClearedScreen(t.(core := t.core.(
          pen := c.pen.Reset(), cursor := c.cursor.(row := 0, column := 0), margins := Margins(0, c.rows - 1))))
      case _ => t
  }

  /** A digit, separator or private marker added to the parameter list; other bytes leave it alone. */
  function Collected(p: Parser, b: byte): (q: Parser)
    requires p.Valid() && p.mode == Csi
    ensures q.Valid() && q.mode == Csi
  {
    if b == 0x3f && p.count == 1 && p.parameters[0] < 0 then p.(private := true)
    else if 0x30 <= b <= 0x39 then
      var value := Max(p.parameters[p.count - 1], 0);
      p.(parameters := p.parameters[p.count - 1 := if value < 1000000 then value * 10 + (b - 0x30) else value])
    else if b == 0x3b && p.count < TERMINAL_MAX_PARAMS then
      p.(parameters := p.parameters[p.count := -1], count := p.count + 1)
    else p
  }

  function HandleCsiByte(s: State, b: byte): (t: State)
    requires s.Valid() && s.core.parser.mode == Csi
    ensures t.Valid()
  {
    if 0x40 <= b <= 0x7e then WithMode(HandleCsi(s, b), Ground)
    else WithParser(s, Collected(s.core.parser, b))
  }

  /** One byte from the server. */
  function Step(s: State, b: byte): (t: State)
    requires s.Valid()
    ensures t.Valid()
  {
    var p := s.core.parser;
    if b == ESC then
      if p.mode == Osc then WithMode(s, OscEscape)
      else if p.mode == OscEscape then s
      else WithParser(s, p.(mode := Escape, remaining := 0))
    else
      match p.mode
      case Ground => HandleGroundByte(s, b)
      case Escape => HandleEscapeByte(s, b)
      case Csi => HandleCsiByte(s, b)
      case Osc => if b == 0x07 then WithMode(s, Ground) else s
      case OscEscape => WithMode(s, if b == 0x5c then Ground else Osc)
  }

  /** A whole byte string from the server. */
  function Feed(s: State, data: seq<byte>): (t: State)
    requires s.Valid()
    ensures t.Valid()
  {
    if data == [] then s else Step(Feed(s, data[..|data| - 1]), data[|data| - 1])
  }

  /** Takes at most capacity queued reply bytes, oldest first. */
  function TakeResponse(s: State, capacity: nat): (result: (State, seq<byte>))
    requires s.Valid()
    ensures result.0.Valid() && result.0.core == s.core && result.0.display == s.display
    ensures result.1 + result.0.replies == s.replies && |result.1| == Min(capacity, |s.replies|)
  {
    var n := Min(capacity, |s.replies|);
    (s.(replies := s.replies[n..]), s.replies[..n])
  }

  // ---------- Repainting ----------

  function Characters(cells: seq<Cell>): (text: seq<char16>)
    ensures |text| == |cells|
  {
    seq(|cells|, i requires 0 <= i < |cells| => cells[i].character)
  }

  /** The last column, up to end, of the run of one attribute that starts at position. */
  function RunEnd(line: seq<Cell>, position: nat, end: nat): (last: nat)
    requires position <= end < |line|
    ensures position <= last <= end
    ensures forall c | position <= c <= last :: line[c].attribute == line[position].attribute
    ensures last < end ==> line[last + 1].attribute != line[position].attribute
    decreases end - position
  {
    if position < end && line[position + 1].attribute == line[position].attribute
    then RunEnd(line, position + 1, end)
    else position
  }

  function RunDraw(line: seq<Cell>, row: nat, position: nat, end: nat): Draw
    requires position <= end < |line|
  {
    Draw(row, position, line[position].attribute, Characters(line[position..RunEnd(line, position, end) + 1]))
  }

  /** Paints columns position..end of a line, one output call for each run of one attribute. */
  function LinePainted(screen: Screen, line: seq<Cell>, row: nat, position: nat, end: nat): (painted: Screen)
    requires end < |line|
    ensures |painted.cells| == |screen.cells|
    ensures forall r | 0 <= r < |screen.cells| :: |painted.cells[r]| == |screen.cells[r]|
    decreases end - position
  {
    if position > end then screen
    else LinePainted(screen.Painted(RunDraw(line, row, position, end)), line, row, RunEnd(line, position, end) + 1, end)
  }

  /** Repaints and empties the span of row r, if it has one. */
  function RowFlushed(s: State, r: nat): (t: State)
    requires s.Valid() && r < s.core.rows
    ensures t.Valid() && t.core == s.core && t.replies == s.replies
  {
    var d := s.display;
    if d.dirtyStart[r] >= s.core.columns || d.dirtyEnd[r] < d.dirtyStart[r] then s
    else
      s.(display := Display(
        d.dirtyStart[r := s.core.columns], d.dirtyEnd[r := 0],
        LinePainted(d.console, s.core.Cells()[r], r, d.dirtyStart[r], d.dirtyEnd[r])))
  }

  function RowsFlushed(s: State, n: nat): (t: State)
    requires s.Valid() && n <= s.core.rows
    ensures t.Valid() && t.core == s.core && t.replies == s.replies
  {
    if n == 0 then s else RowFlushed(RowsFlushed(s, n - 1), n - 1)
  }

  /** Repaints every span, then hands the console the terminal's attribute and cursor. */
  function Flush(s: State): (t: State)
    requires s.Valid()
    ensures t.Valid() && t.core == s.core && t.replies == s.replies
  {
    var t := RowsFlushed(s.(display := s.display.(console := s.display.console.(cursorVisible := false))), s.core.rows);
    t.(display := t.display.(console := t.display.console.(
      attribute := s.core.pen.Attribute(), cursorRow := s.core.cursor.row, cursorColumn := s.core.cursor.column,
      cursorVisible := s.core.modes.cursorVisible)))
  }

  // ---------- Creation ----------

  /** The size a terminal takes from the console's current mode: 80 by 25 when the query
      fails or answers zero or more than 16 bits. */
  function SizeFromMode(known: bool, columns: nat, rows: nat): (size: (nat, nat))
    ensures 1 <= size.0 <= MAX_UINT16 && 1 <= size.1 <= MAX_UINT16
  {
    if !known || columns == 0 || rows == 0 || columns > MAX_UINT16 || rows > MAX_UINT16 then (80, 25)
    else (columns, rows)
  }

  const NO_PARAMETERS: seq<int> := Repeat(TERMINAL_MAX_PARAMS, -1)

  /** A new terminal over a console; the console keeps whatever it was showing. */
  function Created(columns: nat, rows: nat, console: Screen): (s: State)
    requires 1 <= columns <= MAX_UINT16 && 1 <= rows <= MAX_UINT16
    requires Sized(console.cells, rows, columns)
    ensures s.Valid()
  {
    var foreground, background := console.attribute % 16, console.attribute / 16 % 8;
    var pen := Pen(foreground, background, foreground, background, false, false);
    var blank := BlankGrid(rows, columns, pen.DefaultAttribute());
    State(
      Core(columns, rows, Buffers(blank, blank, false), Cursor(0, 0, false), Place(0, 0), Place(0, 0),
           Margins(0, rows - 1), pen, Modes(true, false, false), Parser(Ground, NO_PARAMETERS, 1, false, 0, 0)),
      [],
      Display(Repeat(rows, columns), Repeat(rows, 0), console))
  }
}
