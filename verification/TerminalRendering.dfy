/** The rendering cache: what the console shows between and after repaints, over every run. */
module TerminalRendering {
  import opened Basics
  import opened Grids
  import opened TerminalState

  predicate Shows(shown: Cell, cell: Cell, colours: bool) {
    shown.character == cell.character && (colours ==> shown.attribute == cell.attribute)
  }

  /** A cell the console shows wrongly and that no span will repaint. */
  ghost predicate Stale(s: State, r: nat, c: nat, colours: bool)
    requires s.Valid() && r < s.core.rows && c < s.core.columns
  {
    !s.display.InSpan(r, c) && !Shows(s.display.console.cells[r][c], s.core.Cells()[r][c], colours)
  }

  ghost predicate NothingStale(s: State, colours: bool)
    requires s.Valid()
  {
    forall r: nat, c: nat | r < s.core.rows && c < s.core.columns :: !Stale(s, r, c, colours)
  }

  /** Every cell of the console shows the grid, whatever the spans say. */
  ghost predicate Agrees(s: State, colours: bool)
    requires s.Valid()
  {
    forall r: nat, c: nat | r < s.core.rows && c < s.core.columns ::
      Shows(s.display.console.cells[r][c], s.core.Cells()[r][c], colours)
  }

  /** The console would clear in the colours the terminal clears its grid with. */
  predicate Tinted(s: State) {
    s.display.console.attribute == s.core.pen.DefaultAttribute()
  }

  /** From s to t no cell became stale, and clearing still means the same. */
  ghost predicate Keeps(s: State, t: State, colours: bool)
    requires s.Valid() && t.Valid()
  {
    && t.core.rows == s.core.rows && t.core.columns == s.core.columns
    && t.core.pen.DefaultAttribute() == s.core.pen.DefaultAttribute()
    && t.display.console.attribute == s.display.console.attribute
    && forall r: nat, c: nat | r < s.core.rows && c < s.core.columns ::
         Stale(t, r, c, colours) ==> Stale(s, r, c, colours)
  }

  lemma KeepsTwice(s: State, t: State, u: State, colours: bool)
    requires s.Valid() && t.Valid() && u.Valid()
    requires Keeps(s, t, colours) && Keeps(t, u, colours)
    ensures Keeps(s, u, colours)
  {
  }

  lemma SameScreenKeeps(s: State, t: State, colours: bool)
    requires s.Valid() && t.Valid()
    requires t.core.rows == s.core.rows && t.core.columns == s.core.columns
    requires t.core.pen.DefaultAttribute() == s.core.pen.DefaultAttribute()
    requires t.core.Cells() == s.core.Cells() && t.display == s.display
    ensures Keeps(s, t, colours)
  {
  }

  lemma RewrittenKeeps(s: State, g: Grid, first: nat, limit: nat, start: nat, end: nat, colours: bool)
    requires s.Valid() && Renderable(g, s.core.rows, s.core.columns)
    requires first <= limit <= s.core.rows && start <= end < s.core.columns
    requires SameOutside(s.core.Cells(), g, first, limit, start, end)
    ensures Keeps(s, Rewritten(s, g, first, limit, start, end), colours)
  {
    var t := Rewritten(s, g, first, limit, start, end);
    forall r: nat, c: nat | r < s.core.rows && c < s.core.columns && Stale(t, r, c, colours)
      ensures Stale(s, r, c, colours)
    {
      assert !t.display.InSpan(r, c);
      assert !(first <= r < limit && start <= c <= end);
      assert g[r][c] == s.core.Cells()[r][c];
    }
  }

  lemma ErasedKeeps(s: State, first: nat, limit: nat, start: nat, end: nat, colours: bool)
    requires s.Valid() && first <= limit <= s.core.rows && start <= end < s.core.columns
    ensures Keeps(s, Erased(s, first, limit, start, end), colours)
  {
    RewrittenKeeps(s, Erased(s, first, limit, start, end).core.Cells(), first, limit, start, end, colours);
  }

  lemma PullRowsKeeps(s: State, top: nat, bottom: nat, n: nat, colours: bool)
    requires s.Valid() && top <= bottom < s.core.rows
    ensures Keeps(s, PullRows(s, top, bottom, n), colours)
  {
    RewrittenKeeps(s, PullRows(s, top, bottom, n).core.Cells(), top, bottom + 1, 0, s.core.columns - 1, colours);
  }

  lemma PushRowsKeeps(s: State, top: nat, bottom: nat, n: nat, colours: bool)
    requires s.Valid() && top <= bottom < s.core.rows
    ensures Keeps(s, PushRows(s, top, bottom, n), colours)
  {
    RewrittenKeeps(s, PushRows(s, top, bottom, n).core.Cells(), top, bottom + 1, 0, s.core.columns - 1, colours);
  }

  lemma ScrollUpKeeps(s: State, count: nat, colours: bool)
    requires s.Valid()
    ensures Keeps(s, ScrollUp(s, count), colours)
  {
    var n := Min(count, s.core.margins.bottom - s.core.margins.top + 1);
    PullRowsKeeps(s, s.core.margins.top, s.core.margins.bottom, n, colours);
  }

  lemma ScrollDownKeeps(s: State, count: nat, colours: bool)
    requires s.Valid()
    ensures Keeps(s, ScrollDown(s, count), colours)
  {
    var n := Min(count, s.core.margins.bottom - s.core.margins.top + 1);
    PushRowsKeeps(s, s.core.margins.top, s.core.margins.bottom, n, colours);
  }

  lemma IndexDownKeeps(s: State, colours: bool)
    requires s.Valid()
    ensures Keeps(s, IndexDown(s), colours)
  {
    hide ScrollUp;
    var t := NoWrap(s);
    SameScreenKeeps(s, t, colours);
    if t.core.cursor.row == t.core.margins.bottom {
      ScrollUpKeeps(t, 1, colours);
    } else {
      SameScreenKeeps(t, IndexDown(s), colours);
    }
    KeepsTwice(s, t, IndexDown(s), colours);
  }

  lemma IndexUpKeeps(s: State, colours: bool)
    requires s.Valid()
    ensures Keeps(s, IndexUp(s), colours)
  {
    hide ScrollDown;
    var t := NoWrap(s);
    SameScreenKeeps(s, t, colours);
    if t.core.cursor.row == t.core.margins.top {
      ScrollDownKeeps(t, 1, colours);
    } else {
      SameScreenKeeps(t, IndexUp(s), colours);
    }
    KeepsTwice(s, t, IndexUp(s), colours);
  }

  lemma StoredKeeps(s: State, character: char16, colours: bool)
    requires s.Valid() && character != 0
    ensures Keeps(s, CharacterStored(s, character), colours)
  {
    hide Keeps;
    var c := s.core;
    var t := CharacterStored(s, character);
    if c.modes.insert && c.cursor.column + 1 < c.columns {
      RewrittenKeeps(s, t.core.Cells(), c.cursor.row, c.cursor.row + 1, c.cursor.column, c.columns - 1, colours);
    } else {
      RewrittenKeeps(s, t.core.Cells(), c.cursor.row, c.cursor.row + 1, c.cursor.column, c.cursor.column, colours);
    }
  }

  lemma WrittenKeeps(s: State, character: char16, colours: bool)
    requires s.Valid() && character != 0
    ensures Keeps(s, Written(s, character), colours)
  {
    hide CharacterStored;
    var t := CharacterStored(s, character);
    StoredKeeps(s, character, colours);
    SameScreenKeeps(t, Advanced(t), colours);
    KeepsTwice(s, t, Advanced(t), colours);
  }

  lemma PutCharacterKeeps(s: State, character: char16, colours: bool)
    requires s.Valid() && character != 0
    ensures Keeps(s, PutCharacter(s, character), colours)
  {
    hide IndexDown, Written;
    if s.core.cursor.wrapPending {
      var t := MoveTo(s, s.core.cursor.row, 0);
      var u := IndexDown(t);
      SameScreenKeeps(s, t, colours);
      IndexDownKeeps(t, colours);
      KeepsTwice(s, t, u, colours);
      WrittenKeeps(u, character, colours);
      KeepsTwice(s, u, PutCharacter(s, character), colours);
    } else {
      WrittenKeeps(s, character, colours);
    }
  }

  /** Clearing blanks grid and console alike, so every cell agrees; its colour agrees
      exactly when the console clears in the terminal's default colours. */
  lemma ClearedScreenAgrees(s: State, colours: bool)
    requires s.Valid()
    ensures Agrees(ClearedScreen(s), colours) <==> (colours ==> Tinted(s))
  {
    var t := ClearedScreen(s);
    forall r: nat, c: nat | r < s.core.rows && c < s.core.columns
      ensures t.display.console.cells[r][c] == Blank(s.display.console.attribute)
           && t.core.Cells()[r][c] == Blank(s.core.pen.DefaultAttribute())
    {
    }
    if colours && !Tinted(s) {
      assert !Shows(t.display.console.cells[0][0], t.core.Cells()[0][0], colours);
    }
  }

  lemma AgreesKeeps(s: State, t: State, colours: bool)
    requires s.Valid() && t.Valid() && SameFrame(s, t) && Agrees(t, colours)
    requires t.display.console.attribute == s.display.console.attribute
    ensures Keeps(s, t, colours)
  {
  }

  lemma ClearedScreenKeeps(s: State, colours: bool)
    requires s.Valid() && (colours ==> Tinted(s))
    ensures Keeps(s, ClearedScreen(s), colours)
  {
    ClearedScreenAgrees(s, colours);
    AgreesKeeps(s, ClearedScreen(s), colours);
  }

  lemma EraseDisplayKeeps(s: State, mode: int, colours: bool)
    requires s.Valid() && (colours ==> Tinted(s))
    ensures Keeps(s, EraseDisplay(s, mode), colours)
  {
    hide Erased, ClearedScreen;
    var c := s.core;
    if mode == 2 || mode == 3 {
      ClearedScreenAgrees(s, colours);
      ClearedScreenKeeps(s, colours);
      AgreesKeeps(s, EraseDisplay(s, mode), colours);
    } else if mode == 1 {
      var t := Erased(s, 0, c.cursor.row, 0, c.columns - 1);
      ErasedKeeps(s, 0, c.cursor.row, 0, c.columns - 1, colours);
      ErasedKeeps(t, c.cursor.row, c.cursor.row + 1, 0, c.cursor.column, colours);
      KeepsTwice(s, t, EraseDisplay(s, mode), colours);
    } else {
      var t := Erased(s, c.cursor.row, c.cursor.row + 1, c.cursor.column, c.columns - 1);
      ErasedKeeps(s, c.cursor.row, c.cursor.row + 1, c.cursor.column, c.columns - 1, colours);
      ErasedKeeps(t, c.cursor.row + 1, c.rows, 0, c.columns - 1, colours);
      KeepsTwice(s, t, EraseDisplay(s, mode), colours);
    }
  }

  lemma EraseLineKeeps(s: State, mode: int, colours: bool)
    requires s.Valid()
    ensures Keeps(s, EraseLine(s, mode), colours)
  {
    hide Erased;
    var c := s.core;
    ErasedKeeps(s, c.cursor.row, c.cursor.row + 1, 0, c.cursor.column, colours);
    ErasedKeeps(s, c.cursor.row, c.cursor.row + 1, 0, c.columns - 1, colours);
    ErasedKeeps(s, c.cursor.row, c.cursor.row + 1, c.cursor.column, c.columns - 1, colours);
  }

  lemma AllMarkedKeeps(s: State, t: State, colours: bool)
    requires s.Valid() && t.Valid() && SameFrame(s, t) && t.display == s.display
    ensures Keeps(s, AllMarked(t), colours)
  {
    var u := AllMarked(t);
    forall r: nat, c: nat | r < s.core.rows && c < s.core.columns ensures !Stale(u, r, c, colours) {
      assert u.display.InSpan(r, c);
    }
  }

  lemma SetAlternateScreenKeeps(s: State, enable: bool, colours: bool)
    requires s.Valid() && (colours ==> Tinted(s))
    ensures Keeps(s, SetAlternateScreen(s, enable), colours)
  {
    hide ClearedScreen, AllMarked;
    var t := SetAlternateScreen(s, enable);
    if enable && !s.core.buffers.alternateActive {
      var shown := AlternateShown(s);
      var cleared := ClearedScreen(shown);
      ClearedScreenAgrees(shown, colours);
      ClearedScreenKeeps(shown, colours);
      AgreesKeeps(s, cleared, colours);
      SameScreenKeeps(cleared, t, colours);
      KeepsTwice(s, cleared, t, colours);
    } else if !enable && s.core.buffers.alternateActive {
      var marked := AllMarked(PrimaryShown(s));
      AllMarkedKeeps(s, PrimaryShown(s), colours);
      SameScreenKeeps(marked, t, colours);
      KeepsTwice(s, marked, t, colours);
    } else {
      SameScreenKeeps(s, t, colours);
    }
  }

  lemma SetModeKeeps(s: State, value: int, enable: bool, colours: bool)
    requires s.Valid() && (colours ==> Tinted(s))
    ensures Keeps(s, SetMode(s, value, enable), colours)
  {
    hide SetAlternateScreen, Keeps;
    if s.core.parser.private && (value == 47 || value == 1047 || value == 1049) {
      SetAlternateScreenKeeps(s, enable, colours);
    } else {
      SameScreenKeeps(s, SetMode(s, value, enable), colours);
    }
  }

  lemma {:induction false} SetModesKeeps(s: State, enable: bool, n: nat, colours: bool)
    requires s.Valid() && (colours ==> Tinted(s))
    ensures Keeps(s, SetModes(s, enable, n), colours)
  {
    hide SetMode;
    if n == 0 {
      SameScreenKeeps(s, s, colours);
    } else {
      SetModesKeeps(s, enable, n - 1, colours);
      var t := SetModes(s, enable, n - 1);
      SetModeKeeps(t, t.core.parser.Parameter(n - 1, 0), enable, colours);
      KeepsTwice(s, t, SetModes(s, enable, n), colours);
    }
  }

  lemma InsertLinesKeeps(s: State, count: nat, colours: bool)
    requires s.Valid() && 1 <= count
    ensures Keeps(s, InsertLines(s, count), colours)
  {
    hide PushRows;
    var c := s.core;
    if c.margins.top <= c.cursor.row <= c.margins.bottom {
      PushRowsKeeps(s, c.cursor.row, c.margins.bottom, Min(count, c.margins.bottom - c.cursor.row + 1), colours);
    }
  }

  lemma DeleteLinesKeeps(s: State, count: nat, colours: bool)
    requires s.Valid() && 1 <= count
    ensures Keeps(s, DeleteLines(s, count), colours)
  {
    hide PullRows;
    var c := s.core;
    if c.margins.top <= c.cursor.row <= c.margins.bottom {
      PullRowsKeeps(s, c.cursor.row, c.margins.bottom, Min(count, c.margins.bottom - c.cursor.row + 1), colours);
    }
  }

  lemma CharacterMovesKeep(s: State, count: nat, colours: bool)
    requires s.Valid() && 1 <= count
    ensures Keeps(s, InsertCharacters(s, count), colours)
    ensures Keeps(s, DeleteCharacters(s, count), colours)
  {
    hide Keeps;
    var c := s.core;
    RewrittenKeeps(s, InsertCharacters(s, count).core.Cells(),
      c.cursor.row, c.cursor.row + 1, c.cursor.column, c.columns - 1, colours);
    RewrittenKeeps(s, DeleteCharacters(s, count).core.Cells(),
      c.cursor.row, c.cursor.row + 1, c.cursor.column, c.columns - 1, colours);
  }

  lemma HandleEditingKeeps(s: State, final: byte, colours: bool)
    requires s.Valid() && (colours ==> Tinted(s))
    ensures Keeps(s, HandleEditing(s, final), colours)
  {
    hide EraseDisplay, EraseLine, InsertLines, DeleteLines, InsertCharacters, DeleteCharacters, Erased, ScrollUp, ScrollDown;
    var c := s.core;
    var count := c.parser.NonZeroParameter(0);
    match final as char {
      case 'J' => EraseDisplayKeeps(s, c.parser.Parameter(0, 0), colours);
      case 'K' => EraseLineKeeps(s, c.parser.Parameter(0, 0), colours);
      case 'L' => InsertLinesKeeps(s, count, colours);
      case 'M' => DeleteLinesKeeps(s, count, colours);
      case '@' => CharacterMovesKeep(s, count, colours);
      case 'P' => CharacterMovesKeep(s, count, colours);
      case 'X' =>
        ErasedKeeps(s, c.cursor.row, c.cursor.row + 1, c.cursor.column,
          Min(c.columns - 1, c.cursor.column + count - 1), colours);
      case 'S' => ScrollUpKeeps(s, count, colours);
      case 'T' => ScrollDownKeeps(s, count, colours);
      case _ => SameScreenKeeps(s, s, colours);
    }
  }

  lemma HandleCsiKeeps(s: State, final: byte, colours: bool)
    requires s.Valid() && (colours ==> Tinted(s))
    ensures Keeps(s, HandleCsi(s, final), colours)
  {
    hide HandleEditing, SetModes;
    var t := NoWrap(s);
    var u := HandleCsi(s, final);
    SameScreenKeeps(s, t, colours);
    if IsEditing(final) {
      HandleEditingKeeps(t, final, colours);
    } else if final as char == 'h' {
      SetModesKeeps(t, true, s.core.parser.count, colours);
    } else if final as char == 'l' {
      SetModesKeeps(t, false, s.core.parser.count, colours);
    } else {
      SameScreenKeeps(t, u, colours);
    }
    KeepsTwice(s, t, u, colours);
  }

  lemma HandleFirstByteKeeps(s: State, b: byte, colours: bool)
    requires s.Valid() && s.core.parser.mode == Ground && s.core.parser.remaining == 0
    ensures Keeps(s, HandleFirstByte(s, b), colours)
  {
    hide PutCharacter, IndexDown;
    if b == 0x0a {
      IndexDownKeeps(s, colours);
    } else if 0x20 <= b < 0x7f {
      PutCharacterKeeps(s, b, colours);
    } else {
      SameScreenKeeps(s, HandleFirstByte(s, b), colours);
    }
  }

  lemma HandleGroundByteKeeps(s: State, b: byte, colours: bool)
    requires s.Valid() && s.core.parser.mode == Ground
    ensures Keeps(s, HandleGroundByte(s, b), colours)
  {
    hide PutCharacter, HandleFirstByte;
    var p := s.core.parser;
    var u := HandleGroundByte(s, b);
    if p.remaining == 0 {
      HandleFirstByteKeeps(s, b, colours);
    } else if b / 0x40 != 2 {
      var t := WithParser(s, p.(remaining := 0));
      SameScreenKeeps(s, t, colours);
      var replaced := EmitCodePoint(t, 0xfffd);
      PutCharacterKeeps(t, Shown(0xfffd), colours);
      KeepsTwice(s, t, replaced, colours);
      HandleFirstByteKeeps(replaced, b, colours);
      KeepsTwice(s, replaced, u, colours);
    } else {
      var codePoint := p.codePoint * 0x40 + b % 0x40;
      var t := WithParser(s, p.(remaining := p.remaining - 1, codePoint := codePoint));
      SameScreenKeeps(s, t, colours);
      if p.remaining == 1 {
        PutCharacterKeeps(t, Shown(codePoint), colours);
        KeepsTwice(s, t, u, colours);
      }
    }
  }

  lemma HandleEscapeByteKeeps(s: State, b: byte, colours: bool)
    requires s.Valid() && s.core.parser.mode == Escape && (colours ==> Tinted(s))
    ensures Keeps(s, HandleEscapeByte(s, b), colours)
  {
    hide IndexDown, IndexUp, ClearedScreen;
    var u := HandleEscapeByte(s, b);
    if b != 0x5b && b != 0x5d {
      var t := WithMode(s, Ground);
      SameScreenKeeps(s, t, colours);
      match b as char {
        case 'D' => IndexDownKeeps(t, colours);
        case 'M' => IndexUpKeeps(t, colours);
        case 'E' =>
          var home := MoveTo(t, s.core.cursor.row, 0);
          SameScreenKeeps(t, home, colours);
          IndexDownKeeps(home, colours);
          KeepsTwice(t, home, u, colours);
        case 'c' =>
          var c := s.core;
          var reset := t.(core := t.core.(
            pen := c.pen.Reset(), cursor := c.cursor.(row := 0, column := 0), margins := Margins(0, c.rows - 1)));
          SameScreenKeeps(t, reset, colours);
          ClearedScreenKeeps(reset, colours);
          KeepsTwice(t, reset, u, colours);
        case _ => SameScreenKeeps(t, u, colours);
      }
      KeepsTwice(s, t, u, colours);
    } else {
      SameScreenKeeps(s, u, colours);
    }
  }

  /** No byte makes a cell stale. */
  lemma StepKeeps(s: State, b: byte, colours: bool)
    requires s.Valid() && (colours ==> Tinted(s))
    ensures Keeps(s, Step(s, b), colours)
  {
    hide HandleGroundByte, HandleEscapeByte, HandleCsi;
    var t := Step(s, b);
    if b == ESC || s.core.parser.mode == Osc || s.core.parser.mode == OscEscape {
      SameScreenKeeps(s, t, colours);
    } else {
      match s.core.parser.mode
      case Ground => HandleGroundByteKeeps(s, b, colours);
      case Escape => HandleEscapeByteKeeps(s, b, colours);
      case Csi =>
        if 0x40 <= b <= 0x7e {
          var u := HandleCsi(s, b);
          HandleCsiKeeps(s, b, colours);
          SameScreenKeeps(u, t, colours);
          KeepsTwice(s, u, t, colours);
        } else {
          SameScreenKeeps(s, t, colours);
        }
    }
  }

  lemma {:induction false} FeedKeeps(s: State, data: seq<byte>, colours: bool)
    requires s.Valid() && (colours ==> Tinted(s))
    ensures Keeps(s, Feed(s, data), colours)
    decreases |data|
  {
    hide Step;
    if data == [] {
      SameScreenKeeps(s, s, colours);
    } else {
      var t := Feed(s, data[..|data| - 1]);
      FeedKeeps(s, data[..|data| - 1], colours);
      StepKeeps(t, data[|data| - 1], colours);
      KeepsTwice(s, t, Feed(s, data), colours);
    }
  }

  // ---------- What a repaint does ----------

  /** From before to after, columns position..end of one row became line's and nothing else changed. */
  ghost predicate LineReplaced(before: Grid, after: Grid, line: seq<Cell>, row: nat, position: nat, end: int) {
    && |after| == |before|
    && (forall r | 0 <= r < |before| :: |after[r]| == |before[r]|)
    && (forall r, c {:trigger after[r][c]} | 0 <= r < |before| && 0 <= c < |before[r]| && c < |line| ::
          after[r][c] == if r == row && position <= c <= end then line[c] else before[r][c])
  }

  lemma RunPainted(screen: Screen, line: seq<Cell>, row: nat, position: nat, end: nat)
    requires row < |screen.cells| && |screen.cells[row]| == |line| && position <= end < |line|
    ensures LineReplaced(screen.cells, screen.Painted(RunDraw(line, row, position, end)).cells,
                         line, row, position, RunEnd(line, position, end))
  {
    hide RunEnd, RunDraw, Screen.PaintedRow;
    RunPaintedInRow(screen.cells[row], line, row, position, end);
  }

  lemma RunPaintedInRow(before: seq<Cell>, line: seq<Cell>, row: nat, position: nat, end: nat)
    requires |before| == |line| && position <= end < |line|
    ensures var d, last := RunDraw(line, row, position, end), RunEnd(line, position, end);
            d.row == row && forall c | 0 <= c < |line| ::
              Screen.PaintedRow(before, d)[c] == if position <= c <= last then line[c] else before[c]
  {
    hide RunEnd;
    var last := RunEnd(line, position, end);
    assert forall c | position <= c <= last :: line[c] == Cell(line[c].character, line[position].attribute);
  }

  lemma LineReplacedTwice(a: Grid, b: Grid, c: Grid, line: seq<Cell>, row: nat, position: nat, last: nat, end: nat)
    requires LineReplaced(a, b, line, row, position, last) && LineReplaced(b, c, line, row, last + 1, end)
    requires position <= last <= end
    ensures LineReplaced(a, c, line, row, position, end)
  {
  }

  /** The runs of a line, painted one after the other, leave exactly its cells from position to end. */
  lemma {:induction false} LinePaintedShows(screen: Screen, line: seq<Cell>, row: nat, position: nat, end: nat)
    requires row < |screen.cells| && |screen.cells[row]| == |line| && end < |line|
    ensures LineReplaced(screen.cells, LinePainted(screen, line, row, position, end).cells, line, row, position, end)
    decreases end - position
  {
    hide Screen.Painted, RunDraw, RunEnd;
    if position <= end {
      var mid := screen.Painted(RunDraw(line, row, position, end));
      var last := RunEnd(line, position, end);
      RunPainted(screen, line, row, position, end);
      LinePaintedShows(mid, line, row, last + 1, end);
      LineReplacedTwice(screen.cells, mid.cells, LinePainted(mid, line, row, last + 1, end).cells, line, row, position, last, end);
    }
  }

  /** After n rows: their spans are empty and painted, the others are as they were. */
  ghost predicate FlushedUpTo(s: State, t: State, n: nat)
    requires s.Valid() && t.Valid() && n <= s.core.rows
  {
    && t.core == s.core
    && (forall r | 0 <= r < s.core.rows :: t.display.dirtyStart[r] == if r < n then s.core.columns else s.display.dirtyStart[r])
    && (forall r | 0 <= r < s.core.rows :: t.display.dirtyEnd[r] == if r < n then 0 else s.display.dirtyEnd[r])
    && forall r: nat, c: nat | r < s.core.rows && c < s.core.columns ::
         t.display.console.cells[r][c] ==
         if r < n && s.display.InSpan(r, c) then s.core.Cells()[r][c] else s.display.console.cells[r][c]
  }

  lemma RowFlushedShows(s: State, t: State, r: nat)
    requires s.Valid() && t.Valid() && r < s.core.rows && FlushedUpTo(s, t, r)
    ensures FlushedUpTo(s, RowFlushed(t, r), r + 1)
  {
    hide LinePainted;
    var d := t.display;
    var u := RowFlushed(t, r);
    assert d.dirtyStart[r] == s.display.dirtyStart[r] && d.dirtyEnd[r] == s.display.dirtyEnd[r];
    if d.dirtyStart[r] < s.core.columns {
      LinePaintedShows(d.console, s.core.Cells()[r], r, d.dirtyStart[r], d.dirtyEnd[r]);
    }
    forall i: nat, c: nat | i < s.core.rows && c < s.core.columns
      ensures u.display.console.cells[i][c] ==
              if i < r + 1 && s.display.InSpan(i, c) then s.core.Cells()[i][c] else s.display.console.cells[i][c]
    {
      assert t.display.console.cells[i][c] ==
             if i < r && s.display.InSpan(i, c) then s.core.Cells()[i][c] else s.display.console.cells[i][c];
    }
  }

  lemma {:induction false} RowsFlushedShow(s: State, n: nat)
    requires s.Valid() && n <= s.core.rows
    ensures FlushedUpTo(s, RowsFlushed(s, n), n)
  {
    hide RowFlushed;
    if n > 0 {
      RowsFlushedShow(s, n - 1);
      RowFlushedShows(s, RowsFlushed(s, n - 1), n - 1);
    }
  }

  /** A repaint paints exactly the cells in spans, empties every span, and leaves the
      console the terminal's attribute and cursor. */
  lemma FlushPaintsSpans(s: State)
    requires s.Valid()
    ensures var t := Flush(s);
            && (forall r | 0 <= r < s.core.rows ::
                  t.display.dirtyStart[r] == s.core.columns && t.display.dirtyEnd[r] == 0)
            && (forall r: nat, c: nat | r < s.core.rows && c < s.core.columns ::
                  t.display.console.cells[r][c] ==
                  if s.display.InSpan(r, c) then s.core.Cells()[r][c] else s.display.console.cells[r][c])
            && t.display.console.attribute == s.core.pen.Attribute()
            && t.display.console.cursorRow == s.core.cursor.row && t.display.console.cursorColumn == s.core.cursor.column
            && t.display.console.cursorVisible == s.core.modes.cursorVisible
  {
    hide RowsFlushed;
    var hidden := s.(display := s.display.(console := s.display.console.(cursorVisible := false)));
    RowsFlushedShow(hidden, s.core.rows);
  }

  /** A repaint repairs every cell except the stale ones, and no other. */
  lemma FlushRepairs(s: State, r: nat, c: nat, colours: bool)
    requires s.Valid() && r < s.core.rows && c < s.core.columns
    ensures Shows(Flush(s).display.console.cells[r][c], s.core.Cells()[r][c], colours) <==> !Stale(s, r, c, colours)
    ensures Stale(Flush(s), r, c, colours) <==> Stale(s, r, c, colours)
  {
    hide Flush;
    FlushPaintsSpans(s);
    assert !Flush(s).display.InSpan(r, c);
  }

  // ---------- Runs ----------

  /** What the session loop does with a terminal, in any order and as often as it likes. */
  datatype Event = Receive(data: seq<byte>) | Repaint | Collect(capacity: nat)

  function Apply(s: State, e: Event): (t: State)
    requires s.Valid()
    ensures t.Valid()
  {
    match e
    case Receive(data) => Feed(s, data)
    case Repaint => Flush(s)
    case Collect(capacity) => TakeResponse(s, capacity).0
  }

  function Run(s: State, events: seq<Event>): (t: State)
    requires s.Valid()
    ensures t.Valid()
  {
    if events == [] then s else Apply(Run(s, events[..|events| - 1]), events[|events| - 1])
  }

  /** All bytes received in a run, however they were cut up. */
  function Received(events: seq<Event>): seq<byte> {
    if events == [] then []
    else
      var e := events[|events| - 1];
      Received(events[..|events| - 1]) + (if e.Receive? then e.data else [])
  }

  /** Rows, columns and staleness: what Keeps says about characters, without the colours. */
  ghost predicate Refines(s: State, t: State)
    requires s.Valid() && t.Valid()
  {
    && t.core.rows == s.core.rows && t.core.columns == s.core.columns
    && forall r: nat, c: nat | r < s.core.rows && c < s.core.columns :: Stale(t, r, c, false) ==> Stale(s, r, c, false)
  }

  lemma ApplyRefines(s: State, e: Event)
    requires s.Valid()
    ensures Refines(s, Apply(s, e))
  {
    hide Feed, Flush;
    var t := Apply(s, e);
    match e
    case Receive(data) => FeedKeeps(s, data, false);
    case Collect(_) =>
    case Repaint =>
      forall r: nat, c: nat | r < s.core.rows && c < s.core.columns && Stale(t, r, c, false)
        ensures Stale(s, r, c, false)
      {
        FlushRepairs(s, r, c, false);
      }
  }

  /** Over every run of received bytes, repaints and collected replies, a cell can only
      stop being stale: nothing the terminal does ever makes the cache lose a cell. */
  lemma {:induction false} RunNeverLosesACell(s: State, events: seq<Event>)
    requires s.Valid()
    ensures Refines(s, Run(s, events))
    decreases |events|
  {
    hide Apply;
    if events != [] {
      RunNeverLosesACell(s, events[..|events| - 1]);
      ApplyRefines(Run(s, events[..|events| - 1]), events[|events| - 1]);
    }
  }

  /** The whole cache is correct from a state exactly when nothing is stale in it: then, and
      only then, every run followed by a repaint shows the grid in every cell. */
  lemma RepaintShowsTheGridIffNothingStale(s: State)
    requires s.Valid()
    ensures (forall events: seq<Event> :: Agrees(Flush(Run(s, events)), false)) <==> NothingStale(s, false)
  {
    hide Flush, Apply;
    if NothingStale(s, false) {
      forall events: seq<Event> ensures Agrees(Flush(Run(s, events)), false) {
        var t := Run(s, events);
        RunNeverLosesACell(s, events);
        forall r: nat, c: nat | r < s.core.rows && c < s.core.columns
          ensures Shows(Flush(t).display.console.cells[r][c], t.core.Cells()[r][c], false)
        {
          FlushRepairs(t, r, c, false);
        }
      }
    } else {
      var r: nat, c: nat :| r < s.core.rows && c < s.core.columns && Stale(s, r, c, false);
      FlushRepairs(s, r, c, false);
      assert Run(s, []) == s;
      assert !Agrees(Flush(Run(s, [])), false);
    }
  }

  /** A terminal is created over a console nobody clears, so a new terminal starts with a
      cell stale exactly where the console is not blank. */
  lemma CreatedStaleWhereConsoleNotBlank(columns: nat, rows: nat, console: Screen, r: nat, c: nat)
    requires 1 <= columns <= MAX_UINT16 && 1 <= rows <= MAX_UINT16 && Sized(console.cells, rows, columns)
    requires r < rows && c < columns
    ensures Stale(Created(columns, rows, console), r, c, false) <==> console.cells[r][c].character != 0x20
  {
    var s := Created(columns, rows, console);
    assert s.core.Cells()[r][c] == Blank(s.core.pen.DefaultAttribute());
  }

  /** Erasing the display makes every cell right at once, in colour too exactly when the
      console's current attribute is the terminal's default one. */
  lemma EraseDisplayAgrees(s: State, mode: int, colours: bool)
    requires s.Valid() && (mode == 2 || mode == 3)
    ensures Agrees(EraseDisplay(s, mode), colours) <==> (colours ==> Tinted(s))
    ensures NothingStale(EraseDisplay(s, mode), colours) <==> (colours ==> Tinted(s))
  {
    hide ClearedScreen;
    var t := EraseDisplay(s, mode);
    ClearedScreenAgrees(s, colours);
    assert forall r: nat, c: nat | r < s.core.rows && c < s.core.columns :: !t.display.InSpan(r, c);
    assert Agrees(t, colours) <==> Agrees(ClearedScreen(s), colours);
    if NothingStale(t, colours) {
      forall r: nat, c: nat | r < s.core.rows && c < s.core.columns
        ensures Shows(t.display.console.cells[r][c], t.core.Cells()[r][c], colours)
      {
        assert !Stale(t, r, c, colours);
      }
    }
  }

  // ---------- Feeding and running piece by piece ----------

  lemma FeedNothing(s: State)
    requires s.Valid()
    ensures Feed(s, []) == s
  {
  }

  lemma {:induction false} FeedTwice(s: State, a: seq<byte>, b: seq<byte>)
    requires s.Valid()
    ensures Feed(Feed(s, a), b) == Feed(s, a + b)
    decreases |b|
  {
    hide Step;
    if b == [] {
      assert a + b == a;
    } else {
      var front := b[..|b| - 1];
      FeedTwice(s, a, front);
      assert (a + b)[..|a + b| - 1] == a + front;
    }
  }

  lemma FeedOne(s: State, b: byte)
    requires s.Valid()
    ensures Feed(s, [b]) == Step(s, b)
  {
    hide Step;
    assert [b][..0] == [];
  }

  lemma TwoBytesFed(s: State, x: byte, y: byte)
    requires s.Valid()
    ensures Feed(s, [x, y]) == Step(Step(s, x), y)
  {
    hide Step, Feed;
    FeedOne(s, x);
    FeedOne(Step(s, x), y);
    FeedTwice(s, [x], [y]);
    assert [x] + [y] == [x, y];
  }

  lemma ThreeBytes(s: State, x: byte, y: byte, z: byte)
    requires s.Valid()
    ensures Feed(s, [x, y, z]) == Step(Step(Step(s, x), y), z)
  {
    hide Step, Feed;
    FeedOne(s, x);
    TwoBytesFed(Step(s, x), y, z);
    FeedTwice(s, [x], [y, z]);
    assert [x] + [y, z] == [x, y, z];
  }

  lemma RunExtends(s: State, events: seq<Event>, e: Event)
    requires s.Valid()
    ensures Run(s, events + [e]) == Apply(Run(s, events), e)
    ensures Received(events + [e]) == Received(events) + (if e.Receive? then e.data else [])
  {
    hide Apply;
    assert (events + [e])[..|events + [e]| - 1] == events;
  }

  lemma NothingRun(s: State)
    requires s.Valid()
    ensures Run(s, []) == s && Received([]) == []
  {
  }
}
