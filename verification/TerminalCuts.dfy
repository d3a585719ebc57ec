/** How the bytes are cut up, repainted and answered in between: what it never changes, and
    exactly when it changes the visible text. */
module TerminalCuts {
  import opened Basics
  import opened Grids
  import opened TerminalState
  import opened TerminalRendering
  import opened TerminalParsing

  /** The character a repaint would leave on the console. */
  function Left(s: State, r: nat, c: nat): char16
    requires s.Valid() && r < s.core.rows && c < s.core.columns
  {
    if s.display.InSpan(r, c) then s.core.Cells()[r][c].character else s.display.console.cells[r][c].character
  }

  /** A span is a hull, so it takes in a first or last column only when that was marked itself. */
  predicate AtEdge(c: nat, columns: nat) {
    c == 0 || c + 1 == columns
  }

  ghost predicate SameEdges(s: State, t: State)
    requires s.Valid() && t.Valid() && s.core == t.core
  {
    forall r: nat, c: nat | r < s.core.rows && c < s.core.columns && AtEdge(c, s.core.columns) ::
      Left(s, r, c) == Left(t, r, c)
  }

  /** Two terminals that differ at most in spans, console and replies; with `edges`, a repaint
      would also leave them the same first and last column. */
  ghost predicate Alike(s: State, t: State, edges: bool)
    requires s.Valid() && t.Valid()
  {
    s.core == t.core && (edges ==> SameEdges(s, t))
  }

  // ---------- A byte does not depend on spans, console or replies ----------

  lemma SameScreenAlike(s: State, t: State, s': State, t': State, edges: bool)
    requires s.Valid() && t.Valid() && s'.Valid() && t'.Valid() && Alike(s, t, edges) && s'.core == t'.core
    requires s'.core.rows == s.core.rows && s'.core.columns == s.core.columns && s'.core.Cells() == s.core.Cells()
    requires s'.display == s.display && t'.display == t.display
    ensures Alike(s', t', edges)
  {
    if edges {
      forall r: nat, c: nat | r < s'.core.rows && c < s'.core.columns && AtEdge(c, s'.core.columns)
        ensures Left(s', r, c) == Left(t', r, c)
      {
        assert Left(s, r, c) == Left(t, r, c);
      }
    }
  }

  lemma MarkedAtEdge(d: Display, rows: nat, columns: nat, first: nat, limit: nat, start: nat, end: nat, r: nat, c: nat)
    requires d.Valid(rows, columns) && start <= end < columns && r < rows && c < columns && AtEdge(c, columns)
    ensures d.Marked(first, limit, start, end).InSpan(r, c)
       <==> d.InSpan(r, c) || (first <= r < limit && start <= c <= end)
    ensures d.Marked(first, limit, start, end).console == d.console
  {
  }

  lemma RewrittenAlike(s: State, t: State, g: Grid, first: nat, limit: nat, start: nat, end: nat, edges: bool)
    requires s.Valid() && t.Valid() && Alike(s, t, edges) && Renderable(g, s.core.rows, s.core.columns)
    requires first <= limit <= s.core.rows && start <= end < s.core.columns
    requires SameOutside(s.core.Cells(), g, first, limit, start, end)
    ensures Alike(Rewritten(s, g, first, limit, start, end), Rewritten(t, g, first, limit, start, end), edges)
  {
    hide Display.Marked;
    if edges {
      var s', t' := Rewritten(s, g, first, limit, start, end), Rewritten(t, g, first, limit, start, end);
      forall r: nat, c: nat | r < s.core.rows && c < s.core.columns && AtEdge(c, s.core.columns)
        ensures Left(s', r, c) == Left(t', r, c)
      {
        assert Left(s, r, c) == Left(t, r, c);
        MarkedAtEdge(s.display, s.core.rows, s.core.columns, first, limit, start, end, r, c);
        MarkedAtEdge(t.display, s.core.rows, s.core.columns, first, limit, start, end, r, c);
        assert !(first <= r < limit && start <= c <= end) ==> g[r][c] == s.core.Cells()[r][c];
      }
    }
  }

  lemma ErasedAlike(s: State, t: State, first: nat, limit: nat, start: nat, end: nat, edges: bool)
    requires s.Valid() && t.Valid() && Alike(s, t, edges)
    requires first <= limit <= s.core.rows && start <= end < s.core.columns
    ensures Alike(Erased(s, first, limit, start, end), Erased(t, first, limit, start, end), edges)
  {
    hide Alike;
    SameCore(s, t, edges);
    RewrittenAlike(s, t, Erased(s, first, limit, start, end).core.Cells(), first, limit, start, end, edges);
  }

  lemma SameCore(s: State, t: State, edges: bool)
    requires s.Valid() && t.Valid() && Alike(s, t, edges)
    ensures s.core == t.core
  {
  }

  lemma RowMovesAlike(s: State, t: State, top: nat, bottom: nat, n: nat, edges: bool)
    requires s.Valid() && t.Valid() && Alike(s, t, edges) && top <= bottom < s.core.rows
    ensures Alike(PullRows(s, top, bottom, n), PullRows(t, top, bottom, n), edges)
    ensures Alike(PushRows(s, top, bottom, n), PushRows(t, top, bottom, n), edges)
  {
    hide Alike;
    SameCore(s, t, edges);
    var last := s.core.columns - 1;
    RewrittenAlike(s, t, PullRows(s, top, bottom, n).core.Cells(), top, bottom + 1, 0, last, edges);
    RewrittenAlike(s, t, PushRows(s, top, bottom, n).core.Cells(), top, bottom + 1, 0, last, edges);
  }

  lemma CharacterMovesAlike(s: State, t: State, count: nat, edges: bool)
    requires s.Valid() && t.Valid() && Alike(s, t, edges) && 1 <= count
    ensures Alike(InsertCharacters(s, count), InsertCharacters(t, count), edges)
    ensures Alike(DeleteCharacters(s, count), DeleteCharacters(t, count), edges)
  {
    hide Alike;
    SameCore(s, t, edges);
    var row, column, last := s.core.cursor.row, s.core.cursor.column, s.core.columns - 1;
    RewrittenAlike(s, t, InsertCharacters(s, count).core.Cells(), row, row + 1, column, last, edges);
    RewrittenAlike(s, t, DeleteCharacters(s, count).core.Cells(), row, row + 1, column, last, edges);
  }

  lemma StoredAlike(s: State, t: State, character: char16, edges: bool)
    requires s.Valid() && t.Valid() && Alike(s, t, edges) && character != 0
    ensures Alike(CharacterStored(s, character), CharacterStored(t, character), edges)
  {
    hide Alike;
    SameCore(s, t, edges);
    var row, column := s.core.cursor.row, s.core.cursor.column;
    var end := if s.core.modes.insert && column + 1 < s.core.columns then s.core.columns - 1 else column;
    RewrittenAlike(s, t, CharacterStored(s, character).core.Cells(), row, row + 1, column, end, edges);
  }

  lemma WrittenAlike(s: State, t: State, character: char16, edges: bool)
    requires s.Valid() && t.Valid() && Alike(s, t, edges) && character != 0
    ensures Alike(Written(s, character), Written(t, character), edges)
  {
    hide SameEdges, CharacterStored;
    var u, v := CharacterStored(s, character), CharacterStored(t, character);
    StoredAlike(s, t, character, edges);
    SameScreenAlike(u, v, Advanced(u), Advanced(v), edges);
  }

  /** Clearing makes first and last columns the same whatever they were. */
  lemma ClearedScreenAlike(s: State, t: State, edges: bool)
    requires s.Valid() && t.Valid() && s.core == t.core
    ensures Alike(ClearedScreen(s), ClearedScreen(t), edges)
  {
    var u, v := ClearedScreen(s), ClearedScreen(t);
    forall r: nat, c: nat | r < s.core.rows && c < s.core.columns ensures Left(u, r, c) == 0x20 == Left(v, r, c) {
    }
  }

  lemma UnmarkedAlike(s: State, t: State, edges: bool)
    requires s.Valid() && t.Valid() && s.core == t.core
    ensures Alike(EraseDisplay(s, 2), EraseDisplay(t, 2), edges)
  {
    var u, v := EraseDisplay(s, 2), EraseDisplay(t, 2);
    forall r: nat, c: nat | r < s.core.rows && c < s.core.columns ensures Left(u, r, c) == 0x20 == Left(v, r, c) {
    }
  }

  lemma AllMarkedAlike(s: State, t: State, edges: bool)
    requires s.Valid() && t.Valid() && s.core == t.core
    ensures Alike(AllMarked(s), AllMarked(t), edges)
  {
    var u, v := AllMarked(s), AllMarked(t);
    forall r: nat, c: nat | r < s.core.rows && c < s.core.columns
      ensures Left(u, r, c) == s.core.Cells()[r][c].character == Left(v, r, c)
    {
    }
  }

  lemma ScrollAlike(s: State, t: State, count: nat, edges: bool)
    requires s.Valid() && t.Valid() && Alike(s, t, edges)
    ensures Alike(ScrollUp(s, count), ScrollUp(t, count), edges)
    ensures Alike(ScrollDown(s, count), ScrollDown(t, count), edges)
  {
    hide SameEdges, PullRows, PushRows;
    var m := s.core.margins;
    RowMovesAlike(s, t, m.top, m.bottom, Min(count, m.bottom - m.top + 1), edges);
  }

  lemma IndexAlike(s: State, t: State, edges: bool)
    requires s.Valid() && t.Valid() && Alike(s, t, edges)
    ensures Alike(IndexDown(s), IndexDown(t), edges)
    ensures Alike(IndexUp(s), IndexUp(t), edges)
  {
    hide SameEdges, ScrollUp, ScrollDown;
    var u, v := NoWrap(s), NoWrap(t);
    SameScreenAlike(s, t, u, v, edges);
    ScrollAlike(u, v, 1, edges);
    if s.core.cursor.row != s.core.margins.bottom {
      SameScreenAlike(s, t, IndexDown(s), IndexDown(t), edges);
    }
    if s.core.cursor.row != s.core.margins.top {
      SameScreenAlike(s, t, IndexUp(s), IndexUp(t), edges);
    }
  }

  lemma PutCharacterAlike(s: State, t: State, character: char16, edges: bool)
    requires s.Valid() && t.Valid() && Alike(s, t, edges) && character != 0
    ensures Alike(PutCharacter(s, character), PutCharacter(t, character), edges)
  {
    hide SameEdges, IndexDown, Written;
    if s.core.cursor.wrapPending {
      var u, v := MoveTo(s, s.core.cursor.row, 0), MoveTo(t, t.core.cursor.row, 0);
      SameScreenAlike(s, t, u, v, edges);
      IndexAlike(u, v, edges);
      WrittenAlike(IndexDown(u), IndexDown(v), character, edges);
    } else {
      WrittenAlike(s, t, character, edges);
    }
  }

  lemma EraseDisplayAlike(s: State, t: State, mode: int, edges: bool)
    requires s.Valid() && t.Valid() && Alike(s, t, edges)
    ensures Alike(EraseDisplay(s, mode), EraseDisplay(t, mode), edges)
  {
    hide SameEdges, Erased, ClearedScreen;
    var c, last := s.core, s.core.columns - 1;
    var row, column := c.cursor.row, c.cursor.column;
    if mode == 2 || mode == 3 {
      UnmarkedAlike(s, t, edges);
    } else if mode == 1 {
      ErasedAlike(s, t, 0, row, 0, last, edges);
      ErasedAlike(Erased(s, 0, row, 0, last), Erased(t, 0, row, 0, last), row, row + 1, 0, column, edges);
    } else {
      ErasedAlike(s, t, row, row + 1, column, last, edges);
      ErasedAlike(Erased(s, row, row + 1, column, last), Erased(t, row, row + 1, column, last), row + 1, c.rows, 0, last, edges);
    }
  }

  lemma EraseLineAlike(s: State, t: State, mode: int, edges: bool)
    requires s.Valid() && t.Valid() && Alike(s, t, edges)
    ensures Alike(EraseLine(s, mode), EraseLine(t, mode), edges)
  {
    hide SameEdges, Erased;
    var row, column, last := s.core.cursor.row, s.core.cursor.column, s.core.columns - 1;
    ErasedAlike(s, t, row, row + 1, 0, column, edges);
    ErasedAlike(s, t, row, row + 1, 0, last, edges);
    ErasedAlike(s, t, row, row + 1, column, last, edges);
  }

  lemma LineMovesAlike(s: State, t: State, count: nat, edges: bool)
    requires s.Valid() && t.Valid() && Alike(s, t, edges) && 1 <= count
    ensures Alike(InsertLines(s, count), InsertLines(t, count), edges)
    ensures Alike(DeleteLines(s, count), DeleteLines(t, count), edges)
  {
    hide SameEdges, PullRows, PushRows;
    var row, bottom := s.core.cursor.row, s.core.margins.bottom;
    if s.core.margins.top <= row <= bottom {
      RowMovesAlike(s, t, row, bottom, Min(count, bottom - row + 1), edges);
    }
  }

  lemma HandleEditingAlike(s: State, t: State, final: byte, edges: bool)
    requires s.Valid() && t.Valid() && Alike(s, t, edges)
    ensures Alike(HandleEditing(s, final), HandleEditing(t, final), edges)
  {
    hide SameEdges, EraseDisplay, EraseLine, InsertLines, DeleteLines, InsertCharacters, DeleteCharacters, ScrollUp,
         ScrollDown, Erased;
    var p, cursor := s.core.parser, s.core.cursor;
    var count := p.NonZeroParameter(0);
    match final as char {
      case 'J' => EraseDisplayAlike(s, t, p.Parameter(0, 0), edges);
      case 'K' => EraseLineAlike(s, t, p.Parameter(0, 0), edges);
      case 'L' => LineMovesAlike(s, t, count, edges);
      case 'M' => LineMovesAlike(s, t, count, edges);
      case '@' => CharacterMovesAlike(s, t, count, edges);
      case 'P' => CharacterMovesAlike(s, t, count, edges);
      case 'X' =>
        ErasedAlike(s, t, cursor.row, cursor.row + 1, cursor.column, Min(s.core.columns - 1, cursor.column + count - 1), edges);
      case 'S' => ScrollAlike(s, t, count, edges);
      case 'T' => ScrollAlike(s, t, count, edges);
      case _ =>
    }
  }

  lemma SetAlternateScreenAlike(s: State, t: State, enable: bool, edges: bool)
    requires s.Valid() && t.Valid() && Alike(s, t, edges)
    ensures Alike(SetAlternateScreen(s, enable), SetAlternateScreen(t, enable), edges)
  {
    hide SameEdges, ClearedScreen, AllMarked;
    var u, v := SetAlternateScreen(s, enable), SetAlternateScreen(t, enable);
    if enable && !s.core.buffers.alternateActive {
      ClearedScreenAlike(AlternateShown(s), AlternateShown(t), edges);
      SameScreenAlike(ClearedScreen(AlternateShown(s)), ClearedScreen(AlternateShown(t)), u, v, edges);
    } else if !enable && s.core.buffers.alternateActive {
      AllMarkedAlike(PrimaryShown(s), PrimaryShown(t), edges);
      SameScreenAlike(AllMarked(PrimaryShown(s)), AllMarked(PrimaryShown(t)), u, v, edges);
    } else {
      SameScreenAlike(s, t, u, v, edges);
    }
  }

  lemma SetModeAlike(s: State, t: State, value: int, enable: bool, edges: bool)
    requires s.Valid() && t.Valid() && Alike(s, t, edges)
    ensures Alike(SetMode(s, value, enable), SetMode(t, value, enable), edges)
  {
    hide SameEdges, SetAlternateScreen;
    if s.core.parser.private && (value == 47 || value == 1047 || value == 1049) {
      SetAlternateScreenAlike(s, t, enable, edges);
    } else {
      SameScreenAlike(s, t, SetMode(s, value, enable), SetMode(t, value, enable), edges);
    }
  }

  lemma {:induction false} SetModesAlike(s: State, t: State, enable: bool, n: nat, edges: bool)
    requires s.Valid() && t.Valid() && Alike(s, t, edges)
    ensures Alike(SetModes(s, enable, n), SetModes(t, enable, n), edges)
  {
    hide SetMode, SameEdges;
    if n > 0 {
      SetModesAlike(s, t, enable, n - 1, edges);
      var u, v := SetModes(s, enable, n - 1), SetModes(t, enable, n - 1);
      SetModeAlike(u, v, u.core.parser.Parameter(n - 1, 0), enable, edges);
    }
  }

  lemma HandleCsiAlike(s: State, t: State, final: byte, edges: bool)
    requires s.Valid() && t.Valid() && Alike(s, t, edges)
    ensures Alike(HandleCsi(s, final), HandleCsi(t, final), edges)
  {
    hide SameEdges, HandleEditing, SetModes, Renderable, Sized, Display.Valid;
    var u, v := NoWrap(s), NoWrap(t);
    SameScreenAlike(s, t, u, v, edges);
    if IsEditing(final) {
      HandleEditingAlike(u, v, final, edges);
    } else if final as char == 'h' || final as char == 'l' {
      SetModesAlike(u, v, final as char == 'h', s.core.parser.count, edges);
    } else {
      SameScreenAlike(s, t, HandleCsi(s, final), HandleCsi(t, final), edges);
    }
  }

  lemma HandleFirstByteAlike(s: State, t: State, b: byte, edges: bool)
    requires s.Valid() && t.Valid() && Alike(s, t, edges) && AtRest(s)
    ensures Alike(HandleFirstByte(s, b), HandleFirstByte(t, b), edges)
  {
    hide SameEdges, PutCharacter, IndexDown;
    if b == 0x0a {
      IndexAlike(s, t, edges);
    } else if 0x20 <= b < 0x7f {
      PutCharacterAlike(s, t, b, edges);
    } else {
      SameScreenAlike(s, t, HandleFirstByte(s, b), HandleFirstByte(t, b), edges);
    }
  }

  lemma HandleGroundByteAlike(s: State, t: State, b: byte, edges: bool)
    requires s.Valid() && t.Valid() && Alike(s, t, edges) && s.core.parser.mode == Ground
    ensures Alike(HandleGroundByte(s, b), HandleGroundByte(t, b), edges)
  {
    hide SameEdges, PutCharacter, HandleFirstByte;
    var p := s.core.parser;
    if p.remaining == 0 {
      HandleFirstByteAlike(s, t, b, edges);
    } else if b / 0x40 != 2 {
      var u, v := WithParser(s, p.(remaining := 0)), WithParser(t, p.(remaining := 0));
      SameScreenAlike(s, t, u, v, edges);
      PutCharacterAlike(u, v, Shown(0xfffd), edges);
      HandleFirstByteAlike(EmitCodePoint(u, 0xfffd), EmitCodePoint(v, 0xfffd), b, edges);
    } else {
      var codePoint := p.codePoint * 0x40 + b % 0x40;
      var q := p.(remaining := p.remaining - 1, codePoint := codePoint);
      SameScreenAlike(s, t, WithParser(s, q), WithParser(t, q), edges);
      PutCharacterAlike(WithParser(s, q), WithParser(t, q), Shown(codePoint), edges);
    }
  }

  lemma HandleEscapeByteAlike(s: State, t: State, b: byte, edges: bool)
    requires s.Valid() && t.Valid() && Alike(s, t, edges) && s.core.parser.mode == Escape
    ensures Alike(HandleEscapeByte(s, b), HandleEscapeByte(t, b), edges)
  {
    hide SameEdges, IndexDown, IndexUp, ClearedScreen, Renderable, Sized, Display.Valid;
    var u, v := HandleEscapeByte(s, b), HandleEscapeByte(t, b);
    if b == 0x5b || b == 0x5d {
      SameScreenAlike(s, t, u, v, edges);
    } else {
      var s', t' := WithMode(s, Ground), WithMode(t, Ground);
      SameScreenAlike(s, t, s', t', edges);
      match b as char {
        case 'D' => IndexAlike(s', t', edges);
        case 'M' => IndexAlike(s', t', edges);
        case 'E' =>
          SameScreenAlike(s, t, MoveTo(s', s.core.cursor.row, 0), MoveTo(t', t.core.cursor.row, 0), edges);
          IndexAlike(MoveTo(s', s.core.cursor.row, 0), MoveTo(t', t.core.cursor.row, 0), edges);
        case 'c' => ResetAlike(s', t', edges);
        case _ => SameScreenAlike(s', t', u, v, edges);
      }
    }
  }

  lemma ResetAlike(s: State, t: State, edges: bool)
    requires s.Valid() && t.Valid() && s.core == t.core
    ensures var core := s.core.(pen := s.core.pen.Reset(), cursor := s.core.cursor.(row := 0, column := 0),
                                margins := Margins(0, s.core.rows - 1));
            Alike(ClearedScreen(s.(core := core)), ClearedScreen(t.(core := core)), edges)
  {
    hide ClearedScreen, Alike;
    var core := s.core.(pen := s.core.pen.Reset(), cursor := s.core.cursor.(row := 0, column := 0),
                        margins := Margins(0, s.core.rows - 1));
    ClearedScreenAlike(s.(core := core), t.(core := core), edges);
  }

  /** What a byte does to grids, cursor, modes and parser depends on nothing else, and what it
      does to the first and last column of the text only on them besides. */
  lemma StepAlike(s: State, t: State, b: byte, edges: bool)
    requires s.Valid() && t.Valid() && Alike(s, t, edges)
    ensures Alike(Step(s, b), Step(t, b), edges)
  {
    hide SameEdges, HandleGroundByte, HandleEscapeByte, HandleCsi;
    var u, v := Step(s, b), Step(t, b);
    if b == ESC || s.core.parser.mode == Osc || s.core.parser.mode == OscEscape {
      SameScreenAlike(s, t, u, v, edges);
    } else {
      match s.core.parser.mode
      case Ground => HandleGroundByteAlike(s, t, b, edges);
      case Escape => HandleEscapeByteAlike(s, t, b, edges);
      case Csi =>
        if 0x40 <= b <= 0x7e {
          HandleCsiAlike(s, t, b, edges);
          SameScreenAlike(HandleCsi(s, b), HandleCsi(t, b), u, v, edges);
        } else {
          SameScreenAlike(s, t, u, v, edges);
        }
    }
  }

  lemma {:induction false} FeedAlike(s: State, t: State, data: seq<byte>, edges: bool)
    requires s.Valid() && t.Valid() && Alike(s, t, edges)
    ensures Alike(Feed(s, data), Feed(t, data), edges)
    decreases |data|
  {
    hide Step, Alike;
    if data != [] {
      var before := data[..|data| - 1];
      FeedAlike(s, t, before, edges);
      StepAlike(Feed(s, before), Feed(t, before), data[|data| - 1], edges);
    }
  }

  // ---------- Runs ----------

  /** A repaint leaves what a repaint would leave. */
  lemma FlushLeaves(s: State, r: nat, c: nat)
    requires s.Valid() && r < s.core.rows && c < s.core.columns
    ensures Left(Flush(s), r, c) == Flush(s).display.console.cells[r][c].character == Left(s, r, c)
  {
    hide Flush;
    FlushPaintsSpans(s);
    assert !Flush(s).display.InSpan(r, c);
  }

  lemma FlushAlike(s: State, t: State, edges: bool)
    requires s.Valid() && t.Valid() && Alike(s, t, edges)
    ensures Alike(Flush(s), t, edges)
  {
    hide Flush, Left;
    forall r: nat, c: nat | r < s.core.rows && c < s.core.columns ensures Left(Flush(s), r, c) == Left(s, r, c) {
      FlushLeaves(s, r, c);
    }
  }

  /** However the bytes are cut up and whatever is repainted or collected in between, the
      terminal ends like one that was fed all of them at once. */
  lemma {:induction false} RunIsLikeOneFeed(s: State, events: seq<Event>, edges: bool)
    requires s.Valid()
    ensures Alike(Run(s, events), Feed(s, Received(events)), edges)
    decreases |events|
  {
    hide Feed, Flush, SameEdges;
    if events == [] {
      FeedNothing(s);
      SelfAlike(s, edges);
    } else {
      var before, e := events[..|events| - 1], events[|events| - 1];
      var t, u := Run(s, before), Feed(s, Received(before));
      RunIsLikeOneFeed(s, before, edges);
      match e {
        case Receive(data) =>
          FeedAlike(t, u, data, edges);
          FeedTwice(s, Received(before), data);
        case Repaint =>
          FlushAlike(t, u, edges);
          assert Received(before) + [] == Received(before);
        case Collect(capacity) =>
          SameScreenAlike(t, u, TakeResponse(t, capacity).0, u, edges);
          assert Received(before) + [] == Received(before);
      }
    }
  }

  lemma SelfAlike(s: State, edges: bool)
    requires s.Valid()
    ensures Alike(s, s, edges)
  {
  }

  /** Grids, cursor, modes and parser after a run are those after one feed of all its bytes. */
  lemma RunIsOneFeed(s: State, events: seq<Event>)
    requires s.Valid()
    ensures Run(s, events).core == Feed(s, Received(events)).core
  {
    hide Run, Feed;
    RunIsLikeOneFeed(s, events, false);
  }

  lemma FeedCore(s: State, t: State, data: seq<byte>)
    requires s.Valid() && t.Valid() && s.core == t.core
    ensures Feed(s, data).core == Feed(t, data).core
  {
    hide Feed;
    FeedAlike(s, t, data, false);
  }

  // ---------- The visible text ----------

  /** The text on the console. */
  function Visible(s: State): seq<seq<char16>> {
    var g := s.display.console.cells;
    seq(|g|, r requires 0 <= r < |g| => Characters(g[r]))
  }

  /** No stale cell has a cell on either side of it. */
  ghost predicate NothingStaleInside(s: State)
    requires s.Valid()
  {
    forall r: nat, c: nat | r < s.core.rows && 0 < c && c + 1 < s.core.columns :: !Stale(s, r, c, false)
  }

  /** The text a last repaint shows does not depend on how the bytes were cut up. */
  ghost predicate CutsNeverShow(s: State)
    requires s.Valid()
  {
    forall events: seq<Event> :: Visible(Flush(Run(s, events))) == Visible(Flush(Feed(s, Received(events))))
  }

  lemma SameCharactersSameText(s: State, t: State)
    requires s.Valid() && t.Valid() && s.core == t.core
    requires forall r: nat, c: nat | r < s.core.rows && c < s.core.columns :: Left(s, r, c) == Left(t, r, c)
    ensures Visible(Flush(s)) == Visible(Flush(t))
  {
    hide Flush;
    var g, h := Flush(s).display.console.cells, Flush(t).display.console.cells;
    forall r | 0 <= r < |g| ensures Characters(g[r]) == Characters(h[r]) {
      forall c | 0 <= c < |g[r]| ensures g[r][c].character == h[r][c].character {
        FlushLeaves(s, r, c);
        FlushLeaves(t, r, c);
        assert Left(s, r, c) == Left(t, r, c);
      }
    }
  }

  /** Where no cell inside is stale, every run shows the text of one feed. */
  lemma CutsDoNotShow(s: State, events: seq<Event>)
    requires s.Valid() && NothingStaleInside(s)
    ensures Visible(Flush(Run(s, events))) == Visible(Flush(Feed(s, Received(events))))
  {
    hide Flush, Run, Feed, Left, Stale;
    var t, u := Run(s, events), Feed(s, Received(events));
    RunIsLikeOneFeed(s, events, true);
    RunNeverLosesACell(s, events);
    FeedKeeps(s, Received(events), false);
    forall r: nat, c: nat | r < s.core.rows && c < s.core.columns ensures Left(t, r, c) == Left(u, r, c) {
      if !AtEdge(c, s.core.columns) {
        assert !Stale(s, r, c, false);
        NotStaleIsLeftRight(t, r, c);
        NotStaleIsLeftRight(u, r, c);
      }
    }
    SameCharactersSameText(t, u);
  }

  lemma NotStaleIsLeftRight(s: State, r: nat, c: nat)
    requires s.Valid() && r < s.core.rows && c < s.core.columns
    ensures Stale(s, r, c, false) <==> Left(s, r, c) != s.core.Cells()[r][c].character
  {
  }

  // ---------- A stale cell inside shows the cuts ----------

  const LETTER: byte := 0x78

  /** From whatever came before: end any sequence, leave insert mode and go there. */
  function GoTo(row: nat, column: nat): seq<byte>
    requires row < MAX_UINT16 && column < MAX_UINT16
  {
    [ESC, BACKSLASH] + ControlSequence(false, [4], 0x6c) + ControlSequence(false, [row + 1, column + 1], 0x48)
  }

  function TypeAt(row: nat, column: nat): seq<byte>
    requires row < MAX_UINT16 && column < MAX_UINT16
  {
    GoTo(row, column) + [LETTER]
  }

  /** Same screen, and ready for text or a sequence. */
  ghost predicate Settled(s: State, t: State)
    requires s.Valid() && t.Valid()
  {
    && AtRest(t) && t.display == s.display && t.core.Cells() == s.core.Cells()
    && t.core.rows == s.core.rows && t.core.columns == s.core.columns && t.core.pen == s.core.pen
  }

  lemma TerminatorSettles(s: State)
    requires s.Valid()
    ensures Settled(s, Feed(s, [ESC, BACKSLASH]))
  {
    hide Step;
    TwoBytesFed(s, ESC, BACKSLASH);
    EscapeOpens(s);
    BackslashCloses(Step(s, ESC));
  }

  lemma EscapeOpens(s: State)
    requires s.Valid()
    ensures var mode := if s.core.parser.mode == Osc || s.core.parser.mode == OscEscape then OscEscape else Escape;
            Step(s, ESC) == WithParser(s, s.core.parser.(mode := mode, remaining := 0))
  {
    hide HandleGroundByte, HandleEscapeByte, HandleCsi;
  }

  lemma BackslashCloses(s: State)
    requires s.Valid() && (s.core.parser.mode == OscEscape || s.core.parser.mode == Escape)
    ensures Step(s, BACKSLASH) == WithMode(s, Ground)
  {
    hide HandleGroundByte, HandleCsi, IndexDown, IndexUp, ClearedScreen, SaveCursor, RestoreCursor;
  }

  lemma InsertModeEnds(s: State)
    requires s.Valid() && AtRest(s)
    ensures var t := Feed(s, ControlSequence(false, [4], 0x6c));
            Settled(s, t) && !t.core.modes.insert
  {
    hide Feed, ControlSequence, HandleCsi;
    ControlSequenceIsRead(s, false, [4], 0x6c);
    InsertModeIsLeft(Dispatched(s, false, [4]));
  }

  lemma InsertModeIsLeft(d: State)
    requires d.Valid() && d.core.parser.count == 1 && d.core.parser.parameters[0] == 4 && !d.core.parser.private
    ensures HandleCsi(d, 0x6c) == NoWrap(d).(core := NoWrap(d).core.(modes := d.core.modes.(insert := false)))
  {
    hide SetAlternateScreen;
    assert SetModes(NoWrap(d), false, 0) == NoWrap(d);
  }

  lemma PositionIsRead(s: State, row: nat, column: nat)
    requires s.Valid() && AtRest(s) && row < s.core.rows && column < s.core.columns
    ensures var t := Feed(s, ControlSequence(false, [row + 1, column + 1], 0x48));
            && Settled(s, t) && t.core.modes == s.core.modes && t.core.cursor == Cursor(row, column, false)
  {
    hide Feed, ControlSequence, HandleCsi;
    ControlSequenceIsRead(s, false, [row + 1, column + 1], 0x48);
    PositionIsCarriedOut(Dispatched(s, false, [row + 1, column + 1]), row, column);
  }

  /** One cell of the grid became the letter, and was marked. */
  ghost predicate LetterAt(s: State, t: State, row: nat, column: nat)
    requires s.Valid() && t.Valid() && row < s.core.rows && column < s.core.columns
  {
    && t.core.rows == s.core.rows && t.core.columns == s.core.columns
    && t.display == s.display.Marked(row, row + 1, column, column)
    && t.core.Cells() == s.core.Cells()[row := s.core.Cells()[row][column := Cell(LETTER, s.core.pen.Attribute())]]
  }

  lemma LetterIsWritten(s: State)
    requires s.Valid() && AtRest(s) && !s.core.modes.insert && !s.core.cursor.wrapPending
    ensures LetterAt(s, Step(s, LETTER), s.core.cursor.row, s.core.cursor.column)
  {
    hide HandleEscapeByte, HandleCsi, IndexDown, Display.Marked;
  }

  lemma PlaceIsReached(s: State, row: nat, column: nat)
    requires s.Valid() && row < s.core.rows && column < s.core.columns
    ensures var t := Feed(s, GoTo(row, column));
            Settled(s, t) && !t.core.modes.insert && t.core.cursor == Cursor(row, column, false)
  {
    hide Feed, Step, ControlSequence, Renderable, Sized, Display.Valid;
    var leave, go := ControlSequence(false, [4], 0x6c), ControlSequence(false, [row + 1, column + 1], 0x48);
    var a := Feed(s, [ESC, BACKSLASH]);
    var b := Feed(a, leave);
    TerminatorSettles(s);
    InsertModeEnds(a);
    PositionIsRead(b, row, column);
    FeedTwice(s, [ESC, BACKSLASH], leave);
    FeedTwice(s, [ESC, BACKSLASH] + leave, go);
  }

  lemma TypedAt(s: State, row: nat, column: nat)
    requires s.Valid() && row < s.core.rows && column < s.core.columns
    ensures LetterAt(s, Feed(s, TypeAt(row, column)), row, column)
  {
    hide Feed, Step, GoTo, Display.Marked, Core.Cells;
    PlaceIsReached(s, row, column);
    LetterIsWritten(Feed(s, GoTo(row, column)));
    FeedLast(s, GoTo(row, column), LETTER);
  }

  /** The run that shows a stale cell: letters left and right of it, with a repaint between. */
  function AroundIt(row: nat, column: nat): seq<Event>
    requires row < MAX_UINT16 && 0 < column && column + 1 < MAX_UINT16
  {
    [Repaint, Receive(TypeAt(row, column - 1)), Repaint, Receive(TypeAt(row, column + 1))]
  }

  lemma AroundItRuns(s: State, row: nat, column: nat)
    requires s.Valid() && row < MAX_UINT16 && 0 < column && column + 1 < MAX_UINT16
    ensures var first, last := TypeAt(row, column - 1), TypeAt(row, column + 1);
            && Run(s, AroundIt(row, column)) == Feed(Flush(Feed(Flush(s), first)), last)
            && Feed(s, Received(AroundIt(row, column))) == Feed(Feed(s, first), last)
  {
    hide Feed, Flush, Run, Received, TypeAt, TakeResponse, State.Valid;
    var first, last := TypeAt(row, column - 1), TypeAt(row, column + 1);
    var a, b: Event := Receive(first), Receive(last);
    NothingRun(s);
    RunExtends(s, [], Repaint);
    RunExtends(s, [Repaint], a);
    RunExtends(s, [Repaint, a], Repaint);
    RunExtends(s, [Repaint, a, Repaint], b);
    assert [] + [Repaint] == [Repaint] && [Repaint] + [a] == [Repaint, a];
    assert [Repaint, a] + [Repaint] == [Repaint, a, Repaint] && [Repaint, a, Repaint] + [b] == AroundIt(row, column);
    FeedTwice(s, first, last);
    assert [] + first == first && first + [] == first;
  }

  /** The two runs leave a stale cell differently: the cut one as the console had it, the other
      as the grid has it. */
  lemma CutsShowWhereStale(s: State, row: nat, column: nat)
    requires s.Valid() && row < s.core.rows && 0 < column && column + 1 < s.core.columns
    requires Stale(s, row, column, false)
    ensures var events := AroundIt(row, column);
            var cut, whole := Visible(Flush(Run(s, events))), Visible(Flush(Feed(s, Received(events))));
            && row < |cut| && column < |cut[row]| && cut[row][column] == s.display.console.cells[row][column].character
            && row < |whole| && column < |whole[row]| && whole[row][column] == s.core.Cells()[row][column].character
            && cut != whole
  {
    hide Feed, Flush, TypeAt, Run, Received, AroundIt, Visible, Left, Renderable;
    AroundItRuns(s, row, column);
    CutStays(s, row, column);
    WholeCovers(s, row, column);
    StaleIsWrong(s, row, column);
    ShownAt(Run(s, AroundIt(row, column)), row, column);
    ShownAt(Feed(s, Received(AroundIt(row, column))), row, column);
  }

  lemma ShownAt(s: State, r: nat, c: nat)
    requires s.Valid() && r < s.core.rows && c < s.core.columns
    ensures var shown := Visible(Flush(s));
            r < |shown| && c < |shown[r]| && shown[r][c] == Left(s, r, c)
  {
    hide Flush, Left;
    FlushLeaves(s, r, c);
  }

  lemma StaleIsWrong(s: State, r: nat, c: nat)
    requires s.Valid() && r < s.core.rows && c < s.core.columns && Stale(s, r, c, false)
    ensures s.display.console.cells[r][c].character != s.core.Cells()[r][c].character
  {
  }

  lemma CutStays(s: State, row: nat, column: nat)
    requires s.Valid() && row < s.core.rows && 0 < column && column + 1 < s.core.columns
    requires Stale(s, row, column, false)
    ensures var t := Feed(Flush(Feed(Flush(s), TypeAt(row, column - 1))), TypeAt(row, column + 1));
            && t.core.rows == s.core.rows && t.core.columns == s.core.columns
            && Left(t, row, column) == s.display.console.cells[row][column].character
  {
    hide Feed, Flush, TypeAt;
    var a := Flush(s);
    var b := Feed(a, TypeAt(row, column - 1));
    var c := Flush(b);
    FlushPaintsSpans(s);
    TypedAt(a, row, column - 1);
    FlushPaintsSpans(b);
    TypedAt(c, row, column + 1);
  }

  lemma WholeCovers(s: State, row: nat, column: nat)
    requires s.Valid() && row < s.core.rows && 0 < column && column + 1 < s.core.columns
    ensures var t := Feed(Feed(s, TypeAt(row, column - 1)), TypeAt(row, column + 1));
            && t.core.rows == s.core.rows && t.core.columns == s.core.columns
            && Left(t, row, column) == s.core.Cells()[row][column].character
  {
    hide Feed, TypeAt;
    TypedAt(s, row, column - 1);
    TypedAt(Feed(s, TypeAt(row, column - 1)), row, column + 1);
  }

  /** From any state, cuts and repaints never show exactly when no stale cell has neighbours on
      both sides. */
  lemma CutsShowExactlyWhereStaleInside(s: State)
    requires s.Valid()
    ensures CutsNeverShow(s) <==> NothingStaleInside(s)
  {
    hide Flush, Run, Feed, Stale, AroundIt;
    if NothingStaleInside(s) {
      forall events: seq<Event> ensures Visible(Flush(Run(s, events))) == Visible(Flush(Feed(s, Received(events)))) {
        CutsDoNotShow(s, events);
      }
    } else {
      var r: nat, c: nat :| r < s.core.rows && 0 < c && c + 1 < s.core.columns && Stale(s, r, c, false);
      CutsShowWhereStale(s, r, c);
    }
  }

  /** For a new terminal: exactly when the console was blank between its first and last column. */
  lemma NewTerminalHidesCutsExactlyOverBlank(columns: nat, rows: nat, console: Screen)
    requires 1 <= columns <= MAX_UINT16 && 1 <= rows <= MAX_UINT16 && Sized(console.cells, rows, columns)
    ensures CutsNeverShow(Created(columns, rows, console)) <==>
            forall r, c | 0 <= r < rows && 0 < c && c + 1 < columns :: console.cells[r][c].character == 0x20
  {
    hide CutsNeverShow, Created, Stale;
    var s := Created(columns, rows, console);
    CutsShowExactlyWhereStaleInside(s);
    CreatedSize(columns, rows, console);
    forall r: nat, c: nat | r < rows && 0 < c && c + 1 < columns
      ensures Stale(s, r, c, false) <==> console.cells[r][c].character != 0x20
    {
      CreatedStaleWhereConsoleNotBlank(columns, rows, console, r, c);
    }
  }

  lemma CreatedSize(columns: nat, rows: nat, console: Screen)
    requires 1 <= columns <= MAX_UINT16 && 1 <= rows <= MAX_UINT16 && Sized(console.cells, rows, columns)
    ensures Created(columns, rows, console).core.rows == rows && Created(columns, rows, console).core.columns == columns
  {
  }
}
