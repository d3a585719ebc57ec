/** The alternate screen: nothing fed while it stays on display reaches the primary one. */
module TerminalAlternate {
  import opened Basics
  import opened Grids
  import opened TerminalState
  import opened TerminalRendering
  import opened TerminalParsing

  predicate Active(s: State) {
    s.core.buffers.alternateActive
  }

  /** The primary grid and the cursor saved with it are as before. */
  predicate PrimaryKept(s: State, t: State) {
    t.core.buffers.primary == s.core.buffers.primary && t.core.primaryPlace == s.core.primaryPlace
  }

  /** From an active alternate screen the operation stays on it and keeps the primary one. */
  predicate StaysAway(s: State, t: State) {
    Active(s) ==> Active(t) && PrimaryKept(s, t)
  }

  lemma ScrollStaysAway(s: State, count: nat)
    requires s.Valid()
    ensures StaysAway(s, ScrollUp(s, count)) && StaysAway(s, ScrollDown(s, count))
  {
    hide Pulled, Pushed, BlankRow;
  }

  lemma MovesStayAway(s: State, count: nat)
    requires s.Valid()
    ensures StaysAway(s, ScrollUp(s, count)) && StaysAway(s, ScrollDown(s, count))
    ensures StaysAway(s, IndexDown(s)) && StaysAway(s, IndexUp(s))
    ensures count >= 1 ==> StaysAway(s, InsertLines(s, count)) && StaysAway(s, DeleteLines(s, count))
    ensures count >= 1 ==> StaysAway(s, InsertCharacters(s, count)) && StaysAway(s, DeleteCharacters(s, count))
  {
    hide Pulled, Pushed, BlankRow, ScrollUp, ScrollDown;
    ScrollStaysAway(s, count);
    ScrollStaysAway(NoWrap(s), 1);
  }

  lemma PutCharacterStaysAway(s: State, character: char16)
    requires s.Valid() && character != 0
    ensures StaysAway(s, PutCharacter(s, character))
  {
    hide IndexDown;
    MovesStayAway(MoveTo(s, s.core.cursor.row, 0), 1);
  }

  lemma ErasureStaysAway(s: State, mode: int)
    requires s.Valid()
    ensures StaysAway(s, EraseDisplay(s, mode)) && StaysAway(s, EraseLine(s, mode)) && StaysAway(s, ClearedScreen(s))
  {
    hide Filled, BlankGrid;
  }

  lemma EnablingModeStaysAway(s: State, value: int)
    requires s.Valid()
    ensures StaysAway(s, SetMode(s, value, true))
  {
    hide ClearedScreen, AllMarked, Display.Marked;
  }

  lemma {:induction false} EnablingModesStaysAway(s: State, n: nat)
    requires s.Valid()
    ensures StaysAway(s, SetModes(s, true, n))
  {
    hide SetMode, Renderable, Sized;
    if n > 0 {
      EnablingModesStaysAway(s, n - 1);
      var t := SetModes(s, true, n - 1);
      EnablingModeStaysAway(t, t.core.parser.Parameter(n - 1, 0));
    }
  }

  /** Once disabling modes has left the alternate screen it stays left. */
  lemma {:induction false} DisablingModesLeavesOrKeeps(s: State, n: nat)
    requires s.Valid()
    ensures Active(SetModes(s, false, n)) ==> Active(s) && PrimaryKept(s, SetModes(s, false, n))
  {
    hide ClearedScreen;
    if n > 0 {
      DisablingModesLeavesOrKeeps(s, n - 1);
    }
  }

  lemma HandleEditingStaysAway(s: State, final: byte)
    requires s.Valid()
    ensures StaysAway(s, HandleEditing(s, final))
  {
    hide EraseDisplay, EraseLine, InsertLines, DeleteLines, InsertCharacters, DeleteCharacters, ScrollUp, ScrollDown,
         Filled;
    var p := s.core.parser;
    ErasureStaysAway(s, p.Parameter(0, 0));
    MovesStayAway(s, p.NonZeroParameter(0));
  }

  /** A byte that leaves the alternate screen on display keeps the primary one. */
  lemma StepKeepsPrimary(s: State, b: byte)
    requires s.Valid() && Active(s) && Active(Step(s, b))
    ensures PrimaryKept(s, Step(s, b))
  {
    hide HandleGroundByte, HandleEscapeByte, HandleCsi;
    match s.core.parser.mode
    case Ground => GroundByteStaysAway(s, b);
    case Escape => EscapeByteStaysAway(s, b);
    case Csi =>
      if 0x40 <= b <= 0x7e && b != ESC {
        CsiKeepsPrimary(s, b);
      }
    case Osc =>
    case OscEscape =>
  }

  lemma CsiKeepsPrimary(s: State, final: byte)
    requires s.Valid() && Active(s) && Active(HandleCsi(s, final))
    ensures PrimaryKept(s, HandleCsi(s, final))
  {
    hide HandleEditing, SetModes;
    var t := NoWrap(s);
    HandleEditingStaysAway(t, final);
    EnablingModesStaysAway(t, s.core.parser.count);
    DisablingModesLeavesOrKeeps(t, s.core.parser.count);
  }

  lemma FirstByteStaysAway(s: State, b: byte)
    requires s.Valid() && AtRest(s)
    ensures StaysAway(s, HandleFirstByte(s, b))
  {
    hide PutCharacter, IndexDown;
    if b == 0x0a {
      MovesStayAway(s, 1);
    } else if 0x20 <= b < 0x7f {
      PutCharacterStaysAway(s, b);
    }
  }

  lemma GroundByteStaysAway(s: State, b: byte)
    requires s.Valid() && s.core.parser.mode == Ground
    ensures StaysAway(s, HandleGroundByte(s, b))
  {
    hide PutCharacter, HandleFirstByte;
    var p := s.core.parser;
    if p.remaining == 0 {
      FirstByteStaysAway(s, b);
    } else if b / 0x40 != 2 {
      var t := WithParser(s, p.(remaining := 0));
      PutCharacterStaysAway(t, Shown(0xfffd));
      FirstByteStaysAway(EmitCodePoint(t, 0xfffd), b);
    } else {
      var codePoint := p.codePoint * 0x40 + b % 0x40;
      PutCharacterStaysAway(WithParser(s, p.(remaining := p.remaining - 1, codePoint := codePoint)), Shown(codePoint));
    }
  }

  lemma EscapeByteStaysAway(s: State, b: byte)
    requires s.Valid() && s.core.parser.mode == Escape
    ensures StaysAway(s, HandleEscapeByte(s, b))
  {
    hide IndexDown, IndexUp, BlankGrid;
    var t := WithMode(s, Ground);
    MovesStayAway(t, 1);
    MovesStayAway(MoveTo(t, s.core.cursor.row, 0), 1);
  }

  /** The alternate screen is on display after every prefix of the bytes. */
  ghost predicate StaysActive(s: State, data: seq<byte>)
    requires s.Valid()
  {
    forall n: nat | n <= |data| :: Active(Feed(s, data[..n]))
  }

  lemma {:induction false} FeedKeepsPrimary(s: State, data: seq<byte>)
    requires s.Valid() && StaysActive(s, data)
    ensures PrimaryKept(s, Feed(s, data))
    decreases |data|
  {
    hide Step;
    if data == [] {
      FeedNothing(s);
    } else {
      var front := data[..|data| - 1];
      assert data[..|data|] == data;
      assert Active(Feed(s, data)) && Active(Feed(s, front));
      forall n: nat | n <= |front| ensures Active(Feed(s, front[..n])) {
        assert front[..n] == data[..n];
      }
      FeedKeepsPrimary(s, front);
      StepKeepsPrimary(Feed(s, front), data[|data| - 1]);
    }
  }

  predicate SwitchesScreen(value: int) {
    value == 47 || value == 1047 || value == 1049
  }

  /** ESC [ ? value h, or l when leaving. */
  function Switch(value: int, enable: bool): seq<byte>
    requires SwitchesScreen(value)
  {
    ControlSequence(true, [value], if enable then 0x68 else 0x6c)
  }

  lemma SwitchIsRead(s: State, value: int, enable: bool)
    requires s.Valid() && s.core.parser.mode != Osc && s.core.parser.mode != OscEscape && SwitchesScreen(value)
    ensures var t, u := Feed(s, Switch(value, enable)), SetAlternateScreen(s, enable);
            t.core.(parser := s.core.parser) == u.core && t.display == u.display
  {
    hide ControlSequence, Feed, SetAlternateScreen, HandleCsi;
    ControlSequenceIsRead(s, true, [value], if enable then 0x68 else 0x6c);
    var d := Dispatched(s, true, [value]);
    SwitchIsCarriedOut(d, value, enable);
    SwitchIgnoresParser(s, d.core.parser, enable);
  }

  lemma SwitchIsCarriedOut(d: State, value: int, enable: bool)
    requires d.Valid() && d.core.parser.private && d.core.parser.count == 1 && d.core.parser.parameters[0] == value
    requires SwitchesScreen(value)
    ensures HandleCsi(d, if enable then 0x68 else 0x6c) == SetAlternateScreen(NoWrap(d), enable)
  {
    hide SetAlternateScreen;
    OneMode(NoWrap(d), enable);
  }

  lemma OneMode(d: State, enable: bool)
    requires d.Valid()
    ensures SetModes(d, enable, 1) == SetMode(d, d.core.parser.Parameter(0, 0), enable)
  {
    hide SetMode;
    assert SetModes(d, enable, 0) == d;
  }

  lemma SwitchIgnoresParser(s: State, p: Parser, enable: bool)
    requires s.Valid() && p.Valid()
    ensures var t, u := SetAlternateScreen(NoWrap(WithParser(s, p)), enable), SetAlternateScreen(s, enable);
            t.core.(parser := s.core.parser) == u.core && t.display == u.display
  {
    hide BlankGrid, Screen.Cleared, Display.Marked;
  }

  /** Visiting the alternate screen: after switching to it, feeding any bytes that stay on it,
      and switching back, the primary grid and cursor are those of the visit's start, the
      whole screen scrolls again, and every cell is marked for repainting. */
  lemma VisitLeavesPrimaryAsItWas(s: State, enter: int, data: seq<byte>, leave: int)
    requires s.Valid() && !Active(s) && SwitchesScreen(enter) && SwitchesScreen(leave)
    requires s.core.parser.mode != Osc && s.core.parser.mode != OscEscape
    requires var t := Feed(s, Switch(enter, true));
             StaysActive(t, data) && Feed(t, data).core.parser.mode != Osc && Feed(t, data).core.parser.mode != OscEscape
    ensures var u := Feed(Feed(Feed(s, Switch(enter, true)), data), Switch(leave, false));
            && !Active(u) && u.core.Cells() == s.core.Cells()
            && u.core.cursor == Cursor(s.core.cursor.row, s.core.cursor.column, false)
            && u.core.margins == Margins(0, s.core.rows - 1)
            && forall r | 0 <= r < s.core.rows ::
                 u.display.dirtyStart[r] == 0 && u.display.dirtyEnd[r] == s.core.columns - 1
  {
    hide Feed, Switch, Step, BlankGrid;
    var t := Feed(s, Switch(enter, true));
    SwitchIsRead(s, enter, true);
    FeedKeepsPrimary(t, data);
    FeedKeeps(t, data, false);
    assert data[..|data|] == data;
    var v := Feed(t, data);
    assert Active(v);
    SwitchIsRead(v, leave, false);
  }
}
