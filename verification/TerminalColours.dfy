/** The colours of the rendering cache. Clearing paints in the console's current attribute, which
    is the terminal's default one only as long as repaints leave it so. */
module TerminalColours {
  import opened Basics
  import opened Grids
  import opened TerminalState
  import opened TerminalRendering
  import opened TerminalParsing
  import opened TerminalCuts

  /** Every cell is right in colour or will be repainted, and clearing clears in the default colours. */
  ghost predicate ColoursHold(s: State)
    requires s.Valid()
  {
    NothingStale(s, true) && Tinted(s)
  }

  /** Whatever is fed next, a repaint then shows every cell in its colour. */
  ghost predicate ColoursStayRight(s: State)
    requires s.Valid()
  {
    forall data: seq<byte> :: Agrees(Flush(Feed(s, data)), true)
  }

  lemma RepaintAgreesExactly(s: State)
    requires s.Valid()
    ensures Agrees(Flush(s), true) <==> NothingStale(s, true)
  {
    hide Flush, Stale, Shows;
    forall r: nat, c: nat | r < s.core.rows && c < s.core.columns
      ensures Shows(Flush(s).display.console.cells[r][c], s.core.Cells()[r][c], true) <==> !Stale(s, r, c, true)
    {
      FlushRepairs(s, r, c, true);
    }
  }

  // ---------- The witness: erase the display ----------

  /** ESC \ and ESC [ 2 J: erases the display whatever came before. */
  const ERASE: seq<byte> := [ESC, BACKSLASH] + ControlSequence(false, [2], 0x4a)

  lemma EraseIsRead(s: State)
    requires s.Valid()
    ensures exists d: State :: d.Valid() && SameColours(s, d) && Feed(s, ERASE) == WithMode(EraseDisplay(d, 2), Ground)
  {
    hide Feed, ControlSequence, EraseDisplay, HandleCsi;
    var a := Feed(s, [ESC, BACKSLASH]);
    TerminatorSettles(s);
    TerminatorKeepsColours(s);
    FeedTwice(s, [ESC, BACKSLASH], ControlSequence(false, [2], 0x4a));
    ControlSequenceIsRead(a, false, [2], 0x4a);
    EraseIsCarriedOut(Dispatched(a, false, [2]));
  }

  predicate SameColours(s: State, t: State) {
    && t.core.rows == s.core.rows && t.core.columns == s.core.columns
    && t.core.pen.DefaultAttribute() == s.core.pen.DefaultAttribute()
    && t.display.console.attribute == s.display.console.attribute
  }

  lemma TerminatorKeepsColours(s: State)
    requires s.Valid()
    ensures SameColours(s, Feed(s, [ESC, BACKSLASH]))
  {
    hide Feed;
    FeedKeeps(s, [ESC, BACKSLASH], false);
  }

  lemma EraseIsCarriedOut(d: State)
    requires d.Valid() && d.core.parser.parameters[0] == 2
    ensures HandleCsi(d, 0x4a) == EraseDisplay(NoWrap(d), 2)
  {
    hide EraseDisplay;
  }

  lemma ErasingShowsTheTint(s: State)
    requires s.Valid()
    ensures Agrees(Flush(Feed(s, ERASE)), true) <==> Tinted(s)
  {
    hide Flush, Feed, EraseDisplay, NothingStale;
    EraseIsRead(s);
    var d: State :| d.Valid() && SameColours(s, d) && Feed(s, ERASE) == WithMode(EraseDisplay(d, 2), Ground);
    EraseDisplayAgrees(d, 2, true);
    ModeStalesNothing(EraseDisplay(d, 2), Ground);
    RepaintAgreesExactly(Feed(s, ERASE));
  }

  lemma ModeStalesNothing(s: State, mode: Mode)
    requires s.Valid() && (mode == Ground || s.core.parser.remaining == 0)
    ensures NothingStale(WithMode(s, mode), true) <==> NothingStale(s, true)
  {
    var t := WithMode(s, mode);
    forall r: nat, c: nat | r < s.core.rows && c < s.core.columns ensures Stale(t, r, c, true) <==> Stale(s, r, c, true) {
    }
  }

  // ---------- From one state ----------

  /** Colours are right after any bytes and a repaint exactly when nothing is stale in colour
      now and the console's attribute is the terminal's default one. */
  lemma ColoursStayRightExactly(s: State)
    requires s.Valid()
    ensures ColoursStayRight(s) <==> ColoursHold(s)
  {
    hide Flush, Feed, NothingStale, Agrees, Tinted;
    if ColoursHold(s) {
      forall data: seq<byte> ensures Agrees(Flush(Feed(s, data)), true) {
        FeedHolds(s, data);
        RepaintAgreesExactly(Feed(s, data));
      }
    } else if !Tinted(s) {
      ErasingShowsTheTint(s);
    } else {
      FeedNothing(s);
      RepaintAgreesExactly(s);
      assert Feed(s, []) == s;
    }
  }

  lemma FeedHolds(s: State, data: seq<byte>)
    requires s.Valid() && ColoursHold(s)
    ensures ColoursHold(Feed(s, data))
  {
    hide Feed, Stale;
    FeedKeeps(s, data, true);
  }

  // ---------- Over runs ----------

  predicate PenAtDefault(s: State) {
    s.core.pen.Attribute() == s.core.pen.DefaultAttribute()
  }

  /** Every repaint of a run finds the pen writing in the default colours. */
  ghost predicate RepaintsAtDefault(s: State, events: seq<Event>)
    requires s.Valid()
  {
    events == [] ||
    var before, e := events[..|events| - 1], events[|events| - 1];
    RepaintsAtDefault(s, before) && (e.Repaint? ==> PenAtDefault(Run(s, before)))
  }

  /** A repaint hands the console the pen's attribute, so it keeps the colours right exactly when
      that is the default one. */
  lemma FlushHoldsExactly(s: State)
    requires s.Valid() && NothingStale(s, true)
    ensures ColoursHold(Flush(s)) <==> PenAtDefault(s)
  {
    hide Flush, Stale;
    FlushPaintsSpans(s);
    forall r: nat, c: nat | r < s.core.rows && c < s.core.columns ensures !Stale(Flush(s), r, c, true) {
      FlushRepairs(s, r, c, true);
    }
  }

  lemma CollectHolds(s: State, capacity: nat)
    requires s.Valid() && ColoursHold(s)
    ensures ColoursHold(TakeResponse(s, capacity).0)
  {
    var t := TakeResponse(s, capacity).0;
    forall r: nat, c: nat | r < s.core.rows && c < s.core.columns ensures !Stale(t, r, c, true) {
      assert !Stale(s, r, c, true);
    }
  }

  lemma {:induction false} RunHolds(s: State, events: seq<Event>)
    requires s.Valid() && ColoursHold(s) && RepaintsAtDefault(s, events)
    ensures ColoursHold(Run(s, events))
    decreases |events|
  {
    hide Flush, Feed, NothingStale, Tinted, PenAtDefault, TakeResponse;
    if events != [] {
      var before, e := events[..|events| - 1], events[|events| - 1];
      var t := Run(s, before);
      RunHolds(s, before);
      match e {
        case Receive(data) => FeedHolds(t, data);
        case Repaint => FlushHoldsExactly(t);
        case Collect(capacity) => CollectHolds(t, capacity);
      }
    }
  }

  /** The repaint that first finds another pen. */
  lemma {:induction false} FirstOtherPen(s: State, events: seq<Event>) returns (n: nat)
    requires s.Valid() && !RepaintsAtDefault(s, events)
    ensures n < |events| && events[n].Repaint? && RepaintsAtDefault(s, events[..n]) && !PenAtDefault(Run(s, events[..n]))
    decreases |events|
  {
    hide PenAtDefault, Run;
    var before := events[..|events| - 1];
    if RepaintsAtDefault(s, before) {
      n := |events| - 1;
    } else {
      n := FirstOtherPen(s, before);
      assert before[..n] == events[..n];
    }
  }

  /** At every moment of a run any bytes and a repaint show all colours right. */
  ghost predicate ColoursNeverWrong(s: State, events: seq<Event>)
    requires s.Valid()
  {
    forall n: nat | n <= |events| :: ColoursStayRight(Run(s, events[..n]))
  }

  /** Over any run that starts right: exactly when every repaint finds the pen at its defaults. */
  lemma ColoursNeverWrongExactly(s: State, events: seq<Event>)
    requires s.Valid() && ColoursHold(s)
    ensures ColoursNeverWrong(s, events) <==> RepaintsAtDefault(s, events)
  {
    hide Flush, Run, ColoursHold, ColoursStayRight, PenAtDefault, NothingStale;
    if RepaintsAtDefault(s, events) {
      forall n: nat | n <= |events| ensures ColoursStayRight(Run(s, events[..n])) {
        PrefixAtDefault(s, events, n);
        RunHolds(s, events[..n]);
        ColoursStayRightExactly(Run(s, events[..n]));
      }
    } else {
      var n := FirstOtherPen(s, events);
      var t := Run(s, events[..n]);
      RunHolds(s, events[..n]);
      HoldingStalesNothing(t);
      FlushHoldsExactly(t);
      RunExtends(s, events[..n], Repaint);
      assert events[..n] + [Repaint] == events[..n + 1];
      ColoursStayRightExactly(Flush(t));
      assert !ColoursStayRight(Run(s, events[..n + 1]));
    }
  }

  lemma HoldingStalesNothing(s: State)
    requires s.Valid() && ColoursHold(s)
    ensures NothingStale(s, true)
  {
  }

  lemma {:induction false} PrefixAtDefault(s: State, events: seq<Event>, n: nat)
    requires s.Valid() && RepaintsAtDefault(s, events) && n <= |events|
    ensures RepaintsAtDefault(s, events[..n])
    decreases |events|
  {
    hide PenAtDefault, Run;
    if n == |events| {
      assert events[..n] == events;
    } else {
      var before := events[..|events| - 1];
      PrefixAtDefault(s, before, n);
      assert before[..n] == events[..n];
    }
  }

  /** A new terminal starts right in colour exactly over a console that is blank in an attribute
      without a bright background. */
  lemma NewTerminalHoldsExactly(columns: nat, rows: nat, console: Screen)
    requires 1 <= columns <= MAX_UINT16 && 1 <= rows <= MAX_UINT16 && Sized(console.cells, rows, columns)
    ensures ColoursHold(Created(columns, rows, console)) <==>
            && console.attribute < 0x80
            && forall r, c | 0 <= r < rows && 0 <= c < columns :: console.cells[r][c] == Blank(console.attribute)
  {
    var s := Created(columns, rows, console);
    DefaultOfConsole(columns, rows, console);
    forall r: nat, c: nat | r < rows && c < columns
      ensures Stale(s, r, c, true) <==> console.cells[r][c] != Blank(s.core.pen.DefaultAttribute())
    {
      assert s.core.Cells()[r][c] == Blank(s.core.pen.DefaultAttribute());
    }
  }

  lemma DefaultOfConsole(columns: nat, rows: nat, console: Screen)
    requires 1 <= columns <= MAX_UINT16 && 1 <= rows <= MAX_UINT16 && Sized(console.cells, rows, columns)
    ensures Created(columns, rows, console).core.pen.DefaultAttribute() == console.attribute <==> console.attribute < 0x80
  {
    hide BlankGrid, Repeat, Sized, Renderable, State.Valid;
    LowSevenBits(console.attribute);
  }

  lemma LowSevenBits(attribute: nat)
    ensures attribute % 16 + 16 * (attribute / 16 % 8) == attribute <==> attribute < 0x80
  {
    var high := attribute / 16;
    assert attribute == attribute % 16 + 16 * high;
    assert high % 8 == high <==> high < 8;
  }
}
