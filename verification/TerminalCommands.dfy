/** What whole control sequences do, said without the code that carries them out. */
module TerminalCommands {
  import opened Basics
  import opened Grids
  import opened TerminalState
  import opened TerminalRendering
  import opened TerminalParsing

  // ---------- Every reachable state ----------

  /** Whatever a new terminal receives, repaints and hands out: the cursor stays in the grid,
      the margins in order, the parser in range, the colours among the sixteen, the replies in
      their queue, every cell can be printed, and every span lies in its row or is empty. */
  lemma EveryReachableState(columns: nat, rows: nat, console: Screen, events: seq<Event>)
    requires 1 <= columns <= MAX_UINT16 && 1 <= rows <= MAX_UINT16 && Sized(console.cells, rows, columns)
    ensures var s := Run(Created(columns, rows, console), events);
            var c, p := s.core, s.core.parser;
            && c.rows == rows && c.columns == columns
            && c.cursor.row < rows && c.cursor.column < columns
            && c.margins.top <= c.margins.bottom < rows
            && 1 <= p.count <= 16
            && (forall i | 0 <= i < p.count :: -1 <= p.parameters[i] <= 9999999)
            && (p.mode != Ground ==> p.remaining == 0)
            && (match p.remaining case 0 => true case 1 => p.codePoint < 0x8000 case 2 => p.codePoint < 0x200 case _ => p.codePoint < 8)
            && c.pen.foreground < 16 && c.pen.background < 16
            && |s.replies| <= 128
            && (forall r, k | 0 <= r < rows && 0 <= k < columns :: c.Cells()[r][k].character != 0)
            && (forall r | 0 <= r < rows ::
                  (s.display.dirtyStart[r] == columns && s.display.dirtyEnd[r] == 0)
                  || s.display.dirtyStart[r] <= s.display.dirtyEnd[r] < columns)
  {
    hide Run;
    var s := Created(columns, rows, console);
    RunNeverLosesACell(s, events);
    assert forall r | 0 <= r < rows :: RenderableLine(Run(s, events).core.Cells()[r], columns);
  }

  // ---------- Erasing ----------

  /** Cell (r, c) comes before the cell at the cursor in reading order, or is it. */
  predicate UpTo(cursor: Cursor, r: nat, c: nat) {
    r < cursor.row || (r == cursor.row && c <= cursor.column)
  }

  predicate From(cursor: Cursor, r: nat, c: nat) {
    r > cursor.row || (r == cursor.row && c >= cursor.column)
  }

  /** Erasing blanks exactly the cells up to the cursor, from it on, or all, in reading order; the
      display as a whole in the default colours, everything else in the current ones. */
  lemma EraseDisplayMeans(s: State, mode: int, r: nat, c: nat)
    requires s.Valid() && r < s.core.rows && c < s.core.columns
    ensures EraseDisplay(s, mode).core.Cells()[r][c]
         == if mode == 2 || mode == 3 then Blank(s.core.pen.DefaultAttribute())
            else if (if mode == 1 then UpTo(s.core.cursor, r, c) else From(s.core.cursor, r, c))
            then Blank(s.core.pen.Attribute()) else s.core.Cells()[r][c]
  {
    hide Display.Marked, Pen.Attribute, Pen.DefaultAttribute;
  }

  lemma EraseLineMeans(s: State, mode: int, r: nat, c: nat)
    requires s.Valid() && r < s.core.rows && c < s.core.columns
    ensures EraseLine(s, mode).core.Cells()[r][c]
         == if r == s.core.cursor.row
               && (mode == 2 || (if mode == 1 then UpTo(s.core.cursor, r, c) else From(s.core.cursor, r, c)))
            then Blank(s.core.pen.Attribute()) else s.core.Cells()[r][c]
  {
    hide Display.Marked, Pen.Attribute;
  }

  // ---------- Moving ----------

  predicate Listens(s: State) {
    s.core.parser.mode != Osc && s.core.parser.mode != OscEscape
  }

  const UP: byte := 0x41
  const DOWN: byte := 0x42
  const RIGHT: byte := 0x43
  const LEFT: byte := 0x44

  predicate IsDirection(final: byte) {
    UP <= final <= LEFT
  }

  function Opposite(final: byte): byte
    requires IsDirection(final)
  {
    if final == UP then DOWN else if final == DOWN then UP else if final == RIGHT then LEFT else RIGHT
  }

  /** ESC [ count, with a direction. */
  function Move(s: State, count: nat, final: byte): (t: State)
    requires s.Valid() && count <= MAX_PARAMETER && IsDirection(final)
    ensures t.Valid()
  {
    Feed(s, ControlSequence(false, [count], final))
  }

  /** How far the cursor is from the edge it would be moved to. */
  function Room(c: Core, final: byte): int
    requires IsDirection(final)
  {
    if final == UP then c.cursor.row
    else if final == DOWN then c.rows - 1 - c.cursor.row
    else if final == RIGHT then c.columns - 1 - c.cursor.column
    else c.cursor.column
  }

  function Shifted(cursor: Cursor, final: byte, n: int): (int, int)
    requires IsDirection(final)
  {
    if final == UP then (cursor.row - n, cursor.column)
    else if final == DOWN then (cursor.row + n, cursor.column)
    else if final == RIGHT then (cursor.row, cursor.column + n)
    else (cursor.row, cursor.column - n)
  }

  /** A move goes as far as there is room, forgets a pending wrap and leaves the rest of the
      screen alone. */
  lemma MoveGoesAsFarAsItCan(s: State, count: nat, final: byte)
    requires s.Valid() && Listens(s) && 1 <= count <= MAX_PARAMETER && IsDirection(final)
    ensures var t := Move(s, count, final);
            var place := Shifted(s.core.cursor, final, Min(count, Room(s.core, final)));
            && (t.core.cursor.row, t.core.cursor.column) == place && !t.core.cursor.wrapPending
            && t.core == s.core.(cursor := t.core.cursor, parser := t.core.parser)
            && t.display == s.display && t.replies == s.replies && Listens(t)
  {
    hide Feed, ControlSequence, HandleCsi;
    ControlSequenceIsRead(s, false, [count], final);
    DirectionIsCarriedOut(Dispatched(s, false, [count]), count, final);
  }

  lemma DirectionIsCarriedOut(d: State, count: nat, final: byte)
    requires d.Valid() && IsDirection(final)
    requires d.core.parser.parameters[0] == count && 1 <= count
    ensures var t := HandleCsi(d, final);
            var place := Shifted(d.core.cursor, final, Min(count, Room(d.core, final)));
            && t == d.(core := d.core.(cursor := t.core.cursor))
            && (t.core.cursor.row, t.core.cursor.column) == place && !t.core.cursor.wrapPending
  {
  }

  /** Moving by a and then by b is moving by a + b, edges included. */
  lemma MovesAddUp(s: State, a: nat, b: nat, final: byte)
    requires s.Valid() && Listens(s) && 1 <= a && 1 <= b && a + b <= MAX_PARAMETER && IsDirection(final)
    ensures Move(Move(s, a, final), b, final).core.cursor == Move(s, a + b, final).core.cursor
  {
    hide Move;
    MoveGoesAsFarAsItCan(s, a, final);
    MoveGoesAsFarAsItCan(Move(s, a, final), b, final);
    MoveGoesAsFarAsItCan(s, a + b, final);
  }

  /** Moving back undoes a move exactly when there was room for all of it, or the cursor started
      at the opposite edge and is stopped there again. */
  lemma MovesUndoExactlyWithRoom(s: State, count: nat, final: byte)
    requires s.Valid() && Listens(s) && 1 <= count <= MAX_PARAMETER && IsDirection(final)
    ensures var t, cursor := Move(Move(s, count, final), count, Opposite(final)), s.core.cursor;
            (t.core.cursor.row == cursor.row && t.core.cursor.column == cursor.column)
            <==> count <= Room(s.core, final) || Room(s.core, Opposite(final)) == 0
  {
    hide Move;
    MoveGoesAsFarAsItCan(s, count, final);
    MoveGoesAsFarAsItCan(Move(s, count, final), count, Opposite(final));
  }

  // ---------- Colours ----------

  /** Parameters that select a foreground or background colour, one of the first sixteen. */
  function ColourParameters(colour: nat, isForeground: bool, palette: bool): seq<int>
    requires colour < 16
  {
    if palette then [if isForeground then 38 else 48, 5, colour]
    else if isForeground then [if colour < 8 then 30 + colour else 90 + colour - 8]
    else [if colour < 8 then 40 + colour else 100 + colour - 8]
  }

  /** Parameters that select a pen, each colour by its own code or out of the palette. */
  function PenParameters(pen: Pen, shortForeground: bool, shortBackground: bool): (values: seq<int>)
    requires pen.Valid()
    ensures Writable(values)
  {
    [if pen.bold then 1 else 22, if pen.reverse then 7 else 27]
    + ColourParameters(pen.foreground, true, !shortForeground)
    + ColourParameters(pen.background, false, !shortBackground)
  }

  lemma ColourIsRead(pen: Pen, p: Parser, index: nat, colour: nat, isForeground: bool, palette: bool)
    requires pen.Valid() && p.Valid() && colour < 16
    requires var values := ColourParameters(colour, isForeground, palette);
             index + |values| <= p.count && forall i | 0 <= i < |values| :: p.parameters[index + i] == values[i]
    ensures Rendition(pen, p, index)
         == (Coloured(pen, isForeground, colour), |ColourParameters(colour, isForeground, palette)|)
  {
    hide MapRgbColor;
    var values := ColourParameters(colour, isForeground, palette);
    assert p.parameters[index] == values[0];
    if palette {
      assert values[1] == 5 && values[2] == colour;
    }
  }

  lemma ColourIsSelected(pen: Pen, p: Parser, index: nat, colour: nat, isForeground: bool, palette: bool)
    requires pen.Valid() && p.Valid() && colour < 16
    requires var values := ColourParameters(colour, isForeground, palette);
             index + |values| <= p.count && p.parameters[index..index + |values|] == values
    ensures Renditions(pen, p, index)
         == Renditions(Coloured(pen, isForeground, colour), p, index + |ColourParameters(colour, isForeground, palette)|)
  {
    hide Rendition;
    var values := ColourParameters(colour, isForeground, palette);
    forall i | 0 <= i < |values| ensures p.parameters[index + i] == values[i] {
      assert p.parameters[index..index + |values|][i] == values[i];
    }
    ColourIsRead(pen, p, index, colour, isForeground, palette);
  }

  lemma SwitchesAreSelected(pen: Pen, p: Parser, bold: bool, reverse: bool)
    requires pen.Valid() && p.Valid() && p.count >= 2
    requires p.parameters[0] == (if bold then 1 else 22) && p.parameters[1] == (if reverse then 7 else 27)
    ensures Renditions(pen, p, 0) == Renditions(pen.(bold := bold, reverse := reverse), p, 2)
  {
  }

  /** A pen written as a graphic rendition, each colour in either form, is read back exactly,
      whatever pen was in use before. */
  lemma PenIsReadBack(s: State, pen: Pen, shortForeground: bool, shortBackground: bool)
    requires s.Valid() && Listens(s) && pen.Valid()
    ensures var t := Feed(s, ControlSequence(false, PenParameters(pen, shortForeground, shortBackground), 0x6d));
            && t.core.pen == pen.(defaultForeground := s.core.pen.defaultForeground, defaultBackground := s.core.pen.defaultBackground)
            && t.core == s.core.(pen := t.core.pen, cursor := s.core.cursor.(wrapPending := false), parser := t.core.parser)
            && AtRest(t) && t.display == s.display && t.replies == s.replies
  {
    hide Feed, ControlSequence, HandleCsi, Renditions, Rendition;
    var values := PenParameters(pen, shortForeground, shortBackground);
    ControlSequenceIsRead(s, false, values, 0x6d);
    var d := Dispatched(s, false, values);
    var p := d.core.parser;
    RenditionIsCarriedOut(d);
    PenIsSelected(s.core.pen, p, pen, shortForeground, shortBackground);
  }

  /** The colour a pen writes in: the chosen one, bright when bold was chosen for one of the first eight. */
  function Ink(pen: Pen): nat {
    if pen.bold && pen.foreground < 8 then pen.foreground + 8 else pen.foreground
  }

  /** What a pen paints: its ink on its background, exchanged when reversed; what lies behind has
      only the first eight colours. */
  lemma AttributeMeans(pen: Pen)
    requires pen.Valid()
    ensures pen.Attribute() % 16 == if pen.reverse then pen.background else Ink(pen)
    ensures pen.Attribute() / 16 == if pen.reverse then Ink(pen) % 8 else pen.background % 8
    ensures pen.DefaultAttribute() % 16 == pen.defaultForeground && pen.DefaultAttribute() / 16 == pen.defaultBackground
  {
    var ink := Ink(pen);
    assert ink < 16 && ink % 16 == ink && pen.background % 16 == pen.background;
    Nibbles(pen.background, ink % 8);
    Nibbles(ink, pen.background % 8);
    Nibbles(pen.defaultForeground, pen.defaultBackground);
  }

  lemma Nibbles(low: nat, high: nat)
    requires low < 16
    ensures (low + 16 * high) % 16 == low && (low + 16 * high) / 16 == high
  {
  }

  /** A character written after a pen was chosen has just its colours. */
  lemma CharactersAreWrittenInChosenColours(s: State, pen: Pen, shortForeground: bool, shortBackground: bool, b: byte)
    requires s.Valid() && Listens(s) && pen.Valid() && 0x20 <= b < 0x7f
    ensures var t := Feed(s, ControlSequence(false, PenParameters(pen, shortForeground, shortBackground), 0x6d) + [b]);
            && t.core.rows == s.core.rows && t.core.columns == s.core.columns
            && var cell := t.core.Cells()[s.core.cursor.row][s.core.cursor.column];
               var ink := if pen.bold && pen.foreground < 8 then pen.foreground + 8 else pen.foreground;
               && cell.character == b
               && cell.attribute % 16 == (if pen.reverse then pen.background else ink)
               && cell.attribute / 16 == (if pen.reverse then ink % 8 else pen.background % 8)
  {
    hide Feed, ControlSequence, PenParameters, Step, Pen.Attribute;
    var values := PenParameters(pen, shortForeground, shortBackground);
    var u := Feed(s, ControlSequence(false, values, 0x6d));
    PenIsReadBack(s, pen, shortForeground, shortBackground);
    FeedLast(s, ControlSequence(false, values, 0x6d), b);
    LetterIsStored(u, b);
    AttributeMeans(u.core.pen);
  }

  lemma LetterIsStored(s: State, b: byte)
    requires s.Valid() && AtRest(s) && !s.core.cursor.wrapPending && 0x20 <= b < 0x7f
    ensures var t := Step(s, b);
            && t.core.rows == s.core.rows && t.core.columns == s.core.columns
            && t.core.Cells()[s.core.cursor.row][s.core.cursor.column] == Cell(b, s.core.pen.Attribute())
  {
    hide IndexDown, HandleEscapeByte, HandleCsi, Pen.Attribute, Display.Marked;
  }

  /** ESC [ 0 m, like ESC [ m, writes in the default colours again; 39 and 49 give back one of them. */
  lemma PenIsReset(s: State, value: int)
    requires s.Valid() && Listens(s) && (value == -1 || value == 0 || value == 39 || value == 49)
    ensures var t := Feed(s, ControlSequence(false, [value], 0x6d));
            && t.core == s.core.(pen := t.core.pen, cursor := s.core.cursor.(wrapPending := false), parser := t.core.parser)
            && t.display == s.display && t.replies == s.replies
            && t.core.pen == (if value == 39 then s.core.pen.(foreground := s.core.pen.defaultForeground)
                              else if value == 49 then s.core.pen.(background := s.core.pen.defaultBackground)
                              else s.core.pen.(foreground := s.core.pen.defaultForeground,
                                               background := s.core.pen.defaultBackground, bold := false, reverse := false))
  {
    hide Feed, ControlSequence, HandleCsi, Rendition;
    ControlSequenceIsRead(s, false, [value], 0x6d);
    var d := Dispatched(s, false, [value]);
    RenditionIsCarriedOut(d);
    ResetIsRead(d.core.pen, d.core.parser, value);
  }

  lemma ResetIsRead(pen: Pen, p: Parser, value: int)
    requires pen.Valid() && p.Valid() && p.count == 1 && p.parameters[0] == value
    requires value == -1 || value == 0 || value == 39 || value == 49
    ensures Renditions(pen, p, 0)
         == if value == 39 then pen.(foreground := pen.defaultForeground)
            else if value == 49 then pen.(background := pen.defaultBackground)
            else pen.(foreground := pen.defaultForeground, background := pen.defaultBackground, bold := false, reverse := false)
  {
    hide Pen.Attribute;
  }

  lemma RenditionIsCarriedOut(d: State)
    requires d.Valid()
    ensures HandleCsi(d, 0x6d) == NoWrap(d).(core := NoWrap(d).core.(pen := Renditions(d.core.pen, d.core.parser, 0)))
  {
    hide Renditions;
  }

  lemma PenIsSelected(before: Pen, p: Parser, pen: Pen, shortForeground: bool, shortBackground: bool)
    requires before.Valid() && p.Valid() && pen.Valid()
    requires var values := PenParameters(pen, shortForeground, shortBackground);
             p.count == |values| && p.parameters[..p.count] == values
    ensures Renditions(before, p, 0)
         == pen.(defaultForeground := before.defaultForeground, defaultBackground := before.defaultBackground)
  {
    hide Rendition, Renditions, ColourParameters;
    var values := PenParameters(pen, shortForeground, shortBackground);
    var f, b := ColourParameters(pen.foreground, true, !shortForeground), ColourParameters(pen.background, false, !shortBackground);
    var k := 2 + |f|;
    assert p.parameters[0] == p.parameters[..p.count][0] && p.parameters[1] == p.parameters[..p.count][1];
    PartsOfPrefix(p.parameters, [if pen.bold then 1 else 22, if pen.reverse then 7 else 27], f, b);
    var switched := before.(bold := pen.bold, reverse := pen.reverse);
    SwitchesAreSelected(before, p, pen.bold, pen.reverse);
    ColourIsSelected(switched, p, 2, pen.foreground, true, !shortForeground);
    ColourIsSelected(switched.(foreground := pen.foreground), p, k, pen.background, false, !shortBackground);
    NothingSelected(switched.(foreground := pen.foreground, background := pen.background), p);
  }

  lemma PartsOfPrefix(s: seq<int>, a: seq<int>, b: seq<int>, c: seq<int>)
    requires |a| + |b| + |c| <= |s| && s[..|a| + |b| + |c|] == a + b + c
    ensures s[|a|..|a| + |b|] == b && s[|a| + |b|..|a| + |b| + |c|] == c
  {
    var n := |a| + |b| + |c|;
    assert s[|a|..|a| + |b|] == s[..n][|a|..|a| + |b|];
    assert s[|a| + |b|..n] == s[..n][|a| + |b|..];
  }

  lemma NothingSelected(pen: Pen, p: Parser)
    requires pen.Valid() && p.Valid()
    ensures Renditions(pen, p, p.count) == pen
  {
  }

  /** A colour by its components: blue, green and red bits, and the bright one. */
  function Mixed(red: bool, green: bool, blue: bool, bright: bool): nat {
    (if blue then 1 else 0) + (if green then 2 else 0) + (if red then 4 else 0) + (if bright then 8 else 0)
  }

  lemma SixthsAreRead(red: nat, green: nat, blue: nat)
    requires red < 6 && green < 6 && blue < 6
    ensures var n := 36 * red + 6 * green + blue;
            n / 36 == red && n / 6 % 6 == green && n % 6 == blue
  {
    var n := 36 * red + 6 * green + blue;
    assert n / 6 == 6 * red + green;
  }

  /** ESC [ 38 or 48 ; 5 ; n m selects one of 256 colours: the first sixteen themselves, the cube by
      its components, the greys dark or white. */
  lemma PaletteColourIsSelected(s: State, isForeground: bool, red: nat, green: nat, blue: nat, other: nat)
    requires s.Valid() && Listens(s) && red < 6 && green < 6 && blue < 6 && 232 <= other <= MAX_PARAMETER
    ensures var cube := 16 + 36 * red + 6 * green + blue;
            Feed(s, ControlSequence(false, [if isForeground then 38 else 48, 5, cube], 0x6d)).core.pen
            == Coloured(s.core.pen, isForeground,
                        Mixed(red >= 3, green >= 3, blue >= 3, red == 5 || green == 5 || blue == 5))
    ensures Feed(s, ControlSequence(false, [if isForeground then 38 else 48, 5, other], 0x6d)).core.pen
         == Coloured(s.core.pen, isForeground, if other < 244 then 8 else 15)
  {
    hide Feed, ControlSequence, HandleCsi, Renditions, Coloured, Mixed, Map256Color;
    var kind := if isForeground then 38 else 48;
    var cube := 16 + 36 * red + 6 * green + blue;
    ControlSequenceIsRead(s, false, [kind, 5, cube], 0x6d);
    ControlSequenceIsRead(s, false, [kind, 5, other], 0x6d);
    RenditionIsCarriedOut(Dispatched(s, false, [kind, 5, cube]));
    RenditionIsCarriedOut(Dispatched(s, false, [kind, 5, other]));
    PaletteIsRead(s.core.pen, Dispatched(s, false, [kind, 5, cube]).core.parser, isForeground, cube);
    PaletteIsRead(s.core.pen, Dispatched(s, false, [kind, 5, other]).core.parser, isForeground, other);
    CubeIsMixed(red, green, blue);
    GreyIsMapped(other);
  }

  lemma CubeIsMixed(red: nat, green: nat, blue: nat)
    requires red < 6 && green < 6 && blue < 6
    ensures Map256Color(16 + 36 * red + 6 * green + blue)
         == Mixed(red >= 3, green >= 3, blue >= 3, red == 5 || green == 5 || blue == 5)
  {
    SixthsAreRead(red, green, blue);
  }

  lemma GreyIsMapped(n: nat)
    requires n >= 232
    ensures Map256Color(n) == if n < 244 then 8 else 15
  {
  }

  lemma PaletteIsRead(pen: Pen, p: Parser, isForeground: bool, n: nat)
    requires pen.Valid() && p.Valid() && p.count == 3 && p.parameters[..3] == [if isForeground then 38 else 48, 5, n]
    ensures Renditions(pen, p, 0) == Coloured(pen, isForeground, Map256Color(n))
  {
    hide Map256Color, MapRgbColor;
    assert p.parameters[0] == p.parameters[..3][0] && p.parameters[1] == p.parameters[..3][1] && p.parameters[2] == p.parameters[..3][2];
  }

  /** ESC [ 38 or 48 ; 2 ; red ; green ; blue m: each bit from 128 on, bright from 192 on. */
  lemma RgbColourIsSelected(s: State, isForeground: bool, red: nat, green: nat, blue: nat)
    requires s.Valid() && Listens(s) && red <= MAX_PARAMETER && green <= MAX_PARAMETER && blue <= MAX_PARAMETER
    ensures Feed(s, ControlSequence(false, [if isForeground then 38 else 48, 2, red, green, blue], 0x6d)).core.pen
         == Coloured(s.core.pen, isForeground,
                     Mixed(red >= 128, green >= 128, blue >= 128, red >= 192 || green >= 192 || blue >= 192))
  {
    hide Feed, ControlSequence, HandleCsi, Renditions, Coloured, MapRgbColor;
    var values := [if isForeground then 38 else 48, 2, red, green, blue];
    ControlSequenceIsRead(s, false, values, 0x6d);
    RenditionIsCarriedOut(Dispatched(s, false, values));
    RgbIsRead(s.core.pen, Dispatched(s, false, values).core.parser, isForeground, red, green, blue);
    RgbIsMixed(red, green, blue);
  }

  lemma RgbIsMixed(red: nat, green: nat, blue: nat)
    ensures MapRgbColor(red, green, blue)
         == Mixed(red >= 128, green >= 128, blue >= 128, red >= 192 || green >= 192 || blue >= 192)
  {
  }

  lemma RgbIsRead(pen: Pen, p: Parser, isForeground: bool, red: nat, green: nat, blue: nat)
    requires pen.Valid() && p.Valid() && p.count == 5
    requires p.parameters[..5] == [if isForeground then 38 else 48, 2, red, green, blue]
    ensures Renditions(pen, p, 0) == Coloured(pen, isForeground, MapRgbColor(red, green, blue))
  {
    hide Map256Color, MapRgbColor;
    forall i | 0 <= i < 5 ensures p.parameters[i] == p.parameters[..5][i] {
    }
  }
}
