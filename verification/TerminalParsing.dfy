/** The byte parser: operating-system commands, control sequences and UTF-8, each against
    the text that is meant. */
module TerminalParsing {
  import opened Basics
  import opened Grids
  import opened TerminalState
  import opened TerminalRendering

  const BEL: byte := 0x07
  const BACKSLASH: byte := 0x5c

  // ---------- Operating-system commands ----------

  /** Byte i ends an operating-system command: BEL not right after ESC, or '\' right after ESC. */
  predicate EndsCommand(payload: seq<byte>, i: nat)
    requires i < |payload|
  {
    var escaped := i > 0 && payload[i - 1] == ESC;
    if escaped then payload[i] == BACKSLASH else payload[i] == BEL
  }

  /** Until it ends, a command of any length changes nothing but the parser's mode. */
  lemma {:induction false} CommandIsIgnored(s: State, payload: seq<byte>)
    requires s.Valid() && s.core.parser.mode == Osc
    requires forall i: nat | i < |payload| :: !EndsCommand(payload, i)
    ensures Feed(s, payload) == WithMode(s, if payload != [] && payload[|payload| - 1] == ESC then OscEscape else Osc)
    decreases |payload|
  {
    hide HandleGroundByte, HandleEscapeByte, HandleCsi;
    if payload == [] {
      FeedNothing(s);
    } else {
      var before, b := payload[..|payload| - 1], payload[|payload| - 1];
      forall i: nat | i < |before| ensures !EndsCommand(before, i) {
        assert EndsCommand(before, i) == EndsCommand(payload, i);
      }
      CommandIsIgnored(s, before);
      assert !EndsCommand(payload, |payload| - 1);
      assert Feed(s, payload) == Step(Feed(s, before), b);
    }
  }

  /** A command ends exactly at its first terminator, and the terminal is then as before it. */
  lemma CommandEnds(s: State, payload: seq<byte>, k: nat)
    requires s.Valid() && s.core.parser.mode == Osc && k < |payload| && EndsCommand(payload, k)
    requires forall i: nat | i < k :: !EndsCommand(payload, i)
    ensures Feed(s, payload[..k + 1]) == WithMode(s, Ground)
    ensures forall n: nat | n <= k :: Feed(s, payload[..n]).core.parser.mode != Ground
  {
    hide Step, Feed;
    forall n: nat | n <= k ensures Feed(s, payload[..n]).core.parser.mode != Ground {
      forall i: nat | i < n ensures !EndsCommand(payload[..n], i) {
        assert EndsCommand(payload[..n], i) == EndsCommand(payload, i);
      }
      CommandIsIgnored(s, payload[..n]);
    }
    forall i: nat | i < k ensures !EndsCommand(payload[..k], i) {
      assert EndsCommand(payload[..k], i) == EndsCommand(payload, i);
    }
    CommandIsIgnored(s, payload[..k]);
    assert payload[..k + 1] == payload[..k] + [payload[k]];
    FeedLast(s, payload[..k], payload[k]);
    TerminatorIsRead(s, k > 0 && payload[k - 1] == ESC);
  }

  lemma TerminatorIsRead(s: State, escaped: bool)
    requires s.Valid() && s.core.parser.mode == Osc
    ensures Step(WithMode(s, if escaped then OscEscape else Osc), if escaped then BACKSLASH else BEL) == WithMode(s, Ground)
  {
  }

  // ---------- Control sequences ----------

  /** A parameter as it is written: nothing for an empty one, decimal digits otherwise. */
  function ParameterText(value: int): (text: seq<byte>)
    requires -1 <= value
    ensures forall i | 0 <= i < |text| :: 0x30 <= text[i] <= 0x39
  {
    if value < 0 then [] else Decimal(value)
  }

  predicate Writable(values: seq<int>) {
    1 <= |values| <= 16 && forall i | 0 <= i < |values| :: -1 <= values[i] <= 9999999
  }

  /** Parameters separated by ';'. */
  function ParametersText(values: seq<int>): (text: seq<byte>)
    requires |values| >= 1 && forall i | 0 <= i < |values| :: -1 <= values[i]
    ensures forall i | 0 <= i < |text| :: 0x30 <= text[i] <= 0x3b
  {
    var last := ParameterText(values[|values| - 1]);
    if |values| == 1 then last else ParametersText(values[..|values| - 1]) + [0x3b] + last
  }

  function CollectedAll(p: Parser, text: seq<byte>): (q: Parser)
    requires p.Valid() && p.mode == Csi
    ensures q.Valid() && q.mode == Csi
  {
    if text == [] then p else Collected(CollectedAll(p, text[..|text| - 1]), text[|text| - 1])
  }

  lemma {:induction false} CollectedTwice(p: Parser, a: seq<byte>, b: seq<byte>)
    requires p.Valid() && p.mode == Csi
    ensures CollectedAll(CollectedAll(p, a), b) == CollectedAll(p, a + b)
    decreases |b|
  {
    if b == [] {
      assert a + b == a;
    } else {
      CollectedTwice(p, a, b[..|b| - 1]);
      assert (a + b)[..|a + b| - 1] == a + b[..|b| - 1];
    }
  }

  lemma DigitIsRead(p: Parser, digit: nat)
    requires p.Valid() && p.mode == Csi && digit <= 9
    requires p.parameters[p.count - 1] < 1000000
    ensures Collected(p, 0x30 + digit)
         == p.(parameters := p.parameters[p.count - 1 := Max(p.parameters[p.count - 1], 0) * 10 + digit])
  {
  }

  /** Digits written for a number are read back as that number. */
  lemma {:induction false} DigitsAreRead(p: Parser, n: nat)
    requires p.Valid() && p.mode == Csi && p.parameters[p.count - 1] == -1 && n <= MAX_PARAMETER
    ensures CollectedAll(p, Decimal(n)) == p.(parameters := p.parameters[p.count - 1 := n])
    decreases n
  {
    hide Collected;
    var last := p.count - 1;
    if n < 10 {
      assert Decimal(n) == [0x30 + n] && Decimal(n)[..0] == [];
      DigitIsRead(p, n);
    } else {
      var q := p.(parameters := p.parameters[last := n / 10]);
      DigitsAreRead(p, n / 10);
      DigitIsRead(q, n % 10);
      assert Decimal(n) == Decimal(n / 10) + [0x30 + n % 10];
      assert Decimal(n)[..|Decimal(n)| - 1] == Decimal(n / 10);
      assert q.parameters[last := n] == p.parameters[last := n];
    }
  }

  /** A parameter list as a parser that has read it holds it. */
  function WithParameters(p: Parser, values: seq<int>): Parser
    requires p.Valid() && |values| <= TERMINAL_MAX_PARAMS
  {
    p.(parameters := values + p.parameters[|values|..], count := |values|)
  }

  lemma NextParameterIsRead(p: Parser, text: seq<byte>, front: seq<int>, last: int)
    requires p.Valid() && p.mode == Csi && 1 <= |front| < TERMINAL_MAX_PARAMS && -1 <= last <= MAX_PARAMETER
    requires CollectedAll(p, text) == WithParameters(p, front)
    ensures CollectedAll(p, text + [0x3b] + ParameterText(last)) == WithParameters(p, front + [last])
  {
    hide Collected, CollectedAll, ParameterText;
    var k := |front|;
    var q := CollectedAll(p, text);
    var separated := q.(parameters := q.parameters[k := -1], count := k + 1);
    CollectedTwice(p, text, [0x3b]);
    SeparatorOpens(q);
    CollectedTwice(p, text + [0x3b], ParameterText(last));
    ParameterIsRead(separated, last);
    assert q.parameters[k := -1][k := last] == front + [last] + p.parameters[k + 1..];
  }

  /** A written list of up to sixteen parameters is read back exactly, empty ones included. */
  lemma {:induction false} ParametersAreRead(p: Parser, values: seq<int>)
    requires p.Valid() && p.mode == Csi && p.count == 1 && p.parameters[0] == -1
    requires Writable(values)
    ensures CollectedAll(p, ParametersText(values)) == WithParameters(p, values)
    decreases |values|
  {
    hide Collected, CollectedAll, ParameterText;
    var k := |values| - 1;
    if k == 0 {
      ParameterIsRead(p, values[0]);
      assert p.parameters[0 := values[0]] == values + p.parameters[1..];
    } else {
      ParametersAreRead(p, values[..k]);
      NextParameterIsRead(p, ParametersText(values[..k]), values[..k], values[k]);
      assert values[..k] + [values[k]] == values;
    }
  }

  lemma SeparatorOpens(q: Parser)
    requires q.Valid() && q.mode == Csi && q.count < TERMINAL_MAX_PARAMS
    ensures CollectedAll(q, [0x3b]) == q.(parameters := q.parameters[q.count := -1], count := q.count + 1)
  {
    assert [0x3b][..0] == [];
  }

  lemma ParameterIsRead(p: Parser, value: int)
    requires p.Valid() && p.mode == Csi && p.parameters[p.count - 1] == -1 && -1 <= value <= MAX_PARAMETER
    ensures CollectedAll(p, ParameterText(value)) == p.(parameters := p.parameters[p.count - 1 := value])
  {
    if value < 0 {
      assert p.parameters[p.count - 1 := value] == p.parameters;
    } else {
      DigitsAreRead(p, value);
    }
  }

  /** Inside a control sequence, bytes below '@' other than ESC only reach the parameter list. */
  lemma {:induction false} FeedCollects(s: State, text: seq<byte>)
    requires s.Valid() && s.core.parser.mode == Csi
    requires forall i | 0 <= i < |text| :: text[i] < 0x40 && text[i] != ESC
    ensures Feed(s, text) == WithParser(s, CollectedAll(s.core.parser, text))
    decreases |text|
  {
    hide Collected, HandleCsi;
    if text == [] {
      FeedNothing(s);
    } else {
      FeedCollects(s, text[..|text| - 1]);
    }
  }

  /** A control sequence as it is written. */
  function ControlSequence(private: bool, values: seq<int>, final: byte): seq<byte>
    requires Writable(values)
  {
    [ESC, 0x5b] + SequenceBody(private, values) + [final]
  }

  /** The state a control sequence is carried out in: exactly the written parameters, the
      private mark and nothing left over from before. */
  function Dispatched(s: State, private: bool, values: seq<int>): (t: State)
    requires s.Valid() && Writable(values)
    ensures t.Valid()
  {
    WithParser(s, Parser(Csi, values + Repeat(TERMINAL_MAX_PARAMS - |values|, -1), |values|, private, 0, s.core.parser.codePoint))
  }

  lemma IntroducerStartsAfresh(s: State)
    requires s.Valid() && s.core.parser.mode != Osc && s.core.parser.mode != OscEscape
    ensures Feed(s, [ESC, 0x5b])
         == WithParser(s, Parser(Csi, NO_PARAMETERS, 1, false, 0, s.core.parser.codePoint))
  {
    hide HandleGroundByte, HandleCsi;
    FeedOne(s, ESC);
    assert [ESC, 0x5b][..1] == [ESC];
    assert Feed(s, [ESC, 0x5b]) == Step(Step(s, ESC), 0x5b);
  }

  lemma FeedLast(s: State, data: seq<byte>, b: byte)
    requires s.Valid()
    ensures Feed(s, data + [b]) == Step(Feed(s, data), b)
  {
    hide Step;
    assert (data + [b])[..|data + [b]| - 1] == data;
  }

  /** The text between introducer and final byte. */
  function SequenceBody(private: bool, values: seq<int>): (body: seq<byte>)
    requires Writable(values)
    ensures forall i | 0 <= i < |body| :: 0x30 <= body[i] <= 0x3f
  {
    (if private then [0x3f] else []) + ParametersText(values)
  }

  lemma BodyIsRead(clean: Parser, private: bool, values: seq<int>)
    requires clean.Valid() && Writable(values)
    requires clean == Parser(Csi, NO_PARAMETERS, 1, false, 0, clean.codePoint)
    ensures CollectedAll(clean, SequenceBody(private, values))
         == Parser(Csi, values + Repeat(TERMINAL_MAX_PARAMS - |values|, -1), |values|, private, 0, clean.codePoint)
  {
    hide Collected, CollectedAll, ParametersText;
    var mark: seq<byte> := if private then [0x3f] else [];
    MarkIsRead(clean, private);
    CollectedTwice(clean, mark, ParametersText(values));
    ParametersAreRead(clean.(private := private), values);
    assert NO_PARAMETERS[|values|..] == Repeat(TERMINAL_MAX_PARAMS - |values|, -1);
  }

  lemma BodyIsFed(s: State, private: bool, values: seq<int>)
    requires s.Valid() && s.core.parser.mode != Osc && s.core.parser.mode != OscEscape
    requires Writable(values)
    ensures Feed(s, [ESC, 0x5b] + SequenceBody(private, values)) == Dispatched(s, private, values)
  {
    hide Feed, CollectedAll, SequenceBody;
    var clean := Parser(Csi, NO_PARAMETERS, 1, false, 0, s.core.parser.codePoint);
    IntroducerStartsAfresh(s);
    FeedTwice(s, [ESC, 0x5b], SequenceBody(private, values));
    FeedCollects(WithParser(s, clean), SequenceBody(private, values));
    BodyIsRead(clean, private, values);
  }

  /** Whatever was fed before (outside an operating-system command), a written control
      sequence is carried out with exactly the parameters that were written. */
  lemma ControlSequenceIsRead(s: State, private: bool, values: seq<int>, final: byte)
    requires s.Valid() && s.core.parser.mode != Osc && s.core.parser.mode != OscEscape
    requires Writable(values) && 0x40 <= final <= 0x7e
    ensures Feed(s, ControlSequence(private, values, final))
         == WithMode(HandleCsi(Dispatched(s, private, values), final), Ground)
  {
    hide HandleCsi, Feed, SequenceBody;
    BodyIsFed(s, private, values);
    FeedLast(s, [ESC, 0x5b] + SequenceBody(private, values), final);
  }

  lemma MarkIsRead(clean: Parser, private: bool)
    requires clean.Valid() && clean.mode == Csi && clean.count == 1 && clean.parameters[0] == -1 && !clean.private
    ensures CollectedAll(clean, if private then [0x3f] else []) == clean.(private := private)
  {
    assert [0x3f][..0] == [];
  }

  // ---------- The cursor report ----------

  /** ESC [ 6 n queues the report of the cursor's place, when there is room for it. */
  lemma ReportIsQueued(s: State)
    requires s.Valid() && s.core.parser.mode != Osc && s.core.parser.mode != OscEscape
    requires |s.replies| + |CursorReport(s.core.cursor.row, s.core.cursor.column)| <= 128
    ensures Feed(s, ControlSequence(false, [6], 0x6e)).replies
         == s.replies + CursorReport(s.core.cursor.row, s.core.cursor.column)
  {
    hide CursorReport, Feed, ControlSequence, HandleCsi;
    ControlSequenceIsRead(s, false, [6], 0x6e);
    ReportIsCarriedOut(Dispatched(s, false, [6]));
  }

  lemma ReportIsCarriedOut(d: State)
    requires d.Valid() && d.core.parser.parameters[0] == 6
    requires |d.replies| + |CursorReport(d.core.cursor.row, d.core.cursor.column)| <= 128
    ensures HandleCsi(d, 0x6e).replies == d.replies + CursorReport(d.core.cursor.row, d.core.cursor.column)
  {
    hide CursorReport;
    var report := CursorReport(d.core.cursor.row, d.core.cursor.column);
    assert report[..|report|] == report;
  }

  /** A report with its final R turned into H, sent to a terminal of the same size in any
      state outside an operating-system command, puts the cursor where the report was made
      and changes nothing else on the screen. */
  lemma ReportSentBackRestoresTheCursor(s: State, t: State)
    requires s.Valid() && t.Valid() && t.core.rows == s.core.rows && t.core.columns == s.core.columns
    requires t.core.parser.mode != Osc && t.core.parser.mode != OscEscape
    ensures var report := CursorReport(s.core.cursor.row, s.core.cursor.column);
            var u := Feed(t, report[..|report| - 1] + [0x48]);
            && u.core == t.core.(cursor := Cursor(s.core.cursor.row, s.core.cursor.column, false), parser := u.core.parser)
            && u.display == t.display && u.replies == t.replies && u.core.parser.mode == Ground
  {
    hide CursorReport, Feed, ControlSequence, HandleCsi;
    var row, column := s.core.cursor.row, s.core.cursor.column;
    var report := CursorReport(row, column);
    var values := [row + 1, column + 1];
    ReportIsASequence(row, column);
    ControlSequenceIsRead(t, false, values, 0x48);
    PositionIsCarriedOut(Dispatched(t, false, values), row, column);
  }

  lemma ReportIsASequence(row: nat, column: nat)
    requires row < MAX_PARAMETER && column < MAX_PARAMETER
    ensures var report := CursorReport(row, column);
            report[..|report| - 1] + [0x48] == ControlSequence(false, [row + 1, column + 1], 0x48)
  {
    hide Decimal;
    var values := [row + 1, column + 1];
    assert values[..1] == [row + 1];
    assert ParametersText(values[..1]) == Decimal(row + 1);
    assert ParametersText(values) == Decimal(row + 1) + [0x3b] + Decimal(column + 1);
    assert CursorReport(row, column) == [ESC, 0x5b] + ParametersText(values) + [0x52];
  }

  /** ESC [ row ; column H moves the cursor there, counting from 1. */
  lemma PositionIsCarriedOut(d: State, row: nat, column: nat)
    requires d.Valid() && row < d.core.rows && column < d.core.columns
    requires d.core.parser.count == 2 && d.core.parser.parameters[..2] == [row + 1, column + 1]
    ensures HandleCsi(d, 0x48) == d.(core := d.core.(cursor := Cursor(row, column, false)))
  {
    var p := d.core.parser;
    assert p.parameters[0] == p.parameters[..2][0] && p.parameters[1] == p.parameters[..2][1];
  }

  // ---------- UTF-8 ----------

  /** Characters a key can send and the terminal shows as they are. */
  predicate Typable(character: char16) {
    0x20 <= character <= 0x7e || 0x80 <= character < 0xd800 || 0xe000 <= character
  }

  /** The bytes a character key sends (section 3 of RFC 3629, up to three bytes). */
  function Utf8(character: char16): seq<byte> {
    if character < 0x80 then [character]
    else if character < 0x800 then [0xc0 + character / 0x40, 0x80 + character % 0x40]
    else [0xe0 + character / 0x1000, 0x80 + character / 0x40 % 0x40, 0x80 + character % 0x40]
  }

  function Utf8All(text: seq<char16>): seq<byte> {
    if text == [] then [] else Utf8All(text[..|text| - 1]) + Utf8(text[|text| - 1])
  }

  predicate AllTypable(text: seq<char16>) {
    forall i | 0 <= i < |text| :: Typable(text[i])
  }

  function PutAll(s: State, text: seq<char16>): (t: State)
    requires s.Valid() && AllTypable(text)
    ensures t.Valid() && SameFrame(s, t)
  {
    if text == [] then s
    else PutCharacter(PutAll(s, text[..|text| - 1]), text[|text| - 1])
  }

  /** The parser's leftover after a text: the last code point that took more than one byte. */
  function LeftOver(codePoint: nat, text: seq<char16>): (k: nat)
    requires codePoint < 0x20_0000
    ensures k < 0x20_0000
  {
    if text == [] then codePoint
    else if text[|text| - 1] >= 0x80 then text[|text| - 1]
    else LeftOver(codePoint, text[..|text| - 1])
  }

  lemma ScrollIgnoresParser(s: State, p: Parser)
    requires s.Valid() && p.Valid()
    ensures ScrollUp(WithParser(s, p), 1) == WithParser(ScrollUp(s, 1), p)
  {
  }

  lemma IndexDownIgnoresParser(s: State, p: Parser)
    requires s.Valid() && p.Valid()
    ensures IndexDown(WithParser(s, p)) == WithParser(IndexDown(s), p)
  {
    hide ScrollUp;
    ScrollIgnoresParser(NoWrap(s), p);
  }

  lemma StoreIgnoresParser(s: State, character: char16, p: Parser)
    requires s.Valid() && p.Valid() && character != 0
    ensures CharacterStored(WithParser(s, p), character) == WithParser(CharacterStored(s, character), p)
  {
  }

  lemma PutIgnoresParser(s: State, character: char16, p: Parser)
    requires s.Valid() && p.Valid() && character != 0
    ensures PutCharacter(WithParser(s, p), character) == WithParser(PutCharacter(s, character), p)
  {
    hide IndexDown, CharacterStored;
    var home := MoveTo(s, s.core.cursor.row, 0);
    IndexDownIgnoresParser(home, p);
    StoreIgnoresParser(s, character, p);
    StoreIgnoresParser(IndexDown(home), character, p);
  }

  predicate AtRest(s: State) {
    s.core.parser.mode == Ground && s.core.parser.remaining == 0
  }

  function WithCodePoint(s: State, codePoint: nat): (t: State)
    requires s.Valid() && AtRest(s) && codePoint < 0x20_0000
    ensures t.Valid()
  {
    WithParser(s, s.core.parser.(codePoint := codePoint))
  }

  predicate Partial(remaining: nat, codePoint: nat) {
    remaining <= 3 && codePoint < (if remaining == 0 then 0x20_0000 else if remaining == 1 then 0x8000
                                   else if remaining == 2 then 0x200 else 8)
  }

  /** A state at rest, but with so many bytes of a character still to come. */
  function Awaiting(s: State, remaining: nat, codePoint: nat): (t: State)
    requires s.Valid() && AtRest(s) && Partial(remaining, codePoint)
    ensures t.Valid() && t.core.parser.mode == Ground
  {
    WithParser(s, s.core.parser.(remaining := remaining, codePoint := codePoint))
  }

  /** A byte that opens a sequence of two or three bytes. */
  lemma LeadIsRead(s: State, remaining: nat, bits: nat)
    requires s.Valid() && AtRest(s) && 1 <= remaining <= 2 && bits < (if remaining == 1 then 0x20 else 0x10)
    ensures Step(s, (if remaining == 1 then 0xc0 else 0xe0) + bits) == Awaiting(s, remaining, bits)
  {
    hide PutCharacter, IndexDown, HandleEscapeByte, HandleCsi;
  }

  /** A continuation byte adds six bits, and the last one puts the character. */
  lemma ContinuationIsRead(s: State, remaining: nat, codePoint: nat, bits: nat)
    requires s.Valid() && AtRest(s) && remaining >= 1 && Partial(remaining, codePoint) && bits < 0x40
    ensures var k := codePoint * 0x40 + bits;
            Partial(remaining - 1, k) &&
            Step(Awaiting(s, remaining, codePoint), 0x80 + bits)
            == if remaining == 1 then EmitCodePoint(WithCodePoint(s, k), k) else Awaiting(s, remaining - 1, k)
  {
    hide PutCharacter, IndexDown, HandleEscapeByte, HandleCsi, HandleFirstByte;
    var b := 0x80 + bits;
    assert b / 0x40 == 2 && b % 0x40 == bits;
  }

  lemma PairIsRead(s: State, high: nat, low: nat)
    requires s.Valid() && AtRest(s) && high < 0x20 && low < 0x40
    ensures var codePoint := high * 0x40 + low;
            Feed(s, [0xc0 + high, 0x80 + low]) == EmitCodePoint(WithCodePoint(s, codePoint), codePoint)
  {
    hide EmitCodePoint, Step, Feed, Awaiting, WithCodePoint, Core.Valid, Display.Valid;
    var lead, last: byte, codePoint := 0xc0 + high, 0x80 + low, high * 0x40 + low;
    LeadIsRead(s, 1, high);
    assert Step(s, lead) == Awaiting(s, 1, high);
    ContinuationIsRead(s, 1, high, low);
    assert Step(Awaiting(s, 1, high), last) == EmitCodePoint(WithCodePoint(s, codePoint), codePoint);
    TwoBytesFed(s, lead, last);
  }

  lemma TripleIsRead(s: State, high: nat, middle: nat, low: nat)
    requires s.Valid() && AtRest(s) && high < 0x10 && middle < 0x40 && low < 0x40
    ensures var codePoint := (high * 0x40 + middle) * 0x40 + low;
            Feed(s, [0xe0 + high, 0x80 + middle, 0x80 + low]) == EmitCodePoint(WithCodePoint(s, codePoint), codePoint)
  {
    hide EmitCodePoint, Step, Feed, Awaiting, WithCodePoint;
    LeadIsRead(s, 2, high);
    ContinuationIsRead(s, 2, high, middle);
    ContinuationIsRead(s, 1, high * 0x40 + middle, low);
    ThreeBytes(s, 0xe0 + high, 0x80 + middle, 0x80 + low);
  }

  lemma BitsOf(character: char16) returns (high: nat, middle: nat, low: nat)
    requires 0x80 <= character
    ensures high < 0x10 && middle < 0x40 && low < 0x40 && character == (high * 0x40 + middle) * 0x40 + low
    ensures character < 0x800 ==> high == 0 && middle < 0x20 && Utf8(character) == [0xc0 + middle, 0x80 + low]
    ensures character >= 0x800 ==> Utf8(character) == [0xe0 + high, 0x80 + middle, 0x80 + low]
  {
    high, middle, low := character / 0x1000, character / 0x40 % 0x40, character % 0x40;
  }

  lemma EmittedIsPut(s: State, character: char16)
    requires s.Valid() && AtRest(s) && Typable(character)
    ensures EmitCodePoint(WithCodePoint(s, character), character) == WithCodePoint(PutCharacter(s, character), character)
  {
    hide PutCharacter;
    PutIgnoresParser(s, character, s.core.parser.(codePoint := character));
  }

  lemma LongerCharacterIsDecoded(s: State, character: char16)
    requires s.Valid() && AtRest(s) && Typable(character) && 0x80 <= character
    ensures Feed(s, Utf8(character)) == WithCodePoint(PutCharacter(s, character), character)
  {
    hide EmitCodePoint, PutCharacter, Feed, WithCodePoint, Utf8, Core.Valid;
    EmittedIsPut(s, character);
    var high, middle, low := BitsOf(character);
    if character < 0x800 {
      PairIsRead(s, middle, low);
    } else {
      TripleIsRead(s, high, middle, low);
    }
  }

  lemma AsciiIsPut(s: State, character: char16)
    requires s.Valid() && AtRest(s) && 0x20 <= character <= 0x7e
    ensures Feed(s, Utf8(character)) == PutCharacter(s, character)
  {
    hide PutCharacter, IndexDown, HandleEscapeByte, HandleCsi, Feed;
    FeedOne(s, character);
  }

  /** The bytes of one character put exactly that character. */
  lemma CharacterIsDecoded(s: State, character: char16)
    requires s.Valid() && AtRest(s) && Typable(character)
    ensures Feed(s, Utf8(character))
         == WithCodePoint(PutCharacter(s, character), LeftOver(s.core.parser.codePoint, [character]))
  {
    hide PutCharacter, Feed, Utf8;
    if character < 0x80 {
      AsciiIsPut(s, character);
    } else {
      LongerCharacterIsDecoded(s, character);
    }
  }

  /** Decoding what the keyboard encoded puts exactly the typed characters, in order. */
  lemma {:induction false} TypedTextIsShown(s: State, text: seq<char16>)
    requires s.Valid() && AtRest(s) && AllTypable(text)
    ensures Feed(s, Utf8All(text)) == WithCodePoint(PutAll(s, text), LeftOver(s.core.parser.codePoint, text))
    decreases |text|
  {
    hide Feed, Utf8, PutCharacter;
    if text == [] {
      FeedNothing(s);
    } else {
      var front, last := text[..|text| - 1], text[|text| - 1];
      var before := PutAll(s, front);
      var k := LeftOver(s.core.parser.codePoint, front);
      TypedTextIsShown(s, front);
      FeedTwice(s, Utf8All(front), Utf8(last));
      CharacterIsDecoded(WithCodePoint(before, k), last);
      PutIgnoresParser(before, last, before.core.parser.(codePoint := k));
    }
  }
}
