/** The keyboard: strokes wait in the console's queue, and every call takes the oldest one off it,
    whether its bytes then fit the caller's buffer or not. */
module Keyboard {
  import opened Basics
  import opened TerminalState
  import opened TerminalParsing
  import opened TerminalEmulator
  import opened TerminalCommands
  import TerminalPlaces

  const GROUP_SEPARATOR: char16 := 0x1d
  const BACKSPACE: char16 := 0x08
  const DELETE: byte := 0x7f

  /** The scan codes that have an escape sequence; every other one counts as none. */
  datatype Scan =
    | NoScan | ArrowUp | ArrowDown | ArrowRight | ArrowLeft | Home | End
    | Insert | Delete | PageUp | PageDown | F1 | F2 | F3 | F4 | F5 | F6 | F7 | F8 | F9 | F10

  /** A key stroke; its character is 0 for a key that has none. */
  datatype Key = Key(character: char16, scan: Scan)

  datatype Outcome = Sent(bytes: seq<byte>) | LeaveSession | NotReady | BufferTooSmall(required: nat)

  function Escaped(text: string): (bytes: seq<byte>)
    requires forall i | 0 <= i < |text| :: text[i] < 128 as char
    ensures |bytes| == |text| + 1
  {
    [ESC] + seq(|text|, i requires 0 <= i < |text| => text[i] as int)
  }

  function Sequence(scan: Scan, applicationCursor: bool): (bytes: seq<byte>)
    ensures bytes == [] <==> scan == NoScan
  {
    match scan
    case NoScan => []
    case ArrowUp => Escaped(if applicationCursor then "OA" else "[A")
    case ArrowDown => Escaped(if applicationCursor then "OB" else "[B")
    case ArrowRight => Escaped(if applicationCursor then "OC" else "[C")
    case ArrowLeft => Escaped(if applicationCursor then "OD" else "[D")
    case Home => Escaped(if applicationCursor then "OH" else "[H")
    case End => Escaped(if applicationCursor then "OF" else "[F")
    case Insert => Escaped("[2~")
    case Delete => Escaped("[3~")
    case PageUp => Escaped("[5~")
    case PageDown => Escaped("[6~")
    case F1 => Escaped("OP")
    case F2 => Escaped("OQ")
    case F3 => Escaped("OR")
    case F4 => Escaped("OS")
    case F5 => Escaped("[15~")
    case F6 => Escaped("[17~")
    case F7 => Escaped("[18~")
    case F8 => Escaped("[19~")
    case F9 => Escaped("[20~")
    case F10 => Escaped("[21~")
  }

  /** The bytes a key stands for. */
  function KeyBytes(key: Key, applicationCursor: bool): seq<byte> {
    if key.scan != NoScan then Sequence(key.scan, applicationCursor)
    else if key.character == BACKSPACE then [DELETE]
    else Utf8(key.character)
  }

  /** A key meant for the remote side: not the local exit, and not a stroke without any meaning. */
  predicate Speaks(key: Key) {
    key.character != GROUP_SEPARATOR && !(key.scan == NoScan && key.character == 0)
  }

  /** The answer for a stroke; a buffer with no room at all is asked to hold one byte, however
      long the character is. */
  function Answer(key: Key, applicationCursor: bool, capacity: nat): Outcome {
    if key.character == GROUP_SEPARATOR then LeaveSession
    else if key.scan == NoScan && key.character == 0 then NotReady
    else if key.scan == NoScan && capacity == 0 then BufferTooSmall(1)
    else if capacity < |KeyBytes(key, applicationCursor)| then BufferTooSmall(|KeyBytes(key, applicationCursor)|)
    else Sent(KeyBytes(key, applicationCursor))
  }

  // ---------- The keyboard as it runs ----------

  /** The firmware's input: strokes nobody has read yet, oldest first. */
  class ConsoleInput {
    var strokes: seq<Key>

    constructor ()
      ensures strokes == []
    {
      strokes := [];
    }

    method Press(key: Key)
      modifies this
      ensures strokes == old(strokes) + [key]
    {
      strokes := strokes + [key];
    }

    method ReadKeyStroke() returns (key: Option<Key>)
      modifies this
      ensures if old(strokes) == [] then key.None? && strokes == []
              else key == Some(old(strokes)[0]) && strokes == old(strokes)[1..]
    {
      if strokes == [] {
        return None;
      }
      key := Some(strokes[0]);
      strokes := strokes[1..];
    }
  }

  /** Reads a stroke. It is gone from the queue after every answer, too small a buffer included;
      nothing is stored unless all of its bytes fit. */
  method ReadKey(input: ConsoleInput, applicationCursor: bool, buffer: array<byte>, capacity: nat)
    returns (outcome: Outcome)
    requires capacity <= buffer.Length
    modifies input, buffer
    ensures input.strokes == if old(input.strokes) == [] then [] else old(input.strokes)[1..]
    ensures outcome == if old(input.strokes) == [] then NotReady
                       else Answer(old(input.strokes)[0], applicationCursor, capacity)
    ensures outcome.Sent? ==> buffer[..] == outcome.bytes + old(buffer[|outcome.bytes|..])
    ensures !outcome.Sent? ==> buffer[..] == old(buffer[..])
  {
    hide Escaped;
    var stroke := input.ReadKeyStroke();
    if stroke.None? {
      return NotReady;
    }
    var key := stroke.value;
    if key.character == GROUP_SEPARATOR {
      return LeaveSession;
    }
    if key.scan != NoScan {
      outcome := CopyKeySequence(buffer, capacity, Sequence(key.scan, applicationCursor));
    } else if key.character == 0 {
      return NotReady;
    } else {
      outcome := CopyCharacter(buffer, capacity, key.character);
    }
  }

  method CopyKeySequence(buffer: array<byte>, capacity: nat, sequence: seq<byte>) returns (outcome: Outcome)
    requires capacity <= buffer.Length
    modifies buffer
    ensures outcome == if capacity < |sequence| then BufferTooSmall(|sequence|) else Sent(sequence)
    ensures buffer[..] == if outcome.Sent? then sequence + old(buffer[|sequence|..]) else old(buffer[..])
  {
    if capacity < |sequence| {
      return BufferTooSmall(|sequence|);
    }
    StoreBytes(buffer, 0, sequence);
    return Sent(sequence);
  }

  method CopyCharacter(buffer: array<byte>, capacity: nat, character: char16) returns (outcome: Outcome)
    requires capacity <= buffer.Length && character != GROUP_SEPARATOR && character != 0
    modifies buffer
    ensures outcome == Answer(Key(character, NoScan), false, capacity)
    ensures outcome.Sent? ==> buffer[..] == outcome.bytes + old(buffer[|outcome.bytes|..])
    ensures !outcome.Sent? ==> buffer[..] == old(buffer[..])
  {
    if capacity < 1 {
      return BufferTooSmall(1);
    }
    if character == BACKSPACE {
      buffer[0] := DELETE;
      outcome := Sent([DELETE]);
    } else if character < 0x80 {
      buffer[0] := character;
      outcome := Sent([character]);
    } else if character < 0x800 {
      if capacity < 2 {
        return BufferTooSmall(2);
      }
      buffer[0] := 0xc0 + character / 0x40;
      buffer[1] := 0x80 + character % 0x40;
      outcome := Sent(Utf8(character));
    } else {
      if capacity < 3 {
        return BufferTooSmall(3);
      }
      StoreBytes(buffer, 0, Utf8(character));
      outcome := Sent(Utf8(character));
    }
  }

  // ---------- Runs ----------

  datatype Event = Press(key: Key) | Read(applicationCursor: bool, capacity: nat)

  /** A call that took a stroke. */
  datatype Taken = Taken(key: Key, applicationCursor: bool, capacity: nat)

  /** The queue, every stroke ever pressed, the calls that took one, what they stored for the
      remote side, and whether the session was left. */
  datatype World = World(queue: seq<Key>, pressed: seq<Key>, taken: seq<Taken>, sent: seq<byte>, left: bool)

  /** Once the session was left nobody reads. */
  function Next(w: World, e: Event): World {
    match e
    case Press(key) => w.(queue := w.queue + [key], pressed := w.pressed + [key])
    case Read(applicationCursor, capacity) =>
      if w.left || w.queue == [] then w
      else
        var answer := Answer(w.queue[0], applicationCursor, capacity);
        World(w.queue[1..], w.pressed, w.taken + [Taken(w.queue[0], applicationCursor, capacity)],
              w.sent + (if answer.Sent? then answer.bytes else []), answer.LeaveSession?)
  }

  function After(events: seq<Event>): World {
    if events == [] then World([], [], [], [], false)
    else Next(After(events[..|events| - 1]), events[|events| - 1])
  }

  /** A stroke reaches the remote side: it means something there, and the call that took it had
      room for all of its bytes. */
  predicate Reaches(t: Taken) {
    Speaks(t.key) && |KeyBytes(t.key, t.applicationCursor)| <= t.capacity
  }

  function Keys(taken: seq<Taken>): seq<Key> {
    seq(|taken|, i requires 0 <= i < |taken| => taken[i].key)
  }

  /** The bytes of the strokes that reach the remote side, in order. */
  function Delivered(taken: seq<Taken>): seq<byte> {
    if taken == [] then []
    else
      var t := taken[|taken| - 1];
      Delivered(taken[..|taken| - 1]) + (if Reaches(t) then KeyBytes(t.key, t.applicationCursor) else [])
  }

  /** A stroke's bytes are stored exactly when it reaches the remote side; asked for too little
      room, a caller is told more than it offered but never more than the key needs. */
  lemma AnswersMean(key: Key, applicationCursor: bool, capacity: nat)
    ensures var answer, bytes := Answer(key, applicationCursor, capacity), KeyBytes(key, applicationCursor);
            && (answer.Sent? <==> Reaches(Taken(key, applicationCursor, capacity)))
            && (answer.Sent? ==> answer.bytes == bytes)
            && (answer.LeaveSession? <==> key.character == 0x1d)
            && (key == Key(0x08, NoScan) ==> bytes == [0x7f])
            && (answer.BufferTooSmall? ==> capacity < answer.required <= |bytes|)
            && (answer.BufferTooSmall? && answer.required < |bytes| <==>
                  Speaks(key) && key.scan == NoScan && key.character >= 0x80 && capacity == 0)
  {
  }

  /** Over every run of presses and reads with any capacities: each stroke is taken by one call,
      in the order pressed; what was sent is the bytes of exactly those that fitted the call that
      took them; and the session is left by its first local exit, after which nothing is taken. */
  lemma {:induction false} EveryRunSendsWhatFits(events: seq<Event>)
    ensures var w := After(events);
            && Keys(w.taken) + w.queue == w.pressed
            && w.sent == Delivered(w.taken)
            && (w.left <==> exists i :: 0 <= i < |w.taken| && w.taken[i].key.character == GROUP_SEPARATOR)
            && forall i | 0 <= i < |w.taken| - 1 :: w.taken[i].key.character != GROUP_SEPARATOR
    decreases |events|
  {
    hide Answer, KeyBytes, Reaches;
    if events != [] {
      var w, e := After(events[..|events| - 1]), events[|events| - 1];
      EveryRunSendsWhatFits(events[..|events| - 1]);
      if e.Read? && !w.left && w.queue != [] {
        var t := Taken(w.queue[0], e.applicationCursor, e.capacity);
        AnswersMean(t.key, e.applicationCursor, e.capacity);
        assert (w.taken + [t])[..|w.taken|] == w.taken;
        assert Keys(w.taken + [t]) == Keys(w.taken) + [w.queue[0]];
        assert Keys(w.taken) + w.queue == Keys(w.taken) + [w.queue[0]] + w.queue[1..];
      }
    }
  }

  // ---------- Which buffers lose nothing ----------

  const LONGEST_KEY: nat := 5

  lemma KeysAreShort(key: Key, applicationCursor: bool)
    ensures 1 <= |KeyBytes(key, applicationCursor)| <= LONGEST_KEY
  {
  }

  /** A buffer never loses a stroke exactly when it holds the longest sequence; the session's
      sixteen bytes do. */
  lemma BufferLosesNothingExactly(capacity: nat)
    ensures (forall key: Key, applicationCursor: bool | Speaks(key) :: Reaches(Taken(key, applicationCursor, capacity)))
       <==> capacity >= LONGEST_KEY
  {
    hide KeyBytes;
    forall key: Key, applicationCursor: bool ensures 1 <= |KeyBytes(key, applicationCursor)| <= LONGEST_KEY {
      KeysAreShort(key, applicationCursor);
    }
    LongestKey();
    assert Speaks(Key(0, F5));
    assert capacity < LONGEST_KEY ==> !Reaches(Taken(Key(0, F5), false, capacity));
  }

  lemma LongestKey()
    ensures |KeyBytes(Key(0, F5), false)| == LONGEST_KEY
  {
  }

  /** Typing text into buffers of at least three bytes sends exactly its encoding. */
  lemma {:induction false} TypingSendsTheText(text: seq<char16>, taken: seq<Taken>)
    requires AllTypable(text) && |taken| == |text|
    requires forall i | 0 <= i < |text| :: taken[i].key == Key(text[i], NoScan) && taken[i].capacity >= 3
    ensures Delivered(taken) == Utf8All(text)
    decreases |text|
  {
    if text != [] {
      TypingSendsTheText(text[..|text| - 1], taken[..|taken| - 1]);
    }
  }

  /** Text typed here and echoed by the remote side shows as exactly the typed characters, in order. */
  lemma EchoedKeysAreShown(s: State, text: seq<char16>, taken: seq<Taken>)
    requires s.Valid() && AtRest(s) && AllTypable(text) && |taken| == |text|
    requires forall i | 0 <= i < |text| :: taken[i].key == Key(text[i], NoScan) && taken[i].capacity >= 3
    ensures Feed(s, Delivered(taken))
         == WithCodePoint(PutAll(s, text), LeftOver(s.core.parser.codePoint, text))
  {
    hide Feed, Delivered, Utf8All;
    TypingSendsTheText(text, taken);
    TypedTextIsShown(s, text);
  }

  // ---------- The escape sequences ----------

  /** No two keys that have a sequence send the same one. */
  lemma SequencesDiffer(a: Scan, b: Scan, applicationCursor: bool)
    requires a != b
    ensures Sequence(a, applicationCursor) != Sequence(b, applicationCursor)
  {
    SequenceTells(a, applicationCursor);
    SequenceTells(b, applicationCursor);
  }

  /** The key a sequence came from. */
  function KeyOf(bytes: seq<byte>): Scan {
    if |bytes| < 3 then NoScan
    else
      var c, d := bytes[2] as char, if |bytes| == 5 then bytes[3] as char else '?';
      if c == 'A' then ArrowUp else if c == 'B' then ArrowDown else if c == 'C' then ArrowRight else if c == 'D' then ArrowLeft
      else if c == 'H' then Home else if c == 'F' then End
      else if c == 'P' then F1 else if c == 'Q' then F2 else if c == 'R' then F3 else if c == 'S' then F4
      else if |bytes| == 4 then
        if c == '2' then Insert else if c == '3' then Delete else if c == '5' then PageUp else PageDown
      else if c == '1' then
        if d == '5' then F5 else if d == '7' then F6 else if d == '8' then F7 else F8
      else if d == '0' then F9 else F10
  }

  lemma SequenceTells(scan: Scan, applicationCursor: bool)
    ensures KeyOf(Sequence(scan, applicationCursor)) == scan
  {
  }

  lemma CursorKeysAreSequences()
    ensures Sequence(ArrowUp, false) == ControlSequence(false, [-1], 'A' as byte)
    ensures Sequence(ArrowDown, false) == ControlSequence(false, [-1], 'B' as byte)
    ensures Sequence(ArrowRight, false) == ControlSequence(false, [-1], 'C' as byte)
    ensures Sequence(ArrowLeft, false) == ControlSequence(false, [-1], 'D' as byte)
    ensures Sequence(Home, false) == ControlSequence(false, [-1], 'H' as byte)
  {
    assert ParametersText([-1]) == [];
  }

  /** Outside application mode, a cursor key that is echoed moves the cursor its way by one. */
  lemma EchoedArrowsMoveTheCursor(s: State)
    requires s.Valid() && Listens(s)
    ensures var row, column := s.core.cursor.row, s.core.cursor.column;
            && TerminalPlaces.Placed(s, Feed(s, Sequence(ArrowUp, false)), Max(row - 1, 0), column)
            && TerminalPlaces.Placed(s, Feed(s, Sequence(ArrowDown, false)), Min(row + 1, s.core.rows - 1), column)
            && TerminalPlaces.Placed(s, Feed(s, Sequence(ArrowRight, false)), row, Min(column + 1, s.core.columns - 1))
            && TerminalPlaces.Placed(s, Feed(s, Sequence(ArrowLeft, false)), row, Max(column - 1, 0))
            && TerminalPlaces.Placed(s, Feed(s, Sequence(Home, false)), 0, 0)
  {
    hide Feed, Sequence, ControlSequence, TerminalPlaces.Placed;
    CursorKeysAreSequences();
    TerminalPlaces.CursorIsMoved(s, [-1]);
    TerminalPlaces.CursorIsPlaced(s, [-1]);
  }
}
