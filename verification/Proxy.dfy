/** The stop-and-wait TCP proxy: two activities that share one connection's state and can be
    interleaved wherever either of them waits. */
module Proxy {
  import opened Basics

  const SEQUENCE_SPACE: nat := 0x1_0000_0000
  const HALF_SPACE: nat := 0x8000_0000
  const INITIAL_SEQUENCE: nat := 0x6a00_0001
  const CHUNK: nat := 1200

  const FIN_ACK: nat := 0x11
  const SYN_ACK: nat := 0x12
  const ACK: nat := 0x10
  const PUSH_ACK: nat := 0x18

  /** A segment sent to the guest. */
  datatype Sent = Sent(seqNumber: nat, ackNumber: nat, flags: nat, payload: seq<byte>)
  {
    /** Sequence numbers it takes: one per byte, one for SYN (bit 1), one for FIN (bit 0). */
    function Consumed(): nat {
      |payload| + (if flags / 2 % 2 == 1 then 1 else 0) + (if flags % 2 == 1 then 1 else 0)
    }
  }

  /** The state both activities share, every segment sent to the guest, and every byte written to
      the host's writer while it was open. */
  datatype Connection = Connection(
    hostPending: seq<byte>, guestPending: seq<byte>,
    guestNext: nat, serverNext: nat, unackedEnd: Option<nat>,
    hostEof: bool, finSent: bool, guestKnown: bool, connected: bool, hostClosed: bool,
    sent: seq<Sent>, forwarded: seq<byte>)

  const START: Connection := Connection([], [], 0, INITIAL_SEQUENCE, None, false, false, false, false, false, [], [])

  // ---------- What runs between two waits ----------

  /** The guest's side of a connection. */
  predicate GuestSide(q: Connection, p: Connection) {
    && q.connected == p.connected && q.guestPending == p.guestPending
    && q.forwarded == p.forwarded && q.guestNext == p.guestNext
  }

  /** From p to q only segments were sent, each with the number that is expected. */
  predicate OnlySends(p: Connection, q: Connection) {
    && GuestSide(q, p) && q.guestKnown == p.guestKnown && q.hostClosed == p.hostClosed
    && p.sent <= q.sent && forall i | |p.sent| <= i < |q.sent| :: q.sent[i].ackNumber == p.guestNext
  }

  function SendTcp(p: Connection, flags: nat, payload: seq<byte>): (q: Connection)
    ensures OnlySends(p, q)
  {
    if !p.guestKnown then p
    else
      var segment := Sent(p.serverNext, p.guestNext, flags, payload);
      var q := p.(sent := p.sent + [segment]);
      if segment.Consumed() == 0 then q
      else
        var end := (p.serverNext + segment.Consumed()) % SEQUENCE_SPACE;
        q.(serverNext := end, unackedEnd := Some(end))
  }

  /** Sends the next chunk, or the FIN after the last one, unless something is unacknowledged. */
  function SendHostPending(p: Connection): (q: Connection)
    ensures OnlySends(p, q)
  {
    if p.unackedEnd.Some? then p
    else if p.hostPending != [] then
      var n := Min(CHUNK, |p.hostPending|);
      SendTcp(p.(hostPending := p.hostPending[n..]), PUSH_ACK, p.hostPending[..n])
    else if p.hostEof && !p.finSent then SendTcp(p.(finSent := true), FIN_ACK, [])
    else p
  }

  function HostRead(p: Connection, data: seq<byte>): Connection {
    SendHostPending(p.(hostPending := p.hostPending + data))
  }

  function HostEnded(p: Connection): Connection {
    SendHostPending(p.(hostEof := true))
  }

  /** A SYN: connects to the host on the first one, flushing what the guest sent before it. */
  function SynHandled(p: Connection, seqNumber: nat): Connection {
    var q := p.(guestNext := (seqNumber + 1) % SEQUENCE_SPACE);
    var r := if q.connected then q
             else q.(connected := true, forwarded := q.forwarded + q.guestPending, guestPending := []);
    SendTcp(r, SYN_ACK, [])
  }

  /** An acknowledgment number reaches the end of what is unacknowledged, modulo the space. */
  predicate Reaches(ack: nat, end: nat) {
    (ack - end) % SEQUENCE_SPACE < HALF_SPACE
  }

  function AckHandled(p: Connection, ack: nat): Connection {
    if p.unackedEnd.Some? && Reaches(ack, p.unackedEnd.value) then SendHostPending(p.(unackedEnd := None))
    else p
  }

  /** Data is taken only when it starts exactly where the last data ended. Before the host is
      connected it waits; after a FIN closed the host's writer it is taken all the same, but what
      is then written to that writer is lost. */
  function DataTaken(p: Connection, seqNumber: nat, data: seq<byte>): Connection {
    if seqNumber != p.guestNext then p
    else
      var q := p.(guestNext := (p.guestNext + |data|) % SEQUENCE_SPACE);
      if !q.connected then q.(guestPending := q.guestPending + data)
      else if q.hostClosed then q
      else q.(forwarded := q.forwarded + data)
  }

  function Acknowledged(p: Connection): Connection {
    SendTcp(p, ACK, [])
  }

  function FinTaken(p: Connection, seqNumber: nat): Connection {
    Acknowledged(if seqNumber == p.guestNext then p.(guestNext := (p.guestNext + 1) % SEQUENCE_SPACE) else p)
  }

  // ---------- Interleavings ----------

  /** A TCP segment from the guest. */
  datatype Frame = Frame(seqNumber: nat, ackNumber: nat, syn: bool, reset: bool, fin: bool, data: seq<byte>)

  /** Where the frame handler waits: between frames, or inside one before its block `next`. */
  datatype Handler = Idle | Inside(frame: Frame, next: nat)

  datatype Event =
    | Arrive(frame: Frame)        // the handler picks up a frame and runs its first block
    | Continue                    // the handler runs its next block
    | Read(data: seq<byte>)       // the host reader gets data
    | End                         // the host reader gets the end, or fails

  /** A connection, its frame handler, all bytes read from the host, and the number of segments
      sent before the last acknowledgment that was accepted. */
  datatype World = World(connection: Connection, handler: Handler, read: seq<byte>, cleared: nat)

  const BEGINNING: World := World(START, Idle, [], 0)

  predicate Enabled(w: World, e: Event) {
    match e
    case Arrive(_) => w.handler.Idle?
    case Continue => w.handler.Inside?
    case Read(data) => w.connection.connected && !w.connection.hostEof && data != []
    case End => w.connection.connected && !w.connection.hostEof
  }

  function Next(w: World, e: Event): World
    requires Enabled(w, e)
  {
    match e
    case Arrive(frame) => Arrived(w.(connection := w.connection.(guestKnown := true)), frame)
    case Continue => Continued(w, w.handler.frame, w.handler.next)
    case Read(data) => w.(connection := HostRead(w.connection, data), read := w.read + data)
    case End => w.(connection := HostEnded(w.connection))
  }

  function Arrived(w: World, frame: Frame): World {
    var p := w.connection;
    if frame.reset then w
    else if frame.syn then w.(connection := SynHandled(p, frame.seqNumber))
    else
      World(AckHandled(p, frame.ackNumber), Inside(frame, 1), w.read,
            if p.unackedEnd.Some? && Reaches(frame.ackNumber, p.unackedEnd.value) then |p.sent| else w.cleared)
  }

  function Continued(w: World, frame: Frame, next: nat): World {
    var p := w.connection;
    if next == 1 then
      w.(connection := if frame.data != [] then DataTaken(p, frame.seqNumber, frame.data) else p, handler := Inside(frame, 2))
    else if next == 2 then
      w.(connection := if frame.data != [] then Acknowledged(p) else p, handler := Inside(frame, 3))
    else if next == 3 then
      w.(connection := if frame.fin then FinTaken(p, frame.seqNumber) else p, handler := Inside(frame, 4))
    else
      w.(connection := if frame.fin && p.connected then p.(hostClosed := true) else p, handler := Idle)
  }

  predicate Possible(w: World, events: seq<Event>)
    decreases |events|, 0
  {
    events == [] ||
    (Possible(w, events[..|events| - 1]) && Enabled(After(w, events[..|events| - 1]), events[|events| - 1]))
  }

  function After(w: World, events: seq<Event>): World
    requires Possible(w, events)
    decreases |events|, 1
  {
    if events == [] then w else Next(After(w, events[..|events| - 1]), events[|events| - 1])
  }

  // ---------- Host to guest ----------

  function Payloads(sent: seq<Sent>): seq<byte> {
    if sent == [] then [] else Payloads(sent[..|sent| - 1]) + sent[|sent| - 1].payload
  }

  /** Sequence numbers taken by all of them. */
  function Position(sent: seq<Sent>): nat {
    if sent == [] then 0 else Position(sent[..|sent| - 1]) + sent[|sent| - 1].Consumed()
  }

  function Consuming(sent: seq<Sent>): nat {
    if sent == [] then 0
    else Consuming(sent[..|sent| - 1]) + (if sent[|sent| - 1].Consumed() > 0 then 1 else 0)
  }

  datatype Phase = Unopened | Open | Ended | Broken

  /** The order of a conversation: bare acknowledgments anywhere; one SYN-ACK; after it chunks of
      1 to 1200 bytes; after them one FIN; nothing else. */
  function PhaseOf(sent: seq<Sent>): Phase {
    if sent == [] then Unopened
    else
      var before, s := PhaseOf(sent[..|sent| - 1]), sent[|sent| - 1];
      if s.flags == 0x10 && s.payload == [] then before
      else if s.flags == 0x12 && s.payload == [] && before == Unopened then Open
      else if s.flags == 0x18 && 1 <= |s.payload| <= 1200 && before == Open then Open
      else if s.flags == 0x11 && s.payload == [] && before == Open then Ended
      else Broken
  }

  /** The number of the segment that comes after these. */
  function Number(sent: seq<Sent>): nat {
    (INITIAL_SEQUENCE + Position(sent)) % SEQUENCE_SPACE
  }

  /** Each segment starts where the ones before it ended. */
  predicate Numbered(sent: seq<Sent>) {
    forall i: nat | i < |sent| :: sent[i].seqNumber == Number(sent[..i])
  }

  /** The order of the conversation, and at most one segment unacknowledged. */
  predicate Ordered(w: World) {
    var p := w.connection;
    && PhaseOf(p.sent) == (if p.finSent then Ended else if p.connected then Open else Unopened)
    && w.cleared <= |p.sent|
    && Consuming(p.sent[w.cleared..]) == (if p.unackedEnd.Some? then 1 else 0)
  }

  /** What holds between any two blocks; with `once`, as long as no SYN was repeated. */
  predicate Conserves(w: World, once: bool) {
    var p := w.connection;
    && Payloads(p.sent) + p.hostPending == w.read
    && (p.unackedEnd.Some? ==> p.unackedEnd.value == p.serverNext)
    && p.serverNext == Number(p.sent) && Numbered(p.sent)
    && (p.finSent ==> p.hostEof && p.hostPending == [])
    && (if p.connected then p.guestKnown
        else p.unackedEnd.None? && p.hostPending == [] && !p.hostEof && !p.finSent)
    && (p.connected && p.unackedEnd.None? ==> p.hostPending == [] && (p.hostEof ==> p.finSent))
    && (once ==> Ordered(w))
  }

  lemma {:induction false} Appended(sent: seq<Sent>, s: Sent, cleared: nat)
    requires cleared <= |sent|
    ensures var t := sent + [s];
            && Payloads(t) == Payloads(sent) + s.payload
            && Position(t) == Position(sent) + s.Consumed()
            && Consuming(t[cleared..]) == Consuming(sent[cleared..]) + (if s.Consumed() > 0 then 1 else 0)
  {
    hide Sent.Consumed, Consuming;
    var t := sent + [s];
    assert t[..|t| - 1] == sent;
    assert t[cleared..] == sent[cleared..] + [s];
    ConsumingNext(sent[cleared..], s);
  }

  lemma {:induction false} ConsumingNext(sent: seq<Sent>, s: Sent)
    ensures Consuming(sent + [s]) == Consuming(sent) + (if s.Consumed() > 0 then 1 else 0)
  {
    hide Sent.Consumed;
    assert (sent + [s])[..|sent|] == sent;
  }

  lemma {:induction false} NumberedNext(sent: seq<Sent>, s: Sent)
    requires Numbered(sent) && s.seqNumber == Number(sent)
    ensures Numbered(sent + [s])
  {
    hide Position;
    var t := sent + [s];
    forall i: nat | i < |t| ensures t[i].seqNumber == Number(t[..i]) {
      if i < |sent| {
        assert t[..i] == sent[..i] && sent[i].seqNumber == Number(sent[..i]);
      } else {
        assert t[..i] == sent;
      }
    }
  }

  lemma {:induction false} PhaseNext(sent: seq<Sent>, s: Sent)
    ensures PhaseOf(sent + [s]) ==
      if s.flags == ACK && s.payload == [] then PhaseOf(sent)
      else if s.flags == SYN_ACK && s.payload == [] && PhaseOf(sent) == Unopened then Open
      else if s.flags == PUSH_ACK && 1 <= |s.payload| <= CHUNK && PhaseOf(sent) == Open then Open
      else if s.flags == FIN_ACK && s.payload == [] && PhaseOf(sent) == Open then Ended
      else Broken
  {
    assert (sent + [s])[..|sent|] == sent;
  }

  lemma NumberAdvances(position: nat, consumed: nat)
    ensures ((INITIAL_SEQUENCE + position) % SEQUENCE_SPACE + consumed) % SEQUENCE_SPACE
         == (INITIAL_SEQUENCE + position + consumed) % SEQUENCE_SPACE
  {
  }

  /** Sending keeps the numbering: what one call adds to the transcript. */
  lemma {:induction false} Sends(p: Connection, flags: nat, payload: seq<byte>, cleared: nat)
    requires p.guestKnown && cleared <= |p.sent| && Numbered(p.sent) && p.serverNext == Number(p.sent)
    ensures var q, s := SendTcp(p, flags, payload), Sent(p.serverNext, p.guestNext, flags, payload);
            && q.sent == p.sent + [s] && Numbered(q.sent) && q.serverNext == Number(q.sent)
            && Payloads(q.sent) == Payloads(p.sent) + payload
            && Consuming(q.sent[cleared..]) == Consuming(p.sent[cleared..]) + (if s.Consumed() > 0 then 1 else 0)
            && q == p.(sent := q.sent, serverNext := q.serverNext, unackedEnd := q.unackedEnd)
            && q.unackedEnd == (if s.Consumed() > 0 then Some(q.serverNext) else p.unackedEnd)
            && (s.Consumed() == 0 ==> q.serverNext == p.serverNext)
  {
    hide Position, Payloads, Consuming, Numbered;
    var s := Sent(p.serverNext, p.guestNext, flags, payload);
    Appended(p.sent, s, cleared);
    NumberedNext(p.sent, s);
    NumberAdvances(Position(p.sent), s.Consumed());
  }

  /** Everything Conserves says except that waiting bytes are on their way. */
  predicate AlmostConserves(w: World, once: bool) {
    var p := w.connection;
    && p.connected && p.guestKnown
    && Payloads(p.sent) + p.hostPending == w.read
    && (p.unackedEnd.Some? ==> p.unackedEnd.value == p.serverNext)
    && p.serverNext == Number(p.sent) && Numbered(p.sent)
    && (p.finSent ==> p.hostEof && p.hostPending == [])
    && (once ==> Ordered(w))
  }

  /** Trying to send is what makes up the difference. */
  lemma SendingPendingConserves(w: World, once: bool)
    requires AlmostConserves(w, once)
    ensures Conserves(w.(connection := SendHostPending(w.connection)), once)
    ensures SendHostPending(w.connection).connected
  {
    hide Position, Payloads, Consuming, Numbered, SendTcp, PhaseOf;
    var p, cleared := w.connection, if once then w.cleared else 0;
    if p.unackedEnd.None? && p.hostPending != [] {
      var n := Min(CHUNK, |p.hostPending|);
      var q := p.(hostPending := p.hostPending[n..]);
      Sends(q, PUSH_ACK, p.hostPending[..n], cleared);
      PhaseNext(p.sent, Sent(p.serverNext, p.guestNext, PUSH_ACK, p.hostPending[..n]));
      assert Payloads(p.sent) + p.hostPending[..n] + p.hostPending[n..] == Payloads(p.sent) + p.hostPending;
    } else if p.unackedEnd.None? && p.hostEof && !p.finSent {
      Sends(p.(finSent := true), FIN_ACK, [], cleared);
      PhaseNext(p.sent, Sent(p.serverNext, p.guestNext, FIN_ACK, []));
      assert Payloads(p.sent) + [] == Payloads(p.sent);
    }
  }

  lemma ReadConserves(w: World, data: seq<byte>, once: bool)
    requires Conserves(w, once) && Enabled(w, Read(data))
    ensures Conserves(Next(w, Read(data)), once)
  {
    hide SendHostPending, Payloads, Position, Consuming, PhaseOf, Numbered;
    var p := w.connection;
    assert Payloads(p.sent) + (p.hostPending + data) == w.read + data;
    SendingPendingConserves(w.(connection := p.(hostPending := p.hostPending + data), read := w.read + data), once);
  }

  lemma EndConserves(w: World, once: bool)
    requires Conserves(w, once) && Enabled(w, End)
    ensures Conserves(Next(w, End), once)
  {
    hide SendHostPending, Payloads, Position, Consuming, PhaseOf, Numbered;
    SendingPendingConserves(w.(connection := w.connection.(hostEof := true)), once);
  }

  lemma AcknowledgingConserves(w: World, h: Handler, once: bool)
    requires Conserves(w, once) && w.connection.guestKnown
    ensures Conserves(w.(connection := Acknowledged(w.connection), handler := h), once)
  {
    hide SendTcp, Payloads, Position, Consuming, PhaseOf, Numbered;
    var p := w.connection;
    Sends(p, ACK, [], if once then w.cleared else 0);
    PhaseNext(p.sent, Sent(p.serverNext, p.guestNext, ACK, []));
    assert Payloads(p.sent) + [] == Payloads(p.sent);
  }

  /** A first SYN opens the conversation; a repeated one takes another number, which its order
      does not survive. */
  lemma SynConserves(w: World, frame: Frame, once: bool)
    requires Conserves(w, once) && w.connection.guestKnown
    ensures var v := w.(connection := SynHandled(w.connection, frame.seqNumber));
            && Conserves(v, once && !w.connection.connected)
            && (once && w.connection.connected ==> PhaseOf(v.connection.sent) == Broken)
  {
    hide SendTcp, Payloads, Position, Consuming, PhaseOf, Numbered;
    var p := w.connection;
    var q := p.(guestNext := (frame.seqNumber + 1) % SEQUENCE_SPACE);
    var r := if p.connected then q
             else q.(connected := true, forwarded := p.forwarded + p.guestPending, guestPending := []);
    Sends(r, SYN_ACK, [], if once then w.cleared else 0);
    PhaseNext(p.sent, Sent(r.serverNext, r.guestNext, SYN_ACK, []));
    assert Payloads(p.sent) + [] == Payloads(p.sent);
  }

  lemma AckConserves(w: World, frame: Frame, once: bool)
    requires Conserves(w, once) && w.connection.guestKnown && !frame.syn && !frame.reset
    ensures Conserves(Arrived(w, frame), once)
  {
    hide SendHostPending, Payloads, Position, PhaseOf, Numbered;
    var p := w.connection;
    if p.unackedEnd.Some? && Reaches(frame.ackNumber, p.unackedEnd.value) {
      assert p.sent[|p.sent|..] == [];
      SendingPendingConserves(World(p.(unackedEnd := None), Inside(frame, 1), w.read, |p.sent|), once);
    }
  }

  /** Taking guest data or a guest FIN leaves the host-to-guest side alone. */
  lemma GuestSideConserves(w: World, q: Connection, h: Handler, once: bool)
    requires Conserves(w, once)
    requires q == w.connection.(guestNext := q.guestNext, forwarded := q.forwarded, guestPending := q.guestPending,
                                hostClosed := q.hostClosed, guestKnown := q.guestKnown)
    requires w.connection.guestKnown ==> q.guestKnown
    ensures Conserves(w.(connection := q, handler := h), once)
  {
    hide Payloads, Position, Consuming, PhaseOf, Numbered;
  }

  /** A SYN on an open connection. */
  predicate RepeatsSyn(w: World, e: Event) {
    e.Arrive? && e.frame.syn && !e.frame.reset && w.connection.connected
  }

  lemma NextConserves(w: World, e: Event, once: bool)
    requires Conserves(w, once) && (w.handler.Inside? ==> w.connection.guestKnown) && Enabled(w, e)
    ensures var v := Next(w, e);
            && Conserves(v, once && !RepeatsSyn(w, e)) && (v.handler.Inside? ==> v.connection.guestKnown)
            && (once && RepeatsSyn(w, e) ==> PhaseOf(v.connection.sent) == Broken)
  {
    hide SendTcp, Conserves, SendHostPending, PhaseOf;
    var p := w.connection;
    KnownStays(w, e);
    match e {
      case Read(data) => ReadConserves(w, data, once);
      case End => EndConserves(w, once);
      case Arrive(frame) =>
        var known := w.(connection := p.(guestKnown := true));
        GuestSideConserves(w, known.connection, w.handler, once);
        if !frame.reset {
          if frame.syn {
            SynConserves(known, frame, once);
          } else {
            AckConserves(known, frame, once);
          }
        }
      case Continue =>
        var frame, next := w.handler.frame, w.handler.next;
        if next == 1 {
          GuestSideConserves(w, Next(w, e).connection, Next(w, e).handler, once);
        } else if next == 2 {
          AcknowledgingConserves(w, Next(w, e).handler, once);
          GuestSideConserves(w, p, Next(w, e).handler, once);
        } else if next == 3 {
          var q := if frame.fin && frame.seqNumber == p.guestNext then p.(guestNext := (p.guestNext + 1) % SEQUENCE_SPACE) else p;
          GuestSideConserves(w, q, w.handler, once);
          AcknowledgingConserves(w.(connection := q), Next(w, e).handler, once);
          GuestSideConserves(w, p, Next(w, e).handler, once);
        } else {
          GuestSideConserves(w, Next(w, e).connection, Next(w, e).handler, once);
        }
    }
  }

  lemma KnownStays(w: World, e: Event)
    requires Enabled(w, e)
    ensures w.connection.guestKnown ==> Next(w, e).connection.guestKnown
    ensures e.Arrive? ==> Next(w, e).connection.guestKnown
    ensures Next(w, e).handler.Inside? ==> e.Arrive? || w.handler.Inside?
  {
    hide SendTcp, SendHostPending;
  }

  /** Segments are never unsent, and each carries the number that is expected once its block is done. */
  lemma NextAcknowledges(w: World, e: Event)
    requires Enabled(w, e)
    ensures SentWithNext(w.connection, Next(w, e).connection)
  {
    hide SendTcp, SendHostPending, SentWithNext, Arrived, Continued;
    match e
    case Arrive(frame) =>
      var known := w.connection.(guestKnown := true);
      ArrivedAcknowledges(w.(connection := known), frame);
      SendingIsSentWithNext(w.connection, known, Next(w, e).connection);
    case Continue => ContinuedAcknowledges(w, w.handler.frame, w.handler.next);
    case Read(data) =>
      var q := w.connection.(hostPending := w.connection.hostPending + data);
      SendingIsSentWithNext(w.connection, q, SendHostPending(q));
    case End =>
      var q := w.connection.(hostEof := true);
      SendingIsSentWithNext(w.connection, q, SendHostPending(q));
  }

  predicate SentWithNext(p: Connection, q: Connection) {
    p.sent <= q.sent && forall i | |p.sent| <= i < |q.sent| :: q.sent[i].ackNumber == q.guestNext
  }

  lemma SendingIsSentWithNext(p: Connection, p': Connection, q: Connection)
    requires p'.sent == p.sent && (OnlySends(p', q) || SentWithNext(p', q))
    ensures SentWithNext(p, q)
  {
  }

  lemma ArrivedAcknowledges(w: World, frame: Frame)
    ensures SentWithNext(w.connection, Arrived(w, frame).connection)
  {
    hide SendTcp, SendHostPending, Reaches;
  }

  lemma ContinuedAcknowledges(w: World, frame: Frame, next: nat)
    ensures SentWithNext(w.connection, Continued(w, frame, next).connection)
  {
    hide SendTcp;
  }

  lemma {:induction false} BrokenStays(sent: seq<Sent>, longer: seq<Sent>)
    requires sent <= longer && PhaseOf(sent) == Broken
    ensures PhaseOf(longer) == Broken
    decreases |longer|
  {
    if |sent| < |longer| {
      BrokenStays(sent, longer[..|longer| - 1]);
    } else {
      assert sent == longer;
    }
  }

  /** No SYN arrives on an open connection. */
  predicate SynsOnce(w: World, events: seq<Event>)
    requires Possible(w, events)
  {
    events == [] ||
    var before := events[..|events| - 1];
    SynsOnce(w, before) && !RepeatsSyn(After(w, before), events[|events| - 1])
  }

  lemma BeginningConserves()
    ensures Conserves(BEGINNING, true)
  {
  }

  /** Over every interleaving of host reads and guest frames: the payloads sent and the bytes
      still pending are what was read from the host, and numbers continue without gap or
      overlap. At most one segment is unacknowledged, and the conversation is one SYN-ACK, then
      data, then one FIN, then acknowledgments only, exactly when no SYN was repeated. */
  lemma {:induction false} EveryRunConserves(events: seq<Event>)
    requires Possible(BEGINNING, events)
    ensures var w := After(BEGINNING, events);
            && Conserves(w, false) && (w.handler.Inside? ==> w.connection.guestKnown)
            && (Conserves(w, true) <==> SynsOnce(BEGINNING, events))
            && (!SynsOnce(BEGINNING, events) ==> PhaseOf(w.connection.sent) == Broken)
    decreases |events|
  {
    hide Next, RepeatsSyn, Numbered, Payloads, Position, Consuming, Number;
    BeginningConserves();
    if events != [] {
      var before, e := events[..|events| - 1], events[|events| - 1];
      var w := After(BEGINNING, before);
      var once := SynsOnce(BEGINNING, before);
      EveryRunConserves(before);
      NextConserves(w, e, once);
      NextAcknowledges(w, e);
      if !once {
        BrokenStays(w.connection.sent, Next(w, e).connection.sent);
      }
    }
  }

  /** How many numbers a conversation has taken: one for SYN, one per byte, one for FIN. */
  lemma {:induction false} PositionOfConversation(sent: seq<Sent>)
    requires PhaseOf(sent) != Broken
    ensures Position(sent) == |Payloads(sent)| + (if PhaseOf(sent) == Unopened then 0 else if PhaseOf(sent) == Open then 1 else 2)
    decreases |sent|
  {
    if sent != [] {
      PositionOfConversation(sent[..|sent| - 1]);
    }
  }

  /** Handling a SYN keeps all this exactly when it is the first. */
  lemma SynConservesOnlyOnce(w: World, frame: Frame)
    requires Conserves(w, true) && w.connection.guestKnown
    ensures Conserves(w.(connection := SynHandled(w.connection, frame.seqNumber)), true) <==> !w.connection.connected
  {
    hide SendTcp, Payloads, Position, Consuming, PhaseOf, Numbered;
    SynConserves(w, frame, true);
  }

  /** Between positions less than half the space apart, an acknowledgment lets the next segment go
      exactly when it covers everything sent. */
  lemma AcknowledgmentsCompare(acknowledged: nat, sent: nat)
    requires acknowledged < sent + 0x8000_0000 && sent < acknowledged + 0x8000_0000
    ensures Reaches((0x6a00_0001 + acknowledged) % 0x1_0000_0000, (0x6a00_0001 + sent) % 0x1_0000_0000)
       <==> acknowledged >= sent
  {
  }

  // ---------- Guest to host ----------

  /** A frame whose data is a piece of the guest's stream at its place, numbered from base
      modulo the space; a FIN comes at the stream's end. */
  predicate CutFrom(frame: Frame, stream: seq<byte>, base: nat, at: nat) {
    && !frame.syn
    && at + |frame.data| <= |stream| && frame.data == stream[at..at + |frame.data|]
    && frame.seqNumber == (base + at) % SEQUENCE_SPACE
    && (frame.fin ==> at + |frame.data| == |stream|)
  }

  /** Less than the sequence space away from what was reached, as duplicates are that still live. */
  predicate Near(frame: Frame, at: nat, reached: nat) {
    at + |frame.data| < reached + SEQUENCE_SPACE && reached + 1 < at + SEQUENCE_SPACE
  }

  ghost predicate IsPiece(frame: Frame, stream: seq<byte>, base: nat, reached: nat) {
    frame.reset || exists at: nat :: CutFrom(frame, stream, base, at) && Near(frame, at, reached)
  }

  /** The SYN of the stream once more. */
  predicate SynAgain(frame: Frame, base: nat) {
    frame.syn && !frame.reset && (frame.seqNumber + 1) % SEQUENCE_SPACE == base % SEQUENCE_SPACE
  }

  /** A place in the guest's stream, or after its FIN. */
  datatype Mark = Mark(reached: nat, finished: bool)

  /** The next number expected is the one of that place, modulo the space. */
  predicate Expects(p: Connection, stream: seq<byte>, base: nat, m: Mark) {
    && p.connected && p.guestPending == []
    && m.reached <= |stream| && (m.finished ==> m.reached == |stream|)
    && p.guestNext == (base + m.reached + (if m.finished then 1 else 0)) % SEQUENCE_SPACE
  }

  /** What was forwarded to the host is a prefix of the stream, and the next number expected is the one
      after it, or after the FIN as well once all of it has arrived. */
  predicate Delivers(w: World, stream: seq<byte>, base: nat, finished: bool) {
    w.connection.forwarded <= stream && Expects(w.connection, stream, base, Mark(|w.connection.forwarded|, finished))
  }

  /** Inside a frame, its FIN no longer matches once its data has been dealt with. */
  ghost predicate HandlerInStep(w: World, stream: seq<byte>, base: nat, reached: nat) {
    w.handler.Inside? ==>
      && w.handler.next >= 1
      && if w.handler.next >= 2 && w.handler.frame.data != [] then w.handler.frame.seqNumber != w.connection.guestNext
         else exists at: nat :: CutFrom(w.handler.frame, stream, base, at) && Near(w.handler.frame, at, reached)
  }

  /** Two places less than the space apart have different numbers. */
  lemma PlacesDiffer(base: nat, a: nat, b: nat)
    requires a < b + SEQUENCE_SPACE && b < a + SEQUENCE_SPACE
    ensures (base + a) % SEQUENCE_SPACE == (base + b) % SEQUENCE_SPACE <==> a == b
  {
  }

  lemma NumbersAdd(base: nat, a: nat, n: nat)
    ensures ((base + a) % SEQUENCE_SPACE + n) % SEQUENCE_SPACE == (base + a + n) % SEQUENCE_SPACE
  {
  }

  /** The block takes the frame's data. */
  predicate TakesData(w: World, e: Event) {
    && e.Continue? && w.handler.Inside? && w.handler.next == 1
    && w.handler.frame.data != [] && w.handler.frame.seqNumber == w.connection.guestNext
  }

  predicate TakesFin(w: World, e: Event) {
    && e.Continue? && w.handler.Inside? && w.handler.next == 3
    && w.handler.frame.fin && w.handler.frame.seqNumber == w.connection.guestNext
  }

  /** The bytes an event moves the expected place by. */
  function Accepted(w: World, e: Event): seq<byte> {
    if TakesData(w, e) then w.handler.frame.data else []
  }

  /** The bytes an event forwards to the host. */
  function Gained(w: World, e: Event): seq<byte> {
    if w.connection.hostClosed then [] else Accepted(w, e)
  }

  /** Data is taken and acknowledged, but a FIN, in its place or ahead of it, has closed the writer. */
  predicate LosesData(w: World, e: Event) {
    TakesData(w, e) && w.connection.hostClosed
  }

  /** A SYN goes back to the start, data goes on by its length, a FIN by one. */
  function NextMark(w: World, e: Event, m: Mark): Mark {
    if RepeatsSyn(w, e) then Mark(0, false)
    else Mark(m.reached + |Accepted(w, e)|, m.finished || TakesFin(w, e))
  }

  lemma TakingData(w: World, e: Event, stream: seq<byte>, base: nat, m: Mark)
    requires Expects(w.connection, stream, base, m) && HandlerInStep(w, stream, base, m.reached) && Enabled(w, e)
    requires e.Continue? && w.handler.next == 1 && w.handler.frame.data != []
    ensures var v, data := Next(w, e), Accepted(w, e);
            && Expects(v.connection, stream, base, Mark(m.reached + |data|, m.finished))
            && v.connection.forwarded == w.connection.forwarded + Gained(w, e)
            && data == stream[m.reached..m.reached + |data|]
            && v.handler.frame.seqNumber != v.connection.guestNext
  {
    var frame := w.handler.frame;
    var at: nat :| CutFrom(frame, stream, base, at) && Near(frame, at, m.reached);
    PlacesDiffer(base, at, m.reached + (if m.finished then 1 else 0));
    if TakesData(w, e) {
      NumbersAdd(base, at, |frame.data|);
      PlacesDiffer(base, at, at + |frame.data|);
    }
  }

  lemma TakingFin(w: World, e: Event, stream: seq<byte>, base: nat, m: Mark)
    requires Expects(w.connection, stream, base, m) && HandlerInStep(w, stream, base, m.reached) && Enabled(w, e)
    requires e.Continue? && w.handler.next == 3 && w.handler.frame.fin
    ensures var v := Next(w, e);
            && Expects(v.connection, stream, base, Mark(m.reached, m.finished || TakesFin(w, e)))
            && v.connection.forwarded == w.connection.forwarded
            && (w.handler.frame.data != [] ==> v.connection.guestNext == w.connection.guestNext)
  {
    hide SendTcp;
    var p, frame := w.connection, w.handler.frame;
    var counted := if frame.seqNumber == p.guestNext then p.(guestNext := (p.guestNext + 1) % SEQUENCE_SPACE) else p;
    if TakesFin(w, e) {
      var at: nat :| CutFrom(frame, stream, base, at) && Near(frame, at, m.reached);
      PlacesDiffer(base, at, m.reached + (if m.finished then 1 else 0));
      NumbersAdd(base, m.reached, 1);
    }
  }

  /** Blocks that have nothing to do with the guest's stream. */
  lemma OtherBlocks(w: World, e: Event)
    requires Enabled(w, e) && (e.Arrive? ==> !e.frame.syn || e.frame.reset)
    requires e.Continue? ==> w.handler.next == 2 || w.handler.next >= 4 || (w.handler.next == 3 && !w.handler.frame.fin)
                             || (w.handler.next == 1 && w.handler.frame.data == [])
    ensures GuestSide(Next(w, e).connection, w.connection) && !TakesData(w, e) && !TakesFin(w, e)
  {
    hide SendTcp, SendHostPending;
  }

  lemma SynRewinds(w: World, frame: Frame, stream: seq<byte>, base: nat, m: Mark)
    requires Expects(w.connection, stream, base, m) && SynAgain(frame, base)
    ensures var q := SynHandled(w.connection, frame.seqNumber);
            Expects(q, stream, base, Mark(0, false)) && q.forwarded == w.connection.forwarded
  {
    hide SendTcp;
  }

  /** Each block moves the place as its data, FIN or SYN says; what it takes is the piece of the
      stream from that place on, and it forwards that as long as no FIN has closed the writer. */
  lemma NextExpects(w: World, e: Event, stream: seq<byte>, base: nat, m: Mark)
    requires Expects(w.connection, stream, base, m) && HandlerInStep(w, stream, base, m.reached) && Enabled(w, e)
    requires e.Arrive? ==> SynAgain(e.frame, base) || IsPiece(e.frame, stream, base, m.reached)
    ensures var v, n, data := Next(w, e), NextMark(w, e, m), Accepted(w, e);
            && Expects(v.connection, stream, base, n) && HandlerInStep(v, stream, base, n.reached)
            && v.connection.forwarded == w.connection.forwarded + Gained(w, e)
            && (data != [] ==> m.reached + |data| <= |stream| && data == stream[m.reached..m.reached + |data|])
  {
    hide SendTcp, SendHostPending, SynHandled, DataTaken, FinTaken, Expects;
    ExpectsConnected(w.connection, stream, base, m);
    if e.Continue? && w.handler.next == 1 && w.handler.frame.data != [] {
      TakingData(w, e, stream, base, m);
    } else if e.Continue? && w.handler.next == 3 && w.handler.frame.fin {
      TakingFin(w, e, stream, base, m);
    } else if e.Arrive? && e.frame.syn && !e.frame.reset {
      SameGuestSideExpects(w.connection, w.connection.(guestKnown := true), stream, base, m);
      SynRewinds(w.(connection := w.connection.(guestKnown := true)), e.frame, stream, base, m);
    } else {
      OtherBlocks(w, e);
      SameGuestSideExpects(w.connection, Next(w, e).connection, stream, base, m);
    }
  }

  lemma ExpectsConnected(p: Connection, stream: seq<byte>, base: nat, m: Mark)
    requires Expects(p, stream, base, m)
    ensures p.connected && m.reached <= |stream|
  {
  }

  lemma SameGuestSideExpects(p: Connection, q: Connection, stream: seq<byte>, base: nat, m: Mark)
    requires Expects(p, stream, base, m) && GuestSide(q, p)
    ensures Expects(q, stream, base, m)
  {
  }

  /** A SYN arrives after something was forwarded. */
  predicate RepeatsSynLate(w: World, e: Event) {
    RepeatsSyn(w, e) && w.connection.forwarded != []
  }

  /** The two events that break delivery. */
  predicate Harms(w: World, e: Event) {
    RepeatsSynLate(w, e) || LosesData(w, e)
  }

  /** No SYN comes after something was forwarded, and no data is taken after a FIN closed the writer. */
  predicate Harmless(w: World, events: seq<Event>)
    requires Possible(w, events)
  {
    events == [] ||
    var before := events[..|events| - 1];
    Harmless(w, before) && !Harms(After(w, before), events[|events| - 1])
  }

  /** Every frame is a piece of the stream near what has been forwarded when it arrives, or its SYN. */
  ghost predicate AllNear(w: World, events: seq<Event>, stream: seq<byte>, base: nat)
    requires Possible(w, events)
  {
    events == [] ||
    var before, e := events[..|events| - 1], events[|events| - 1];
    AllNear(w, before, stream, base) &&
    (e.Arrive? ==> SynAgain(e.frame, base) || IsPiece(e.frame, stream, base, |After(w, before).connection.forwarded|))
  }

  lemma NextDelivers(w: World, e: Event, stream: seq<byte>, base: nat, finished: bool)
    requires Delivers(w, stream, base, finished) && Enabled(w, e) && !Harms(w, e)
    requires HandlerInStep(w, stream, base, |w.connection.forwarded|)
    requires e.Arrive? ==> SynAgain(e.frame, base) || IsPiece(e.frame, stream, base, |w.connection.forwarded|)
    ensures var v, m := Next(w, e), NextMark(w, e, Mark(|w.connection.forwarded|, finished));
            && Delivers(v, stream, base, m.finished) && m.reached == |v.connection.forwarded|
            && HandlerInStep(v, stream, base, |v.connection.forwarded|)
  {
    hide Next, Expects, IsPiece, HandlerInStep, Near, CutFrom;
    var p, data := w.connection, Accepted(w, e);
    NextExpects(w, e, stream, base, Mark(|p.forwarded|, finished));
    assert data == Gained(w, e);
    if data != [] {
      assert p.forwarded + data == stream[..|p.forwarded| + |data|];
    }
  }

  // ---------- What the guest is told ----------

  /** The number the guest is to send next once it is at a place. */
  function NumberOf(base: nat, m: Mark): nat {
    (base + m.reached + (if m.finished then 1 else 0)) % SEQUENCE_SPACE
  }

  /** An acknowledgment of bytes that were forwarded, and of the FIN only with all of them. */
  ghost predicate AcknowledgesForwarded(ack: nat, forwarded: seq<byte>, stream: seq<byte>, base: nat) {
    exists m: Mark :: m.reached <= |forwarded| && (m.finished ==> forwarded == stream) && ack == NumberOf(base, m)
  }

  /** Every segment from number `first` on acknowledges only what was forwarded. */
  ghost predicate AllAcknowledgeForwarded(p: Connection, first: nat, stream: seq<byte>, base: nat) {
    forall i | first <= i < |p.sent| :: AcknowledgesForwarded(p.sent[i].ackNumber, p.forwarded, stream, base)
  }

  lemma StillAcknowledges(w: World, e: Event, first: nat, stream: seq<byte>, base: nat, finished: bool)
    requires Enabled(w, e) && AllAcknowledgeForwarded(w.connection, first, stream, base)
    requires w.connection.forwarded <= Next(w, e).connection.forwarded && Delivers(Next(w, e), stream, base, finished)
    ensures AllAcknowledgeForwarded(Next(w, e).connection, first, stream, base)
  {
    hide Next;
    NextAcknowledges(w, e);
    var p, q := w.connection, Next(w, e).connection;
    forall i | first <= i < |q.sent| ensures AcknowledgesForwarded(q.sent[i].ackNumber, q.forwarded, stream, base) {
      if i < |p.sent| {
        assert AcknowledgesForwarded(p.sent[i].ackNumber, p.forwarded, stream, base);
        var m: Mark :| m.reached <= |p.forwarded| && (m.finished ==> p.forwarded == stream)
                       && p.sent[i].ackNumber == NumberOf(base, m);
        assert m.finished ==> q.forwarded == stream;
        assert q.sent[i].ackNumber == NumberOf(base, m);
      } else {
        assert q.sent[i].ackNumber == NumberOf(base, Mark(|q.forwarded|, finished));
      }
    }
  }

  // ---------- Runs ----------

  /** Frames before the SYN, none of which is a SYN or has anything to take at number 0. */
  predicate QuietFrame(frame: Frame) {
    frame.reset || (!frame.syn && (frame.seqNumber == 0 ==> frame.data == [] && !frame.fin))
  }

  predicate Quiet(events: seq<Event>) {
    forall i | 0 <= i < |events| && events[i].Arrive? :: QuietFrame(events[i].frame)
  }

  /** Nothing of the guest's has been taken, and the host is not connected. */
  predicate Untouched(w: World) {
    var p := w.connection;
    && !p.connected && !p.hostClosed && p.guestNext == 0 && p.guestPending == [] && p.forwarded == []
    && (w.handler.Inside? ==> w.handler.next >= 1 && !w.handler.frame.reset && QuietFrame(w.handler.frame))
  }

  lemma NextIsUntouched(w: World, e: Event)
    requires Untouched(w) && Enabled(w, e) && (e.Arrive? ==> QuietFrame(e.frame))
    ensures Untouched(Next(w, e))
  {
    hide SendTcp, SendHostPending, Reaches;
  }

  lemma {:induction false} QuietRunTouchesNothing(before: seq<Event>)
    requires Possible(BEGINNING, before) && Quiet(before)
    ensures Untouched(After(BEGINNING, before))
    decreases |before|
  {
    hide Next, QuietFrame;
    if before != [] {
      QuietRunTouchesNothing(before[..|before| - 1]);
      NextIsUntouched(After(BEGINNING, before[..|before| - 1]), before[|before| - 1]);
    }
  }

  /** A world between frames in which the first SYN of a stream has just been dealt with. */
  ghost predicate Opened(w: World, before: seq<Event>, syn: Frame) {
    && Possible(BEGINNING, before) && Quiet(before) && After(BEGINNING, before).handler.Idle?
    && syn.syn && !syn.reset && w == Next(After(BEGINNING, before), Arrive(syn))
  }

  /** The first SYN opens the stream numbered after it. */
  lemma SynStartsDelivery(w: World, before: seq<Event>, syn: Frame, stream: seq<byte>)
    requires Opened(w, before, syn)
    ensures Delivers(w, stream, syn.seqNumber + 1, false) && w.handler.Idle? && !w.connection.hostClosed
    ensures AllAcknowledgeForwarded(w.connection, |After(BEGINNING, before).connection.sent|, stream, syn.seqNumber + 1)
  {
    hide SendTcp, After, Possible;
    QuietRunTouchesNothing(before);
    var v, base := After(BEGINNING, before), syn.seqNumber + 1;
    var p := v.connection.(guestKnown := true);
    var q := p.(guestNext := base % SEQUENCE_SPACE, connected := true);
    assert p.forwarded + p.guestPending == [];
    forall i | |v.connection.sent| <= i < |w.connection.sent|
      ensures AcknowledgesForwarded(w.connection.sent[i].ackNumber, w.connection.forwarded, stream, base)
    {
      assert w.connection.sent[i].ackNumber == NumberOf(base, Mark(0, false));
    }
  }

  /** Without the quiet: what waited for the host is forwarded first, so the stream is delivered
      from its SYN on exactly when nothing waited. */
  lemma SynOpensDeliveryExactly(w: World, syn: Frame, stream: seq<byte>)
    requires !w.connection.connected && w.connection.forwarded == [] && |stream| + 1 < SEQUENCE_SPACE
    requires syn.syn && !syn.reset && w.handler.Idle?
    ensures Delivers(Next(w, Arrive(syn)), stream, syn.seqNumber + 1, false) <==> w.connection.guestPending == []
  {
    hide SendTcp;
    var p := w.connection.(guestKnown := true);
    var q := p.(guestNext := (syn.seqNumber + 1) % SEQUENCE_SPACE, connected := true,
                forwarded := p.forwarded + p.guestPending, guestPending := []);
    if |p.guestPending| <= |stream| {
      PlacesDiffer(syn.seqNumber + 1, 0, |p.guestPending|);
    }
  }

  lemma {:induction false} RunDelivers(w: World, events: seq<Event>, first: nat, stream: seq<byte>, base: nat)
    returns (finished: bool)
    requires Delivers(w, stream, base, false) && w.handler.Idle?
    requires AllAcknowledgeForwarded(w.connection, first, stream, base)
    requires Possible(w, events) && AllNear(w, events, stream, base) && Harmless(w, events)
    ensures var v := After(w, events);
            && Delivers(v, stream, base, finished) && HandlerInStep(v, stream, base, |v.connection.forwarded|)
            && AllAcknowledgeForwarded(v.connection, first, stream, base)
    decreases |events|
  {
    hide Next, Delivers, IsPiece, CutFrom, Near, Harms, NextMark, AllAcknowledgeForwarded, Gained, HandlerInStep;
    if events == [] {
      finished := false;
      IdleIsInStep(w, stream, base);
    } else {
      var before, e := events[..|events| - 1], events[|events| - 1];
      finished := RunDelivers(w, before, first, stream, base);
      var v := After(w, before);
      NextDelivers(v, e, stream, base, finished);
      NextForwardsMore(v, e, stream, base, finished);
      finished := NextMark(v, e, Mark(|v.connection.forwarded|, finished)).finished;
      StillAcknowledges(v, e, first, stream, base, finished);
    }
  }

  lemma IdleIsInStep(w: World, stream: seq<byte>, base: nat)
    requires w.handler.Idle?
    ensures HandlerInStep(w, stream, base, |w.connection.forwarded|)
  {
  }

  lemma NextForwardsMore(w: World, e: Event, stream: seq<byte>, base: nat, finished: bool)
    requires Delivers(w, stream, base, finished) && Enabled(w, e)
    requires HandlerInStep(w, stream, base, |w.connection.forwarded|)
    requires e.Arrive? ==> SynAgain(e.frame, base) || IsPiece(e.frame, stream, base, |w.connection.forwarded|)
    ensures w.connection.forwarded <= Next(w, e).connection.forwarded
  {
    hide Next, IsPiece, HandlerInStep;
    NextExpects(w, e, stream, base, Mark(|w.connection.forwarded|, finished));
  }

  /** From the first SYN on, on any run: whatever pieces of a stream of any length arrive, repeated and
      out of order, less than the sequence space away, with the host reader interleaved anywhere,
      the SYN repeated until something was forwarded and no data taken after a FIN: the bytes
      forwarded are always a prefix of the stream, the next expected number is the one after
      exactly that prefix, or after the FIN with all of it, and no segment ever told the guest
      that more had been forwarded. */
  lemma EveryRunDelivers(w: World, before: seq<Event>, syn: Frame, events: seq<Event>, stream: seq<byte>)
    returns (finished: bool)
    requires Opened(w, before, syn) && Possible(w, events)
    requires AllNear(w, events, stream, syn.seqNumber + 1) && Harmless(w, events)
    ensures var v, base := After(w, events), syn.seqNumber + 1;
            && Delivers(v, stream, base, finished)
            && AllAcknowledgeForwarded(v.connection, |After(BEGINNING, before).connection.sent|, stream, base)
  {
    hide Next, Delivers, AllNear, Harmless, AllAcknowledgeForwarded;
    SynStartsDelivery(w, before, syn, stream);
    finished := RunDelivers(w, events, |After(BEGINNING, before).connection.sent|, stream, syn.seqNumber + 1);
  }

  // ---------- Exactly when the host gets what is acknowledged ----------

  /** With the FIN counted or not. */
  predicate DeliversSomehow(w: World, stream: seq<byte>, base: nat) {
    Delivers(w, stream, base, false) || Delivers(w, stream, base, true)
  }

  /** A repeated SYN keeps delivery exactly while nothing was forwarded and no FIN counted. */
  lemma SynKeepsDeliveryExactly(w: World, frame: Frame, stream: seq<byte>, base: nat, finished: bool)
    requires Delivers(w, stream, base, finished) && SynAgain(frame, base) && |stream| + 1 < SEQUENCE_SPACE
    ensures Delivers(w.(connection := SynHandled(w.connection, frame.seqNumber)), stream, base, finished)
       <==> w.connection.forwarded == [] && !finished
  {
    hide SynHandled;
    var p := w.connection;
    SynRewinds(w, frame, stream, base, Mark(|p.forwarded|, finished));
    PlacesDiffer(base, 0, |p.forwarded| + (if finished then 1 else 0));
  }

  /** A place other than the end of what was forwarded is no delivery. */
  lemma OtherPlaceIsNoDelivery(w: World, stream: seq<byte>, base: nat, m: Mark)
    requires Expects(w.connection, stream, base, m) && |stream| + 1 < SEQUENCE_SPACE
    requires m.reached != |w.connection.forwarded| && (m.finished ==> m.reached < |w.connection.forwarded|)
    requires m.reached < |w.connection.forwarded| || |w.connection.forwarded| < |stream|
    ensures !DeliversSomehow(w, stream, base)
  {
    var k, at := |w.connection.forwarded|, m.reached + (if m.finished then 1 else 0);
    if k <= |stream| {
      PlacesDiffer(base, at, k);
      PlacesDiffer(base, at, k + 1);
    }
  }

  /** Every frame is a piece of the stream or its SYN. */
  ghost predicate AllPieces(events: seq<Event>, stream: seq<byte>, base: nat) {
    forall i | 0 <= i < |events| && events[i].Arrive? :: PieceOrSyn(events[i].frame, stream, base)
  }

  ghost predicate PieceOrSyn(frame: Frame, stream: seq<byte>, base: nat) {
    SynAgain(frame, base) || frame.reset || exists at: nat :: CutFrom(frame, stream, base, at)
  }

  /** All pieces of a stream shorter than the space are near. */
  lemma ShortIsNear(frame: Frame, stream: seq<byte>, base: nat, reached: nat)
    requires |stream| + 1 < SEQUENCE_SPACE && reached <= |stream| && PieceOrSyn(frame, stream, base)
    ensures SynAgain(frame, base) || IsPiece(frame, stream, base, reached)
  {
    if !SynAgain(frame, base) && !frame.reset {
      var at: nat :| CutFrom(frame, stream, base, at);
      assert Near(frame, at, reached);
    }
  }

  /** A late SYN or lost data leaves delivery broken right after. */
  lemma HarmBreaksDelivery(w: World, e: Event, stream: seq<byte>, base: nat, finished: bool)
    requires Delivers(w, stream, base, finished) && Enabled(w, e) && Harms(w, e) && |stream| + 1 < SEQUENCE_SPACE
    requires HandlerInStep(w, stream, base, |w.connection.forwarded|)
    requires e.Arrive? ==> PieceOrSyn(e.frame, stream, base)
    ensures !DeliversSomehow(Next(w, e), stream, base)
  {
    hide Next, IsPiece, HandlerInStep, PieceOrSyn, DeliversSomehow;
    var m := Mark(|w.connection.forwarded|, finished);
    if e.Arrive? {
      ShortIsNear(e.frame, stream, base, m.reached);
    }
    NextExpects(w, e, stream, base, m);
    OtherPlaceIsNoDelivery(Next(w, e), stream, base, NextMark(w, e, m));
  }

  lemma {:induction false} ShortRunDelivers(w: World, events: seq<Event>, stream: seq<byte>, base: nat) returns (finished: bool)
    requires Delivers(w, stream, base, false) && w.handler.Idle? && |stream| + 1 < SEQUENCE_SPACE
    requires Possible(w, events) && AllPieces(events, stream, base) && Harmless(w, events)
    ensures var v := After(w, events);
            Delivers(v, stream, base, finished) && HandlerInStep(v, stream, base, |v.connection.forwarded|)
    decreases |events|
  {
    hide Next, IsPiece, Harms, NextMark, HandlerInStep, PieceOrSyn, Expects;
    if events == [] {
      finished := false;
      IdleIsInStep(w, stream, base);
    } else {
      var before, e := events[..|events| - 1], events[|events| - 1];
      finished := ShortRunDelivers(w, before, stream, base);
      var v := After(w, before);
      if e.Arrive? {
        ExpectsConnected(v.connection, stream, base, Mark(|v.connection.forwarded|, finished));
        ShortIsNear(e.frame, stream, base, |v.connection.forwarded|);
      }
      NextDelivers(v, e, stream, base, finished);
      finished := NextMark(v, e, Mark(|v.connection.forwarded|, finished)).finished;
    }
  }

  lemma {:induction false} PrefixIsPossible(w: World, events: seq<Event>, n: nat)
    requires Possible(w, events) && n <= |events|
    ensures Possible(w, events[..n]) && (Harmless(w, events) ==> Harmless(w, events[..n]))
    decreases |events|
  {
    hide Harms, Next;
    if n == |events| {
      assert events[..n] == events;
    } else {
      var before := events[..|events| - 1];
      PrefixIsPossible(w, before, n);
      assert before[..n] == events[..n];
    }
  }

  /** The first event that harms. */
  lemma {:induction false} FirstHarm(w: World, events: seq<Event>) returns (n: nat)
    requires Possible(w, events) && !Harmless(w, events)
    ensures n < |events| && Possible(w, events[..n]) && Harmless(w, events[..n])
    ensures Enabled(After(w, events[..n]), events[n]) && Harms(After(w, events[..n]), events[n])
    decreases |events|
  {
    hide Harms, Next;
    var before := events[..|events| - 1];
    if Harmless(w, before) {
      n := |events| - 1;
    } else {
      n := FirstHarm(w, before);
      assert before[..n] == events[..n];
    }
  }

  /** After the first n events the host has exactly what is acknowledged. */
  ghost predicate DeliversAt(w: World, events: seq<Event>, n: nat, stream: seq<byte>, base: nat)
    requires Possible(w, events) && n <= |events|
  {
    PrefixIsPossible(w, events, n);
    DeliversSomehow(After(w, events[..n]), stream, base)
  }

  ghost predicate AlwaysDelivers(w: World, events: seq<Event>, stream: seq<byte>, base: nat)
    requires Possible(w, events)
  {
    forall n: nat | n <= |events| :: DeliversAt(w, events, n, stream, base)
  }

  /** For a stream shorter than the sequence space, with its SYN repeated anywhere: at every moment of
      a run the host has a prefix that is exactly acknowledged, if and only if no SYN came
      after something had been forwarded and no data was taken after a FIN closed the writer. */
  lemma EveryRunDeliversExactly(w: World, before: seq<Event>, syn: Frame, events: seq<Event>, stream: seq<byte>)
    requires Opened(w, before, syn) && Possible(w, events)
    requires AllPieces(events, stream, syn.seqNumber + 1) && |stream| + 1 < SEQUENCE_SPACE
    ensures AlwaysDelivers(w, events, stream, syn.seqNumber + 1) <==> Harmless(w, events)
  {
    hide Next, Opened, Delivers, Harms, PieceOrSyn;
    var base := syn.seqNumber + 1;
    SynStartsDelivery(w, before, syn, stream);
    if Harmless(w, events) {
      forall n: nat | n <= |events| ensures DeliversAt(w, events, n, stream, base) {
        PrefixIsPossible(w, events, n);
        var finished := ShortRunDelivers(w, events[..n], stream, base);
      }
    } else {
      var n := FirstHarm(w, events);
      var finished := ShortRunDelivers(w, events[..n], stream, base);
      HarmBreaksDelivery(After(w, events[..n]), events[n], stream, base, finished);
      PrefixIsPossible(w, events, n + 1);
      assert events[..n + 1][..n] == events[..n];
      assert !DeliversAt(w, events, n + 1, stream, base);
    }
  }

  // ---------- A late SYN is never made up ----------

  predicate NoneLost(w: World, events: seq<Event>)
    requires Possible(w, events)
  {
    events == [] ||
    var before := events[..|events| - 1];
    NoneLost(w, before) && !LosesData(After(w, before), events[|events| - 1])
  }

  /** More was forwarded than the place the guest is held to have reached. */
  ghost predicate Lags(w: World, stream: seq<byte>, base: nat, m: Mark) {
    && Expects(w.connection, stream, base, m) && HandlerInStep(w, stream, base, m.reached)
    && m.reached < |w.connection.forwarded|
  }

  lemma NextLags(w: World, e: Event, stream: seq<byte>, base: nat, m: Mark)
    requires Enabled(w, e) && (e.Arrive? ==> PieceOrSyn(e.frame, stream, base)) && |stream| + 1 < SEQUENCE_SPACE
    requires Expects(w.connection, stream, base, m) && HandlerInStep(w, stream, base, m.reached) && !LosesData(w, e)
    requires Lags(w, stream, base, m) || RepeatsSynLate(w, e)
    ensures Lags(Next(w, e), stream, base, NextMark(w, e, m))
  {
    hide Next, Expects, IsPiece, HandlerInStep, PieceOrSyn;
    ExpectsConnected(w.connection, stream, base, m);
    if e.Arrive? {
      ShortIsNear(e.frame, stream, base, m.reached);
    }
    NextExpects(w, e, stream, base, m);
  }

  lemma {:induction false} RunLags(w: World, events: seq<Event>, stream: seq<byte>, base: nat) returns (m: Mark)
    requires Delivers(w, stream, base, false) && w.handler.Idle? && |stream| + 1 < SEQUENCE_SPACE
    requires Possible(w, events) && AllPieces(events, stream, base) && NoneLost(w, events) && !Harmless(w, events)
    ensures Lags(After(w, events), stream, base, m)
    decreases |events|
  {
    hide Next, RepeatsSynLate, LosesData, NextMark, PieceOrSyn, Expects, HandlerInStep;
    var before, e := events[..|events| - 1], events[|events| - 1];
    var v := After(w, before);
    if Harmless(w, before) {
      var finished := ShortRunDelivers(w, before, stream, base);
      m := Mark(|v.connection.forwarded|, finished);
    } else {
      m := RunLags(w, before, stream, base);
    }
    NextLags(v, e, stream, base, m);
    m := NextMark(v, e, m);
  }

  /** As long as no data is lost, the end of a run tells it too: the host has exactly what is
      acknowledged if and only if no SYN came after something had been forwarded. */
  lemma LateSynIsNeverMadeUp(w: World, before: seq<Event>, syn: Frame, events: seq<Event>, stream: seq<byte>)
    requires Opened(w, before, syn) && Possible(w, events) && NoneLost(w, events)
    requires AllPieces(events, stream, syn.seqNumber + 1) && |stream| + 1 < SEQUENCE_SPACE
    ensures DeliversSomehow(After(w, events), stream, syn.seqNumber + 1) <==> Harmless(w, events)
  {
    hide Next, After, Opened, Delivers, AllPieces, Harmless, NoneLost, Possible;
    var base := syn.seqNumber + 1;
    SynStartsDelivery(w, before, syn, stream);
    if Harmless(w, events) {
      var finished := ShortRunDelivers(w, events, stream, base);
    } else {
      var m := RunLags(w, events, stream, base);
      LagIsNoDelivery(After(w, events), stream, base, m);
    }
  }

  lemma LagIsNoDelivery(w: World, stream: seq<byte>, base: nat, m: Mark)
    requires Lags(w, stream, base, m) && |stream| + 1 < SEQUENCE_SPACE
    ensures !DeliversSomehow(w, stream, base)
  {
    hide HandlerInStep;
    OtherPlaceIsNoDelivery(w, stream, base, m);
  }

  /** A frame at the next place is taken as a whole: until a FIN closes the writer, every in-order
      piece makes progress. */
  lemma InOrderPieceIsForwarded(w: World, stream: seq<byte>, base: nat, frame: Frame)
    requires Delivers(w, stream, base, false) && !w.connection.hostClosed
    requires CutFrom(frame, stream, base, |w.connection.forwarded|) && frame.data != []
    requires w.handler == Inside(frame, 1)
    ensures Next(w, Continue).connection.forwarded == w.connection.forwarded + frame.data
  {
  }

  /** All blocks of one frame, one after the other. */
  function WholeFrame(w: World, frame: Frame): World {
    var started := Arrived(w.(connection := w.connection.(guestKnown := true)), frame);
    if started.handler.Idle? then started
    else Continued(Continued(Continued(Continued(started, frame, 1), frame, 2), frame, 3), frame, 4)
  }

  /** The other way to lose a byte, in one conversation: after SYN, [7], a FIN ahead of its place and then
      [8], both bytes are acknowledged and the host has only the first. */
  lemma EarlyFinLosesData()
    ensures var syn, fin := Frame(0, 0, true, false, false, []), Frame(3, 0, false, false, true, []);
            var seven, eight := Frame(1, 0, false, false, false, [7]), Frame(2, 0, false, false, false, [8]);
            var p := WholeFrame(WholeFrame(WholeFrame(WholeFrame(BEGINNING, syn), seven), fin), eight).connection;
            CutFrom(fin, [7, 8], 1, 2) && p.forwarded == [7] && p.guestNext == 3 && p.hostClosed
  {
    hide WholeFrame;
    var a := WholeFrame(BEGINNING, Frame(0, 0, true, false, false, []));
    SynIsFirst();
    var seven, fin := Frame(1, 0, false, false, false, [7]), Frame(3, 0, false, false, true, []);
    FrameKeepsOrTakes(a, seven);
    var b := WholeFrame(a, seven);
    FrameKeepsOrTakes(b, fin);
    FrameKeepsOrTakes(WholeFrame(b, fin), Frame(2, 0, false, false, false, [8]));
  }

  lemma SynIsFirst()
    ensures var p := WholeFrame(BEGINNING, Frame(0, 0, true, false, false, [])).connection;
            p.connected && p.guestNext == 1 && p.forwarded == [] && !p.hostClosed
  {
    hide SendTcp;
  }

  /** What a frame with either data or FIN does to an open connection's guest side. */
  lemma FrameKeepsOrTakes(w: World, frame: Frame)
    requires w.connection.connected && !frame.syn && !frame.reset && (frame.data == [] <==> frame.fin)
    ensures var p, q := w.connection, WholeFrame(w, frame).connection;
            && q.connected && q.hostClosed == (p.hostClosed || frame.fin)
            && q.forwarded == p.forwarded + (if frame.seqNumber == p.guestNext && !p.hostClosed then frame.data else [])
            && q.guestNext == if frame.seqNumber == p.guestNext
                              then (p.guestNext + |frame.data| + (if frame.fin then 1 else 0)) % SEQUENCE_SPACE
                              else p.guestNext
  {
    hide SendTcp, SendHostPending, Reaches;
  }

  /** The first segment sent answers the first SYN, from the number the proxy starts at. */
  lemma FirstSynIsAnswered(syn: Frame)
    requires syn.syn && !syn.reset
    ensures Next(BEGINNING, Arrive(syn)).connection.sent
         == [Sent(0x6a00_0001, (syn.seqNumber + 1) % 0x1_0000_0000, 0x12, [])]
    ensures Next(BEGINNING, Arrive(syn)).connection.serverNext == 0x6a00_0002
  {
  }

  // ---------- Every piece and FIN is answered ----------

  /** A bare acknowledgment of a number. */
  predicate Acks(s: Sent, number: nat) {
    s.flags == 0x10 && s.payload == [] && s.ackNumber == number
  }

  /** A segment sent since `first` acknowledges the number expected now. */
  ghost predicate Answered(p: Connection, first: nat) {
    exists i :: first <= i < |p.sent| && Acks(p.sent[i], p.guestNext)
  }

  /** The block after a frame's data and the block of its FIN each send exactly one bare
      acknowledgment of the number expected then, whether the piece was taken, a duplicate or out
      of order; the other blocks of a frame send none. */
  lemma BlockAcknowledges(w: World)
    requires w.handler.Inside? && w.connection.guestKnown && w.handler.next >= 1
    ensures var p, q, frame := w.connection, Next(w, Continue).connection, w.handler.frame;
            if (w.handler.next == 2 && frame.data != []) || (w.handler.next == 3 && frame.fin) then
              && |q.sent| == |p.sent| + 1 && q.sent[..|p.sent|] == p.sent
              && Acks(q.sent[|p.sent|], q.guestNext) && q.sent[|p.sent|].seqNumber == p.serverNext
              && q.serverNext == p.serverNext && q.unackedEnd == p.unackedEnd
            else q.sent == p.sent
  {
  }

  /** Inside a frame: once its data has been answered, and again its FIN, nothing changes that. */
  ghost predicate AnsweredSoFar(w: World, frame: Frame, first: nat) {
    && w.connection.guestKnown && first <= |w.connection.sent|
    && (w.handler.Inside? ==>
          && w.handler.frame == frame && w.handler.next >= 1
          && ((w.handler.next >= 3 && frame.data != []) || (w.handler.next >= 4 && frame.fin) ==> Answered(w.connection, first)))
    && (w.handler.Idle? ==> Answered(w.connection, first))
  }

  lemma StaysAnswered(p: Connection, q: Connection, first: nat)
    requires Answered(p, first) && p.sent <= q.sent && q.guestNext == p.guestNext
    ensures Answered(q, first)
  {
    var i :| first <= i < |p.sent| && Acks(p.sent[i], p.guestNext);
    assert Acks(q.sent[i], q.guestNext);
  }

  lemma ContinuingAnswers(w: World, frame: Frame, first: nat)
    requires AnsweredSoFar(w, frame, first) && w.handler.Inside? && (frame.data != [] || frame.fin)
    ensures AnsweredSoFar(Next(w, Continue), frame, first)
  {
    hide SendTcp, Answered;
    var p, q, next := w.connection, Next(w, Continue).connection, w.handler.next;
    BlockAcknowledges(w);
    if (next == 2 && frame.data != []) || (next == 3 && frame.fin) {
      LastAnswers(q, first);
    } else if next >= 3 && (frame.data != [] || next >= 4) {
      StaysAnswered(p, q, first);
    }
  }

  lemma LastAnswers(q: Connection, first: nat)
    requires first < |q.sent| && Acks(q.sent[|q.sent| - 1], q.guestNext)
    ensures Answered(q, first)
  {
  }

  lemma HostSideAnswers(w: World, e: Event, frame: Frame, first: nat)
    requires AnsweredSoFar(w, frame, first) && (e.Read? || e.End?) && Enabled(w, e)
    ensures AnsweredSoFar(Next(w, e), frame, first)
  {
    hide SendHostPending, Answered;
    if Answered(w.connection, first) {
      StaysAnswered(w.connection, Next(w, e).connection, first);
    }
  }

  lemma {:induction false} HandlingAnswers(w: World, frame: Frame, events: seq<Event>)
    requires Possible(w, [Arrive(frame)] + events) && forall i | 0 <= i < |events| :: !events[i].Arrive?
    requires !frame.syn && !frame.reset && (frame.data != [] || frame.fin)
    ensures AnsweredSoFar(After(w, [Arrive(frame)] + events), frame, |w.connection.sent|)
    decreases |events|
  {
    hide Next, Answered;
    var all := [Arrive(frame)] + events;
    if events == [] {
      assert all[..0] == [] && all == [Arrive(frame)];
      ArrivingAnswersLater(w, frame);
    } else {
      assert all[..|all| - 1] == [Arrive(frame)] + events[..|events| - 1];
      HandlingAnswers(w, frame, events[..|events| - 1]);
      var v := After(w, [Arrive(frame)] + events[..|events| - 1]);
      match events[|events| - 1] {
        case Continue => ContinuingAnswers(v, frame, |w.connection.sent|);
        case Read(data) => HostSideAnswers(v, Read(data), frame, |w.connection.sent|);
        case End => HostSideAnswers(v, End, frame, |w.connection.sent|);
      }
    }
  }

  lemma ArrivingAnswersLater(w: World, frame: Frame)
    requires Enabled(w, Arrive(frame)) && !frame.syn && !frame.reset
    ensures AnsweredSoFar(Next(w, Arrive(frame)), frame, |w.connection.sent|)
  {
    hide SendTcp, SendHostPending, Reaches;
  }

  /** Whenever a frame with data or FIN has been dealt with, with the host reader interleaved
      anywhere, some segment sent since it arrived acknowledges the place reached by then. */
  lemma FinishedFrameIsAnswered(w: World, frame: Frame, events: seq<Event>)
    requires Possible(w, [Arrive(frame)] + events) && forall i | 0 <= i < |events| :: !events[i].Arrive?
    requires !frame.syn && !frame.reset && (frame.data != [] || frame.fin)
    requires After(w, [Arrive(frame)] + events).handler.Idle?
    ensures Answered(After(w, [Arrive(frame)] + events).connection, |w.connection.sent|)
  {
    hide Next, Answered, After;
    HandlingAnswers(w, frame, events);
  }

  /** An acknowledgment of everything sent lets the next bytes go at once: the first 1200 that wait. */
  lemma AckReleasesNext(w: World, frame: Frame)
    requires Conserves(w, true) && w.connection.connected && w.connection.unackedEnd == Some(frame.ackNumber)
    requires w.handler.Idle? && !frame.syn && !frame.reset && w.connection.hostPending != []
    ensures var p, q := w.connection, Next(w, Arrive(frame)).connection;
            && |q.sent| == |p.sent| + 1 && q.sent[..|p.sent|] == p.sent
            && q.sent[|p.sent|].payload == p.hostPending[..Min(1200, |p.hostPending|)]
            && q.sent[|p.sent|].seqNumber == frame.ackNumber
            && q.hostPending == p.hostPending[Min(1200, |p.hostPending|)..]
  {
    hide Payloads, Position, Consuming, PhaseOf, Numbered;
    var n := Min(1200, |w.connection.hostPending|);
    assert Reaches(frame.ackNumber, frame.ackNumber);
  }

  /** Data at number 0 that comes before the SYN waits, and the first SYN forwards what waited. */
  lemma EarlyDataWaitsForTheSyn(w: World, syn: Frame)
    requires w.handler.Idle? && syn.syn && !syn.reset && !w.connection.connected
    ensures Next(w, Arrive(syn)).connection.forwarded == w.connection.forwarded + w.connection.guestPending
    ensures Next(w, Arrive(syn)).connection.guestPending == []
  {
    hide SendTcp;
  }

  lemma EarlyDataIsKept(w: World)
    requires w.handler.Inside? && w.handler.next == 1 && w.handler.frame.data != [] && !w.connection.connected
    ensures var p, frame := w.connection, w.handler.frame;
            Next(w, Continue).connection.guestPending
            == p.guestPending + (if frame.seqNumber == p.guestNext then frame.data else [])
  {
  }

  // ---------- The proxy as it runs ----------

  /** Each method is what runs up to the next wait. */
  class NetworkProxy {
    var hostPending: seq<byte>
    var guestPending: seq<byte>
    var guestNext: nat
    var serverNext: nat
    var serverUnackedEnd: Option<nat>
    var hostEof: bool
    var finSent: bool
    var guestKnown: bool
    var connected: bool
    var hostClosed: bool
    var sent: seq<Sent>
    var forwarded: seq<byte>

    ghost function View(): Connection
      reads this
    {
      Connection(hostPending, guestPending, guestNext, serverNext, serverUnackedEnd, hostEof, finSent,
                 guestKnown, connected, hostClosed, sent, forwarded)
    }

    constructor ()
      ensures View() == START
    {
      hostPending, guestPending, sent, forwarded := [], [], [], [];
      guestNext, serverNext, serverUnackedEnd := 0, INITIAL_SEQUENCE, None;
      hostEof, finSent, guestKnown, connected, hostClosed := false, false, false, false, false;
    }

    method SendSegment(flags: nat, payload: seq<byte>)
      modifies this
      ensures View() == SendTcp(old(View()), flags, payload)
    {
      if !guestKnown {
        return;
      }
      var segment := Sent(serverNext, guestNext, flags, payload);
      var consumed: nat := |payload|;
      if flags / 2 % 2 == 1 {
        consumed := consumed + 1;
      }
      if flags % 2 == 1 {
        consumed := consumed + 1;
      }
      if consumed != 0 {
        serverNext := (serverNext + consumed) % SEQUENCE_SPACE;
        serverUnackedEnd := Some(serverNext);
      }
      sent := sent + [segment];
    }

    method TrySendHostPending()
      modifies this
      ensures View() == SendHostPending(old(View()))
    {
      if serverUnackedEnd.Some? {
        return;
      }
      if hostPending != [] {
        var chunk := hostPending[..Min(CHUNK, |hostPending|)];
        hostPending := hostPending[|chunk|..];
        SendSegment(PUSH_ACK, chunk);
      } else if hostEof && !finSent {
        finSent := true;
        SendSegment(FIN_ACK, []);
      }
    }

    method HostDataRead(data: seq<byte>)
      modifies this
      ensures View() == HostRead(old(View()), data)
    {
      hostPending := hostPending + data;
      TrySendHostPending();
    }

    method HostStreamEnded()
      modifies this
      ensures View() == HostEnded(old(View()))
    {
      hostEof := true;
      TrySendHostPending();
    }

    method HandleSyn(seqNumber: nat)
      modifies this
      ensures View() == SynHandled(old(View()), seqNumber)
    {
      hide SendTcp;
      assert forwarded + [] == forwarded;
      guestNext := (seqNumber + 1) % SEQUENCE_SPACE;
      if !connected {
        connected := true;
        if guestPending != [] {
          forwarded := forwarded + guestPending;
          guestPending := [];
        }
      }
      SendSegment(SYN_ACK, []);
    }

    method HandleAck(ack: nat)
      modifies this
      ensures View() == AckHandled(old(View()), ack)
    {
      if serverUnackedEnd.Some? {
        var distance := (ack - serverUnackedEnd.value) % SEQUENCE_SPACE;
        if ack == serverUnackedEnd.value || distance < HALF_SPACE {
          serverUnackedEnd := None;
          TrySendHostPending();
        }
      }
    }

    method HandleData(seqNumber: nat, data: seq<byte>)
      modifies this
      ensures View() == DataTaken(old(View()), seqNumber, data)
    {
      if seqNumber == guestNext {
        guestNext := (guestNext + |data|) % SEQUENCE_SPACE;
        if !connected {
          guestPending := guestPending + data;
        } else if !hostClosed {
          forwarded := forwarded + data;
        }
      }
    }

    method SendAck()
      modifies this
      ensures View() == Acknowledged(old(View()))
    {
      SendSegment(ACK, []);
    }

    method HandleFin(seqNumber: nat)
      modifies this
      ensures View() == FinTaken(old(View()), seqNumber)
    {
      if seqNumber == guestNext {
        guestNext := (guestNext + 1) % SEQUENCE_SPACE;
      }
      SendAck();
    }

    /** A whole frame when nothing else runs meanwhile. */
    method HandleTcp(frame: Frame)
      modifies this
      ensures View() == WholeFrame(World(old(View()), Idle, [], 0), frame).connection
    {
      hide SendTcp, SendHostPending, AckHandled, DataTaken, Acknowledged, FinTaken, SynHandled;
      guestKnown := true;
      if frame.reset {
        return;
      }
      if frame.syn {
        HandleSyn(frame.seqNumber);
        return;
      }
      HandleAck(frame.ackNumber);
      if frame.data != [] {
        HandleData(frame.seqNumber, frame.data);
        SendAck();
      }
      if frame.fin {
        HandleFin(frame.seqNumber);
        if connected {
          hostClosed := true;
        }
      }
    }
  }
}
