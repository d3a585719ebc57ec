/** Receiving over TCP: one asynchronous receive at a time into a fixed buffer, drained by the
    SSH library in pieces of any size. */
module Tcp4 {
  import opened Basics

  const RX_CAPACITY: nat := 16384

  /** Firmware status codes this code tells apart. All but Success are errors. */
  datatype Status = Success | NotReady | ConnectionFin | ConnectionReset | OtherError

  /** How the firmware completes a receive: with bytes, or with an error (end of stream is one). */
  datatype Completion = Arrived(bytes: seq<byte>) | Failed(status: Status)
  {
    predicate Possible() {
      if Arrived? then |bytes| <= RX_CAPACITY else status != Success && status != NotReady
    }
  }

  /** What the receive callback answers the SSH library. */
  datatype Answer = Bytes(data: seq<byte>) | ConnectionClosed | ConnectionWasReset | GeneralError | WantRead

  /** The receive side of a socket. token* is what the firmware reported for the posted receive. */
  datatype Socket = Socket(
    active: bool, done: bool, tokenStatus: Status, tokenLength: nat,
    buffer: seq<byte>, offset: nat, length: nat,
    endOfStream: bool, lastStatus: Status)
  {
    predicate Valid() {
      && |buffer| == RX_CAPACITY && offset <= length <= RX_CAPACITY && tokenLength <= RX_CAPACITY
      && (active ==> offset == 0 && length == 0 && !endOfStream)
      && (active && done ==> tokenStatus != NotReady)
    }

    /** A receive is with the firmware. */
    predicate Outstanding() {
      active && !done
    }

    /** Bytes the firmware delivered and nobody has been given yet. */
    function Pending(): seq<byte>
      requires Valid()
    {
      if active && done && tokenStatus == Success then buffer[..tokenLength]
      else buffer[offset..length]
    }
  }

  /** PostReceive; `accepted` is the firmware's answer, when it is asked at all. */
  function Posted(s: Socket, accepted: Status): (t: Socket)
    requires s.Valid() && s.offset == s.length
    ensures t.Valid()
  {
    if s.active || s.endOfStream then s
    else s.(done := false, offset := 0, length := 0, tokenStatus := NotReady, tokenLength := RX_CAPACITY,
            active := accepted == Success)
  }

  /** The answer of PostReceive. */
  function PostStatus(s: Socket, accepted: Status): Status {
    if s.active || s.endOfStream then Success else accepted
  }

  function Finished(s: Socket): (t: Socket)
    requires s.Valid()
    ensures t.Valid()
  {
    if !s.active || !s.done then s
    else
      var t := s.(active := false, lastStatus := s.tokenStatus);
      if s.tokenStatus == ConnectionFin then t.(endOfStream := true)
      else if s.tokenStatus != Success then t
      else t.(offset := 0, length := s.tokenLength)
  }

  /** The next n unread bytes are taken; taking the last one posts the next receive. */
  function Drained(s: Socket, n: nat, accepted: Status): (t: Socket)
    requires s.Valid() && s.offset + n <= s.length
    ensures t.Valid()
  {
    if s.offset + n < s.length then s.(offset := s.offset + n)
    else
      var empty := s.(offset := 0, length := 0);
      var posted := Posted(empty, accepted);
      if PostStatus(empty, accepted) != Success then posted.(lastStatus := accepted) else posted
  }

  /** The receive callback for a request of size bytes. */
  function Received(s: Socket, size: nat, accepted: Status): (result: (Socket, Answer))
    requires s.Valid() && size > 0
    ensures result.0.Valid()
  {
    var t := Finished(s);
    if t.length > t.offset then
      var n := Min(size, t.length - t.offset);
      (Drained(t, n, accepted), Bytes(t.buffer[t.offset..t.offset + n]))
    else if t.endOfStream then (t, ConnectionClosed)
    else if t.lastStatus != Success && t.lastStatus != NotReady then
      (t, if t.lastStatus == ConnectionReset then ConnectionWasReset else GeneralError)
    else if !t.active then
      (Posted(t, accepted), if PostStatus(t, accepted) != Success then GeneralError else WantRead)
    else (t, WantRead)
  }

  /** The firmware completes the outstanding receive. */
  function Completed(s: Socket, c: Completion): (t: Socket)
    requires s.Valid() && s.Outstanding() && c.Possible()
    ensures t.Valid()
  {
    match c
    case Arrived(bytes) =>
      s.(done := true, tokenStatus := Success, tokenLength := |bytes|, buffer := bytes + s.buffer[|bytes|..])
    case Failed(status) => s.(done := true, tokenStatus := status)
  }

  /** A socket before its first receive. */
  function Fresh(buffer: seq<byte>): (s: Socket)
    requires |buffer| == RX_CAPACITY
    ensures s.Valid() && s.Pending() == []
  {
    Socket(false, false, Success, 0, buffer, 0, 0, false, Success)
  }

  // ---------- The socket is a queue of bytes ----------

  /** Harvesting a completed receive moves bytes, it never gains or loses one. */
  lemma FinishingKeepsPending(s: Socket)
    requires s.Valid()
    ensures Finished(s).Pending() == s.Pending()
  {
  }

  /** The callback hands out the oldest pending bytes: as many as were asked for, or all there
      are, and none exactly when nothing is pending. */
  lemma ReceivingDequeues(s: Socket, size: nat, accepted: Status)
    requires s.Valid() && size > 0
    ensures var (t, answer) := Received(s, size, accepted);
            if s.Pending() != [] then
              answer == Bytes(s.Pending()[..Min(size, |s.Pending()|)])
              && t.Pending() == s.Pending()[Min(size, |s.Pending()|)..]
            else !answer.Bytes? && t.Pending() == []
  {
    hide Finished, Drained;
    var t := Finished(s);
    FinishingKeepsPending(s);
    HarvestLeavesNone(s);
    if t.length > t.offset {
      var n := Min(size, t.length - t.offset);
      DrainingDequeues(t, n, accepted);
      assert t.buffer[t.offset..t.length][..n] == t.buffer[t.offset..t.offset + n];
      assert t.buffer[t.offset..t.length][n..] == t.buffer[t.offset + n..t.length];
      assert t.buffer[t.offset..t.length] != [];
    } else {
      assert t.buffer[t.offset..t.length] == [];
    }
  }

  lemma HarvestLeavesNone(s: Socket)
    requires s.Valid()
    ensures var t := Finished(s);
            !(t.active && t.done) && t.Pending() == t.buffer[t.offset..t.length]
  {
  }

  lemma DrainingDequeues(s: Socket, n: nat, accepted: Status)
    requires s.Valid() && !(s.active && s.done) && s.offset < s.length && s.offset + n <= s.length
    ensures Drained(s, n, accepted).Pending() == s.buffer[s.offset + n..s.length]
  {
  }

  /** Completing a receive enqueues what it brought; nothing was pending before. */
  lemma CompletingEnqueues(s: Socket, c: Completion)
    requires s.Valid() && s.Outstanding() && c.Possible()
    ensures s.Pending() == [] && Completed(s, c).Pending() == if c.Arrived? then c.bytes else []
  {
  }

  /** What the answers other than bytes mean, and what they leave behind. */
  lemma AnswersMean(s: Socket, size: nat, accepted: Status)
    requires s.Valid() && size > 0
    ensures var (t, answer) := Received(s, size, accepted);
            && (answer.WantRead? ==> t.Outstanding())
            && (answer.ConnectionClosed? <==> s.Pending() == [] && Finished(s).endOfStream)
            && (answer.ConnectionClosed? ==> t.endOfStream && !t.active)
            && (t.endOfStream <==> Finished(s).endOfStream)
            && (t.Outstanding() && !s.Outstanding() ==> t.offset == t.length == 0 && !t.endOfStream)
  {
  }

  // ---------- Runs ----------

  datatype Event =
    | Complete(completion: Completion)  // the firmware, whenever it likes
    | Poll                              // WolfSshTcp4Poll between callbacks
    | Receive(size: nat, accepted: Status)

  /** A socket with everything the firmware delivered to it, everything it returned, and the
      receives the firmware holds. */
  datatype World = World(socket: Socket, delivered: seq<byte>, returned: seq<byte>, held: nat, closed: bool)

  predicate Enabled(w: World, e: Event)
    requires w.socket.Valid()
  {
    match e
    case Complete(c) => w.socket.Outstanding() && c.Possible()
    case Poll => true
    case Receive(size, _) => size > 0
  }

  function Next(w: World, e: Event): (v: World)
    requires w.socket.Valid() && Enabled(w, e)
    ensures v.socket.Valid()
  {
    match e
    case Complete(c) =>
      World(Completed(w.socket, c), w.delivered + (if c.Arrived? then c.bytes else []), w.returned,
            if w.held > 0 then w.held - 1 else 0, w.closed)
    case Poll => w.(socket := Finished(w.socket))
    case Receive(size, accepted) =>
      var (t, answer) := Received(w.socket, size, accepted);
      World(t, w.delivered, w.returned + (if answer.Bytes? then answer.data else []),
            if Asks(w.socket, size) && accepted == Success then w.held + 1 else w.held,
            w.closed || answer.ConnectionClosed?)
  }

  /** The callback calls the firmware's Receive. */
  predicate Asks(s: Socket, size: nat)
    requires s.Valid() && size > 0
  {
    var t := Finished(s);
    !t.active && !t.endOfStream &&
    (if t.length > t.offset then size >= t.length - t.offset
     else t.lastStatus == Success || t.lastStatus == NotReady)
  }

  predicate Possible(w: World, events: seq<Event>)
    requires w.socket.Valid()
    decreases |events|, 0
  {
    events == [] ||
    (Possible(w, events[..|events| - 1]) && Enabled(After(w, events[..|events| - 1]), events[|events| - 1]))
  }

  function After(w: World, events: seq<Event>): (v: World)
    requires w.socket.Valid() && Possible(w, events)
    ensures v.socket.Valid()
    decreases |events|, 1
  {
    if events == [] then w else Next(After(w, events[..|events| - 1]), events[|events| - 1])
  }

  /** Nothing lost, nothing duplicated, nothing reordered; at most one receive with the
      firmware; and once closed was answered, everything delivered had been returned. */
  predicate Exact(w: World)
    requires w.socket.Valid()
  {
    && w.delivered == w.returned + w.socket.Pending()
    && w.held == (if w.socket.Outstanding() then 1 else 0)
    && (w.closed ==> w.socket.endOfStream && w.returned == w.delivered)
  }

  lemma NextIsExact(w: World, e: Event)
    requires w.socket.Valid() && Exact(w) && Enabled(w, e)
    ensures Exact(Next(w, e))
  {
    hide Received, Completed, Finished, Socket.Pending, Asks;
    EndStays(w.socket, e);
    match e
    case Complete(c) => CompletingEnqueues(w.socket, c);
    case Poll => FinishingKeepsPending(w.socket);
    case Receive(size, accepted) =>
      ReceivingDequeues(w.socket, size, accepted);
      AnswersMean(w.socket, size, accepted);
      HeldIsOutstanding(w.socket, size, accepted);
  }

  lemma EndStays(s: Socket, e: Event)
    requires s.Valid() && Enabled(World(s, [], [], 0, false), e)
    ensures match e
            case Complete(c) => !s.endOfStream && !Completed(s, c).Outstanding()
            case Poll => (s.endOfStream ==> Finished(s).endOfStream) && (Finished(s).Outstanding() <==> s.Outstanding())
            case Receive(_, _) => s.endOfStream ==> Finished(s).endOfStream && s.Pending() == Finished(s).Pending()
  {
  }

  lemma HeldIsOutstanding(s: Socket, size: nat, accepted: Status)
    requires s.Valid() && size > 0
    ensures var t := Received(s, size, accepted).0;
            if Asks(s, size) && accepted == Success then t.Outstanding() && !s.Outstanding()
            else t.Outstanding() <==> s.Outstanding()
  {
  }

  /** Over every run from a new socket, with completions at any moments. */
  lemma {:induction false} EveryRunIsExact(buffer: seq<byte>, events: seq<Event>)
    requires |buffer| == RX_CAPACITY && Possible(World(Fresh(buffer), [], [], 0, false), events)
    ensures Exact(After(World(Fresh(buffer), [], [], 0, false), events))
    decreases |events|
  {
    if events != [] {
      EveryRunIsExact(buffer, events[..|events| - 1]);
      NextIsExact(After(World(Fresh(buffer), [], [], 0, false), events[..|events| - 1]), events[|events| - 1]);
    }
  }

  /** The end is final: once the stream has ended nothing is delivered or posted any more. */
  lemma EndIsFinal(w: World, e: Event)
    requires w.socket.Valid() && Exact(w) && w.socket.endOfStream && Enabled(w, e)
    ensures var v := Next(w, e); v.socket.endOfStream && v.delivered == w.delivered && v.held == 0
  {
  }

  // ---------- How a connection ends ----------

  /** What the callback answers once a receive has failed with a status. */
  function Verdict(status: Status): Answer {
    match status
    case ConnectionFin => ConnectionClosed
    case ConnectionReset => ConnectionWasReset
    case _ => GeneralError
  }

  /** A receive failed with a status, whether that was harvested yet or not. */
  predicate FailedWith(s: Socket, status: Status) {
    && s.Valid() && s.offset == s.length
    && if s.active then s.done && s.tokenStatus == status
       else if status == ConnectionFin then s.endOfStream else !s.endOfStream && s.lastStatus == status
  }

  /** A failed receive is answered by its verdict, now and for ever after: nothing is posted, and
      the firmware has nothing left to complete. */
  lemma FailureIsFinal(s: Socket, status: Status, size: nat, accepted: Status)
    requires FailedWith(s, status) && size > 0 && status != Success && status != NotReady
    ensures Received(s, size, accepted).1 == Verdict(status)
    ensures FailedWith(Received(s, size, accepted).0, status) && FailedWith(Finished(s), status) && !s.Outstanding()
  {
  }

  lemma FailureFails(s: Socket, status: Status)
    requires s.Valid() && s.Outstanding() && Failed(status).Possible()
    ensures FailedWith(Completed(s, Failed(status)), status)
  {
  }

  /** The firmware failed a receive with the status, or refused one with it. */
  predicate Causes(e: Event, status: Status) {
    e == Complete(Failed(status)) || (e.Receive? && e.accepted == status)
  }

  ghost predicate Caused(events: seq<Event>, status: Status) {
    exists i :: 0 <= i < |events| && Causes(events[i], status)
  }

  lemma StillCaused(events: seq<Event>, e: Event, status: Status)
    requires events != [] && Caused(events[..|events| - 1], status)
    ensures Caused(events, status)
  {
    var before := events[..|events| - 1];
    var i :| 0 <= i < |before| && Causes(before[i], status);
    assert Causes(events[i], status);
  }

  /** What a socket remembers of its end. */
  ghost predicate Remembers(s: Socket, events: seq<Event>) {
    && (s.endOfStream ==> Complete(Failed(ConnectionFin)) in events)
    && (s.active && s.done && s.tokenStatus != Success ==> Complete(Failed(s.tokenStatus)) in events)
    && (s.lastStatus != Success ==> Caused(events, s.lastStatus))
  }

  lemma NextRemembers(w: World, events: seq<Event>, e: Event)
    requires w.socket.Valid() && Remembers(w.socket, events) && Enabled(w, e)
    ensures Remembers(Next(w, e).socket, events + [e])
  {
    var all, s, t := events + [e], w.socket, Next(w, e).socket;
    assert e in all && all[..|all| - 1] == events;
    if s.lastStatus != Success {
      StillCaused(all, e, s.lastStatus);
    }
    if t.lastStatus != Success && t.lastStatus != s.lastStatus {
      if s.active && s.done && t.lastStatus == s.tokenStatus {
        var i :| 0 <= i < |events| && events[i] == Complete(Failed(s.tokenStatus));
        assert Causes(all[i], t.lastStatus);
      } else {
        assert Causes(all[|events|], t.lastStatus);
      }
    }
  }

  /** Over every run: the end of the stream is answered only after the firmware reported it, and a
      failure only after the firmware failed or refused a receive with that status. */
  lemma {:induction false} EveryEndHasItsCause(buffer: seq<byte>, events: seq<Event>)
    requires |buffer| == RX_CAPACITY && Possible(World(Fresh(buffer), [], [], 0, false), events)
    ensures Remembers(After(World(Fresh(buffer), [], [], 0, false), events).socket, events)
    decreases |events|
  {
    hide Next, Remembers;
    if events == [] {
      FreshRemembers(buffer);
    } else {
      var before, e := events[..|events| - 1], events[|events| - 1];
      EveryEndHasItsCause(buffer, before);
      NextRemembers(After(World(Fresh(buffer), [], [], 0, false), before), before, e);
      assert before + [e] == events;
    }
  }

  lemma FreshRemembers(buffer: seq<byte>)
    requires |buffer| == RX_CAPACITY
    ensures Remembers(Fresh(buffer), [])
  {
  }

  // ---------- The socket as it runs ----------

  class ReceiveSocket {
    const rxBuffer: array<byte>
    var rxActive: bool
    var rxDone: bool
    var tokenStatus: Status
    var dataLength: nat
    var rxOffset: nat
    var rxLength: nat
    var endOfStream: bool
    var lastRxStatus: Status

    ghost function View(): Socket
      reads this, rxBuffer
    {
      Socket(rxActive, rxDone, tokenStatus, dataLength, rxBuffer[..], rxOffset, rxLength, endOfStream, lastRxStatus)
    }

    ghost predicate Valid()
      reads this, rxBuffer
    {
      View().Valid()
    }

    constructor ()
      ensures Valid() && fresh(rxBuffer) && rxBuffer.Length == 16384 && View() == Fresh(rxBuffer[..])
    {
      rxBuffer := new byte[RX_CAPACITY];
      rxActive, rxDone, tokenStatus, dataLength := false, false, Success, 0;
      rxOffset, rxLength, endOfStream, lastRxStatus := 0, 0, false, Success;
    }

    /** The firmware's side of a poll: it may complete the outstanding receive, if there is one. */
    method FirmwarePoll(arrival: Option<Completion>)
      requires Valid() && (arrival.Some? ==> arrival.value.Possible())
      modifies this, rxBuffer
      ensures Valid()
      ensures View() == if arrival.Some? && old(View()).Outstanding() then Completed(old(View()), arrival.value) else old(View())
    {
      if arrival.Some? && rxActive && !rxDone {
        match arrival.value {
          case Arrived(bytes) =>
            ghost var before := rxBuffer[..];
            forall i | 0 <= i < |bytes| {
              rxBuffer[i] := bytes[i];
            }
            assert rxBuffer[..] == bytes + before[|bytes|..];
            tokenStatus, dataLength := Success, |bytes|;
          case Failed(status) =>
            tokenStatus := status;
        }
        rxDone := true;
      }
    }

    method PostReceive(accepted: Status) returns (status: Status)
      requires Valid() && rxOffset == rxLength
      modifies this
      ensures Valid() && View() == Posted(old(View()), accepted) && status == PostStatus(old(View()), accepted)
    {
      if rxActive || endOfStream {
        return Success;
      }
      rxDone := false;
      rxOffset := 0;
      rxLength := 0;
      dataLength := RX_CAPACITY;
      tokenStatus := NotReady;
      status := accepted;
      rxActive := status == Success;
    }

    method FinishReceive()
      requires Valid()
      modifies this
      ensures Valid() && View() == Finished(old(View()))
    {
      if !rxActive || !rxDone {
        return;
      }
      rxActive := false;
      lastRxStatus := tokenStatus;
      if lastRxStatus == ConnectionFin {
        endOfStream := true;
        return;
      }
      if lastRxStatus != Success {
        return;
      }
      rxOffset := 0;
      rxLength := dataLength;
    }

    /** The state after the firmware's part of a poll. */
    ghost function Polled(arrival: Option<Completion>): (s: Socket)
      requires Valid() && (arrival.Some? ==> arrival.value.Possible())
      reads this, rxBuffer
      ensures s.Valid()
    {
      if arrival.Some? && View().Outstanding() then Completed(View(), arrival.value) else View()
    }

    method Poll(arrival: Option<Completion>)
      requires Valid() && (arrival.Some? ==> arrival.value.Possible())
      modifies this, rxBuffer
      ensures Valid() && View() == Finished(old(Polled(arrival)))
    {
      FirmwarePoll(arrival);
      FinishReceive();
    }

    method Drain(n: nat, accepted: Status)
      requires Valid() && rxOffset + n <= rxLength
      modifies this
      ensures Valid() && View() == Drained(old(View()), n, accepted)
    {
      rxOffset := rxOffset + n;
      if rxOffset == rxLength {
        rxOffset := 0;
        rxLength := 0;
        var status := PostReceive(accepted);
        if status != Success {
          lastRxStatus := status;
        }
      }
    }

    /** The receive callback. `arrival` is what the firmware completes during its poll and
        `accepted` what it answers when a new receive is posted. */
    method RecvCallback(target: array?<byte>, size: nat, arrival: Option<Completion>, accepted: Status)
      returns (answer: Answer)
      requires Valid() && (arrival.Some? ==> arrival.value.Possible())
      requires target != null ==> size <= target.Length && target != rxBuffer
      modifies this, rxBuffer, target
      ensures Valid()
      ensures target == null || size == 0 ==> answer == GeneralError && View() == old(View())
      ensures target != null && size > 0 ==> (View(), answer) == Received(old(Polled(arrival)), size, accepted)
      ensures answer.Bytes? ==> target != null && 1 <= |answer.data| <= size && target[..|answer.data|] == answer.data
    {
      hide Drained, Posted, Completed, Finished;
      if target == null || size == 0 {
        return GeneralError;
      }
      Poll(arrival);
      if rxLength > rxOffset {
        var copyLength := Min(size, rxLength - rxOffset);
        var data := rxBuffer[rxOffset..rxOffset + copyLength];
        forall i | 0 <= i < copyLength {
          target[i] := data[i];
        }
        assert target[..copyLength] == data;
        Drain(copyLength, accepted);
        return Bytes(data);
      }
      if endOfStream {
        return ConnectionClosed;
      }
      if lastRxStatus != Success && lastRxStatus != NotReady {
        return if lastRxStatus == ConnectionReset then ConnectionWasReset else GeneralError;
      }
      if !rxActive {
        var status := PostReceive(accepted);
        if status != Success {
          return GeneralError;
        }
      }
      return WantRead;
    }
  }

  // ---------- Waiting with a time limit ----------

  const POLL_DELAY: nat := 50

  /** What polling a firmware token shows: the poll that completes it, if one does. */
  datatype Token = Token(completedBy: Option<nat>)
  {
    /** The token is complete once n polls have been made. */
    predicate Done(n: nat) {
      completedBy.Some? && completedBy.value <= n
    }
  }

  /** Polls made before a wait of `timeout` microseconds gives up. */
  function PollsIn(timeout: nat): nat {
    (timeout + 49) / 50 + 1
  }

  /** WaitForCompletion: succeeds exactly when the token completes within the polls the limit
      allows; giving up, it has stalled for exactly the limit. */
  method WaitForCompletion(token: Token, timeout: nat) returns (completed: bool, polls: nat, stalled: nat)
    ensures completed <==> token.Done(PollsIn(timeout))
    ensures completed ==> token.Done(polls) && forall n: nat | n < polls :: !token.Done(n)
    ensures stalled <= timeout && polls <= PollsIn(timeout)
    ensures !completed ==> stalled == timeout && polls == PollsIn(timeout)
  {
    var remaining: nat := timeout;
    polls, stalled := 0, 0;
    completed := true;
    while !token.Done(polls)
      invariant completed && stalled + remaining == timeout
      invariant forall n: nat | n < polls :: !token.Done(n)
      invariant polls + PollsIn(remaining) == PollsIn(timeout)
      decreases PollsIn(timeout) - polls
    {
      polls := polls + 1;
      if token.Done(polls) {
        break;
      }
      if remaining == 0 {
        completed := false;
        return;
      }
      var delay := if remaining < POLL_DELAY then remaining else POLL_DELAY;
      stalled := stalled + delay;
      remaining := remaining - delay;
    }
  }

  const CANCEL_TIMEOUT: nat := 1_000_000
  const IO_TIMEOUT: nat := 30_000_000

  /** CancelToken's loop after the cancel request: it polls until the token completes, for at
      most a second. */
  method AwaitCancel(token: Token) returns (polls: nat, stalled: nat)
    ensures polls == if token.Done(20000) then token.completedBy.value else 20000
    ensures stalled == polls * 50
  {
    var remaining: nat := CANCEL_TIMEOUT;
    polls, stalled := 0, 0;
    while !token.Done(polls) && remaining > 0
      invariant stalled == polls * POLL_DELAY && stalled + remaining == CANCEL_TIMEOUT
      invariant forall n: nat | n < polls :: !token.Done(n)
      decreases remaining
    {
      var delay := if remaining < POLL_DELAY then remaining else POLL_DELAY;
      polls := polls + 1;
      stalled := stalled + delay;
      remaining := remaining - delay;
    }
    if token.Done(CANCEL_TIMEOUT / POLL_DELAY) {
      assert token.Done(polls);
      assert polls > 0 ==> !token.Done(polls - 1);
    }
  }

  datatype SendAnswer = Sent(size: nat) | TimedOut | SendReset | SendError

  /** The send callback: one transmit, waited for with a limit; `accepted` is the firmware's
      answer to it and `final` the status its completion carries. */
  method SendCallback(size: nat, accepted: Status, token: Token, final: Status) returns (answer: SendAnswer)
    ensures answer.Sent? <==> size > 0 && accepted == Success && token.Done(600001) && final == Success
    ensures answer.Sent? ==> answer.size == size
    ensures answer.TimedOut? <==> size > 0 && accepted == Success && !token.Done(600001)
    ensures answer.SendReset? <==>
      size > 0 && accepted == Success && token.Done(600001) && final == ConnectionReset
  {
    if size == 0 || accepted != Success {
      return SendError;
    }
    var completed, _, _ := WaitForCompletion(token, IO_TIMEOUT);
    if !completed {
      var _, _ := AwaitCancel(token);
      return TimedOut;
    }
    if final == ConnectionReset {
      return SendReset;
    }
    if final != Success {
      return SendError;
    }
    return Sent(size);
  }
}
