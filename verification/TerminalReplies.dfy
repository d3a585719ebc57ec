/** The reply queue: what the terminal answers, and that collecting answers early loses none. */
module TerminalReplies {
  import opened Basics
  import opened TerminalState
  import opened TerminalRendering
  import opened TerminalCuts

  /** What the terminal answers to one byte, given everything fed before it. */
  function Answer(c: Core, b: byte): seq<byte>
    requires c.Valid()
  {
    if c.parser.mode != Csi then []
    else if b as char == 'c' then [ESC, 0x5b, 0x3f, 0x31, 0x3b, 0x30, 0x63]
    else if b as char == 'n' && c.parser.Parameter(0, 0) == 5 then [ESC, 0x5b, 0x30, 0x6e]
    else if b as char == 'n' && c.parser.Parameter(0, 0) == 6 then CursorReport(c.cursor.row, c.cursor.column)
    else []
  }

  /** The bytes collected over a run, in order. */
  function Taken(s: State, events: seq<Event>): seq<byte>
    requires s.Valid()
  {
    if events == [] then []
    else
      var before, e := events[..|events| - 1], events[|events| - 1];
      Taken(s, before) + (if e.Collect? then TakeResponse(Run(s, before), e.capacity).1 else [])
  }

  /** All answers to a byte string, as if the queue had no end. */
  function Answers(s: State, data: seq<byte>): seq<byte>
    requires s.Valid()
  {
    if data == [] then []
    else Answers(s, data[..|data| - 1]) + Answer(Feed(s, data[..|data| - 1]).core, data[|data| - 1])
  }

  lemma StepReplies(s: State, b: byte)
    requires s.Valid()
    ensures Step(s, b).replies == QueueReply(s, Answer(s.core, b)).replies
  {
    hide HandleGroundByte, HandleEscapeByte, HandleEditing, SelectGraphicRendition, SetScrollRegion, SetModes,
         CursorMoved, CursorReport;
  }

  /** Within one feed the queue is exactly the first bytes of all answers that fit in it. */
  lemma {:induction false} FeedQueuesWhatFits(s: State, data: seq<byte>)
    requires s.Valid()
    ensures var all := s.replies + Answers(s, data);
            Feed(s, data).replies == all[..Min(|all|, 128)]
    decreases |data|
  {
    hide Step, Answer;
    if data == [] {
      FeedNothing(s);
    } else {
      var before, b := data[..|data| - 1], data[|data| - 1];
      FeedQueuesWhatFits(s, before);
      StepReplies(Feed(s, before), b);
      assert s.replies + Answers(s, data) == (s.replies + Answers(s, before)) + Answer(Feed(s, before).core, b);
    }
  }

  lemma {:induction false} AnswersCore(s: State, t: State, data: seq<byte>)
    requires s.Valid() && t.Valid() && s.core == t.core
    ensures Answers(s, data) == Answers(t, data)
    decreases |data|
  {
    hide Feed, Answer;
    if data != [] {
      AnswersCore(s, t, data[..|data| - 1]);
      FeedCore(s, t, data[..|data| - 1]);
    }
  }

  lemma {:induction false} AnswersTwice(s: State, a: seq<byte>, b: seq<byte>)
    requires s.Valid()
    ensures Answers(s, a + b) == Answers(s, a) + Answers(Feed(s, a), b)
    decreases |b|
  {
    hide Feed, Answer;
    if b == [] {
      assert a + b == a;
    } else {
      var front := b[..|b| - 1];
      AnswersTwice(s, a, front);
      FeedTwice(s, a, front);
      assert (a + b)[..|a + b| - 1] == a + front;
    }
  }

  /** Every received piece finds room for its answers. */
  ghost predicate Roomy(s: State, events: seq<Event>)
    requires s.Valid()
  {
    events == [] ||
    var before, e := events[..|events| - 1], events[|events| - 1];
    Roomy(s, before) &&
    (e.Receive? ==> |Run(s, before).replies| + |Answers(Run(s, before), e.data)| <= 128)
  }

  /** One more piece adds its answers to what is expected, and to the queue what fits of them. */
  lemma ReceivedAnswers(s: State, before: seq<Event>, data: seq<byte>)
    requires s.Valid()
    ensures var t, events := Run(s, before), before + [Receive(data)];
            var all := t.replies + Answers(t, data);
            && Run(s, events).replies == all[..Min(|all|, 128)]
            && (|all| <= 128 ==> Run(s, events).replies == all)
            && Taken(s, events) == Taken(s, before)
            && Received(events) == Received(before) + data
            && Answers(s, Received(events)) == Answers(s, Received(before)) + Answers(t, data)
  {
    hide Feed, Answers, Flush;
    var t, events := Run(s, before), before + [Receive(data)];
    assert events[..|events| - 1] == before;
    FeedQueuesWhatFits(t, data);
    RunIsOneFeed(s, before);
    AnswersTwice(s, Received(before), data);
    AnswersCore(t, Feed(s, Received(before)), data);
  }

  /** Collecting moves bytes off the queue and a repaint moves none. */
  lemma OtherEventsKeepAnswers(s: State, before: seq<Event>, e: Event)
    requires s.Valid() && !e.Receive?
    ensures var events := before + [e];
            && Taken(s, events) + Run(s, events).replies == Taken(s, before) + Run(s, before).replies
            && Received(events) == Received(before)
  {
    hide Feed, Flush;
    var events := before + [e];
    assert events[..|events| - 1] == before;
  }

  /** The bytes answered so far have all been collected or are still queued. */
  ghost predicate AllAnswered(s: State, events: seq<Event>)
    requires s.Valid()
  {
    Taken(s, events) + Run(s, events).replies == s.replies + Answers(s, Received(events))
  }

  /** How many bytes are collected or queued, and how many there should be. */
  function Kept(s: State, events: seq<Event>): nat
    requires s.Valid()
  {
    |Taken(s, events)| + |Run(s, events).replies|
  }

  function Due(s: State, events: seq<Event>): nat
    requires s.Valid()
  {
    |s.replies| + |Answers(s, Received(events))|
  }

  lemma ReceiveLosesOnlyForRoom(s: State, before: seq<Event>, data: seq<byte>)
    requires s.Valid()
    ensures var t, events := Run(s, before), before + [Receive(data)];
            var fits := |t.replies| + |Answers(t, data)| <= 128;
            && (AllAnswered(s, before) && fits ==> AllAnswered(s, events))
            && Kept(s, events) - Kept(s, before) <= Due(s, events) - Due(s, before)
            && (!fits ==> Kept(s, events) - Kept(s, before) < Due(s, events) - Due(s, before))
  {
    hide Feed, Answers, Taken, Run, Received;
    ReceivedAnswers(s, before, data);
    var t, events := Run(s, before), before + [Receive(data)];
    var answers := Answers(t, data);
    assert Taken(s, before) + (t.replies + answers) == (Taken(s, before) + t.replies) + answers;
    assert s.replies + Answers(s, Received(events)) == (s.replies + Answers(s, Received(before))) + answers;
  }

  /** Collected bytes and queue together are all answers, in order, exactly when every piece
      found room; otherwise they are fewer. Cuts, repaints and early collection lose nothing. */
  lemma {:induction false} AnswersAreLostOnlyForRoom(s: State, events: seq<Event>)
    requires s.Valid()
    ensures Roomy(s, events) <==>
            Taken(s, events) + Run(s, events).replies == s.replies + Answers(s, Received(events))
    ensures Kept(s, events) <= Due(s, events)
    ensures !Roomy(s, events) ==> Kept(s, events) < Due(s, events)
    decreases |events|
  {
    hide Feed, Flush, Answers, Apply;
    if events == [] {
      assert Answers(s, []) == [] by { NoAnswers(s); }
    } else {
      var before, e := events[..|events| - 1], events[|events| - 1];
      assert before + [e] == events;
      AnswersAreLostOnlyForRoom(s, before);
      if e.Receive? {
        ReceiveLosesOnlyForRoom(s, before, e.data);
      } else {
        OtherEventsKeepAnswers(s, before, e);
        assert Kept(s, events) == |Taken(s, events) + Run(s, events).replies|;
        assert Kept(s, before) == |Taken(s, before) + Run(s, before).replies|;
      }
      assert AllAnswered(s, events) ==> Kept(s, events) == Due(s, events) by {
        assert Kept(s, events) == |Taken(s, events) + Run(s, events).replies|;
      }
    }
  }

  lemma NoAnswers(s: State)
    requires s.Valid()
    ensures Answers(s, []) == []
  {
  }
}
