/** What the sanitizer takes in, that it loses nothing while there is room, and that it always gets done. */
module SanitizerProgress {
  import Channels
  import Packets
  import opened Sanitizer
  import SanitizerRuns
  import opened Wrappers

  /* ---------- What is taken in ---------- */

  /** The packets that the subscriber handed over while the queue had room. */
  function Received(events: seq<Event>): seq<Packets.Packet> {
    if events == [] then []
    else
      var e := events[|events| - 1];
      Received(events[..|events| - 1]) + (if e.Receive? && e.room then [e.packet] else [])
  }

  lemma StepAccepts(o: Options, s: State, e: Event)
    ensures Step(o, s, e).accepted == s.accepted + (if e.Receive? && e.room then [e.packet] else [])
  {
    if e.Inspect? && Enabled(s, e) {
      var c := Inspecting(o, s, e.nowFuture, e.nowExpired);
      assert Step(o, s, e).accepted == s.accepted;
    }
  }

  /** Those are the packets accepted, in this order. */
  lemma {:induction false} AcceptedExactly(o: Options, events: seq<Event>)
    ensures After(o, events).accepted == Received(events)
    decreases |events|
  {
    if events == [] {
    } else {
      AcceptedExactly(o, events[..|events| - 1]);
      StepAccepts(o, After(o, events[..|events| - 1]), events[|events| - 1]);
    }
  }

  /* ---------- Nothing is lost while there is room ---------- */

  /** The accepted packets are those inspected, then the one in hand, then those queued. */
  ghost predicate InputWhole(s: State) {
    s.accepted == Inspected(s.trail) + OptionToSeq(s.inHand) + s.toCheck
  }

  /** The packets that passed are those handed over, then those waiting. */
  ghost predicate OutputWhole(s: State) {
    (s.sending ==> s.toPublish != []) && Passed(s.trail) == Delivered(s.handed) + Waiting(s)
  }

  ghost predicate QueuesFit(s: State) {
    |s.toCheck| <= 256 && |s.toPublish| <= 256
  }

  lemma MoveKeepsInput(s: State, e: Event)
    requires InputWhole(s) && QueuesFit(s) && Enabled(s, e) && !e.Inspect?
    ensures InputWhole(Move(s, e))
  {
    var seen := Inspected(s.trail);
    match e
    case Receive(p, room) =>
      if room {
        assert seen + OptionToSeq(s.inHand) + s.toCheck + [p] == seen + OptionToSeq(s.inHand) + (s.toCheck + [p]);
      }
    case Take =>
      assert seen + OptionToSeq(s.inHand) == seen;
      assert seen + s.toCheck == seen + [s.toCheck[0]] + s.toCheck[1..];
    case _ =>
  }

  lemma MoveKeepsOutput(s: State, e: Event)
    requires OutputWhole(s) && QueuesFit(s) && Enabled(s, e) && !e.Inspect?
    ensures OutputWhole(Move(s, e))
  {
    match e
    case Send(ok) =>
      DeliveredSnoc(s.handed, Delivery(s.toPublish[0], ok));
      assert Delivered(s.handed) + s.toPublish == Delivered(s.handed) + [s.toPublish[0]] + s.toPublish[1..];
    case _ =>
  }

  lemma BookKeepsInput(s: State, c: Inspection, rings: Channels.Rings, room: bool)
    requires InputWhole(s) && s.inHand == Some(c.packet)
    ensures InputWhole(Book(s, c, rings, room))
  {
    TrailSnoc(ProgramOptions(0, 0, 0, 0), s.trail, c);
    assert Inspected(s.trail) + [c.packet] + [] == Inspected(s.trail) + [c.packet];
  }

  lemma BookKeepsOutput(s: State, c: Inspection, rings: Channels.Rings)
    requires OutputWhole(s)
    ensures OutputWhole(Book(s, c, rings, true))
  {
    TrailSnoc(ProgramOptions(0, 0, 0, 0), s.trail, c);
    if c.judgement == Pass {
      SanitizerRuns.WaitingGrows(s, Book(s, c, rings, true), c.packet);
      SanitizerRuns.Reassociate(Delivered(s.handed), Waiting(s), [c.packet]);
    } else {
      SanitizerRuns.DropEmpty(Passed(s.trail));
    }
  }

  /** At every point of the run both queues fit, and the second always takes what passed. */
  ghost predicate Roomy(o: Options, events: seq<Event>) {
    && (forall k :: 0 <= k <= |events| ==> QueuesFit(After(o, events[..k])))
    && forall e :: e in events && e.Inspect? ==> e.room
  }

  lemma RoomyPrefix(o: Options, events: seq<Event>)
    requires Roomy(o, events) && events != []
    ensures Roomy(o, events[..|events| - 1]) && QueuesFit(After(o, events[..|events| - 1]))
  {
    var before := events[..|events| - 1];
    forall k | 0 <= k <= |before|
      ensures QueuesFit(After(o, before[..k]))
    {
      assert before[..k] == events[..k];
    }
    assert forall e :: e in before ==> e in events;
    assert before[..|before|] == before;
  }

  /**
   * While the queues do not exceed their limits and the second has room, nothing at all is dropped: the accepted
   * packets are, as sequences, those inspected, the one in hand and those queued, and the packets that passed are
   * those handed over and those waiting.
   */
  lemma {:induction false} NothingLost(o: Options, events: seq<Event>)
    requires Roomy(o, events)
    ensures InputWhole(After(o, events)) && OutputWhole(After(o, events))
    decreases |events|
  {
    if events == [] {
    } else {
      var s, e := After(o, events[..|events| - 1]), events[|events| - 1];
      RoomyPrefix(o, events);
      NothingLost(o, events[..|events| - 1]);
      assert e in events;
      if Enabled(s, e) {
        match e
        case Inspect(f, x, room) =>
          BookKeepsInput(s, Inspecting(o, s, f, x), RingsAfter(o, s.rings, s.inHand.value, f, x), true);
          BookKeepsOutput(s, Inspecting(o, s, f, x), RingsAfter(o, s.rings, s.inHand.value, f, x));
        case _ =>
          MoveKeepsInput(s, e);
          MoveKeepsOutput(s, e);
      }
    }
  }

  /* ---------- Everything gets done ---------- */

  lemma AfterMore(o: Options, events: seq<Event>, e: Event, more: seq<Event>)
    ensures events + ([e] + more) == (events + [e]) + more
    ensures After(o, events + [e]) == Step(o, After(o, events), e)
  {
    SanitizerRuns.AfterSnoc(o, events, e);
  }

  /** The next action of the publisher, if anything is queued. */
  function NextSend(s: State): Event {
    if s.sending then Pop else Send(true)
  }

  lemma SendHandsOver(s: State)
    requires !s.sending && s.toPublish != []
    ensures var t := Move(s, Send(true));
      Delivered(t.handed) + Waiting(t) == Delivered(s.handed) + Waiting(s)
  {
    DeliveredSnoc(s.handed, Delivery(s.toPublish[0], true));
    HeadFirst(Delivered(s.handed), s.toPublish);
  }

  lemma HeadFirst<T>(a: seq<T>, q: seq<T>)
    requires q != []
    ensures a + [q[0]] + q[1..] == a + q
  {
  }

  /** What is handed over is the front, whether or not the send succeeds. */
  lemma SendRecords(o: Options, s: State, ok: bool)
    requires !s.sending && s.toPublish != []
    ensures Step(o, s, Send(ok)).handed == s.handed + [Delivery(s.toPublish[0], ok)]
    ensures Step(o, s, Send(ok)).toPublish == s.toPublish
  {
    assert Step(o, s, Send(ok)) == Move(s, Send(ok));
  }

  lemma SendGoesOn(o: Options, s: State)
    requires s.toPublish != []
    ensures var t := Step(o, s, NextSend(s));
      && t.trail == s.trail && Delivered(t.handed) + Waiting(t) == Delivered(s.handed) + Waiting(s)
      && (|t.toPublish| < |s.toPublish| || (|t.toPublish| == |s.toPublish| && !s.sending && t.sending))
  {
    assert Step(o, s, NextSend(s)) == Move(s, NextSend(s));
    if !s.sending {
      SendHandsOver(s);
    }
  }

  /** From every point of every run the publisher alone can hand over all that waits, in order. */
  lemma {:induction false} PublisherDrains(o: Options, events: seq<Event>) returns (more: seq<Event>)
    ensures forall e :: e in more ==> e == Send(true) || e == Pop
    ensures var s, t := After(o, events), After(o, events + more);
      && t.toPublish == [] && t.trail == s.trail
      && Delivered(t.handed) == Delivered(s.handed) + Waiting(s)
    decreases |After(o, events).toPublish|, if After(o, events).sending then 0 else 1
  {
    var s := After(o, events);
    if s.toPublish == [] {
      more := [];
      SanitizerRuns.DropEmpty(Delivered(s.handed));
      SanitizerRuns.DropEmpty(events);
    } else {
      var e := NextSend(s);
      AfterMore(o, events, e, []);
      SendGoesOn(o, s);
      var rest := PublisherDrains(o, events + [e]);
      AfterMore(o, events, e, rest);
      more := [e] + rest;
    }
  }

  /** What the tester still has to inspect, and has inspected. */
  function Ahead(s: State): seq<Packets.Packet> {
    OptionToSeq(s.inHand) + s.toCheck
  }

  lemma BookInspects(o: Options, s: State, c: Inspection, rings: Channels.Rings)
    requires s.inHand == Some(c.packet)
    ensures var t := Book(s, c, rings, true);
      && t.inHand == None && t.toCheck == s.toCheck
      && Inspected(t.trail) + Ahead(t) == Inspected(s.trail) + Ahead(s)
  {
    TrailSnoc(o, s.trail, c);
    SanitizerRuns.DropEmpty(s.toCheck);
    SanitizerRuns.Reassociate(Inspected(s.trail), [c.packet], s.toCheck);
  }

  lemma InspectionBooked(o: Options, s: State, now: int)
    requires s.inHand.Some?
    ensures var t := Step(o, s, Inspect(now, now, true));
      && t.inHand == None && t.toCheck == s.toCheck
      && Inspected(t.trail) + Ahead(t) == Inspected(s.trail) + Ahead(s)
  {
    var c := Inspecting(o, s, now, now);
    var rings := RingsAfter(o, s.rings, s.inHand.value, now, now);
    assert Step(o, s, Inspect(now, now, true)) == Book(s, c, rings, true);
    BookInspects(o, s, c, rings);
  }

  lemma TakeTakes(o: Options, s: State)
    requires s.inHand == None && s.toCheck != []
    ensures var t := Step(o, s, Take);
      t.inHand == Some(s.toCheck[0]) && t.toCheck == s.toCheck[1..] && t.trail == s.trail && Ahead(t) == Ahead(s)
  {
    assert Step(o, s, Take) == Move(s, Take);
    SanitizerRuns.DropEmpty(s.toCheck);
    assert [s.toCheck[0]] + s.toCheck[1..] == s.toCheck;
  }

  /** The next action of the tester, if there is anything to do. */
  function NextTest(s: State, now: int): Event {
    if s.inHand.Some? then Inspect(now, now, true) else Take
  }

  /** From every point of every run the tester alone can inspect all that is queued, in order. */
  lemma {:induction false} TesterDrains(o: Options, events: seq<Event>, now: int) returns (more: seq<Event>)
    ensures forall e :: e in more ==> e == Take || e == Inspect(now, now, true)
    ensures var s, t := After(o, events), After(o, events + more);
      && t.toCheck == [] && t.inHand == None
      && Inspected(t.trail) == Inspected(s.trail) + Ahead(s)
    decreases |After(o, events).toCheck|, if After(o, events).inHand.Some? then 1 else 0
  {
    var s := After(o, events);
    if Ahead(s) == [] {
      more := [];
      SanitizerRuns.DropEmpty(Inspected(s.trail));
      SanitizerRuns.DropEmpty(events);
      NothingAhead(s);
    } else {
      var e := NextTest(s, now);
      AfterMore(o, events, e, []);
      TestGoesOn(o, s, now);
      var rest := TesterDrains(o, events + [e], now);
      AfterMore(o, events, e, rest);
      more := [e] + rest;
    }
  }

  lemma NothingAhead(s: State)
    ensures Ahead(s) == [] <==> s.toCheck == [] && s.inHand == None
  {
  }

  lemma TestGoesOn(o: Options, s: State, now: int)
    requires Ahead(s) != []
    ensures var t := Step(o, s, NextTest(s, now));
      && Inspected(t.trail) + Ahead(t) == Inspected(s.trail) + Ahead(s)
      && (|t.toCheck| < |s.toCheck| || (|t.toCheck| == |s.toCheck| && s.inHand.Some? && t.inHand == None))
  {
    if s.inHand.Some? {
      InspectionBooked(o, s, now);
    } else {
      TakeTakes(o, s);
    }
  }
}
