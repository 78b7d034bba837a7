/** What every interleaving of the sanitizer guarantees. */
module SanitizerRuns {
  import ChannelName
  import opened Channels
  import Detector
  import Disjointness
  import opened Headers
  import opened Packets
  import opened Sanitizer
  import opened Sequences
  import Streams
  import opened Wrappers

  /* ---------- Order ---------- */

  /** Deletion is all that ever happens between the subscriber and the socket. */
  ghost predicate InOrder(s: State) {
    InputInOrder(s) && OutputInOrder(s)
  }

  ghost predicate OutputInOrder(s: State) {
    (s.sending ==> s.toPublish != []) && Subsequence(Delivered(s.handed) + Waiting(s), Passed(s.trail))
  }

  ghost predicate InputInOrder(s: State) {
    Subsequence(Inspected(s.trail) + OptionToSeq(s.inHand) + s.toCheck, s.accepted)
  }

  lemma ReceiveKeepsInputOrder(s: State, p: Packet, room: bool)
    requires InputInOrder(s)
    ensures InputInOrder(Move(s, Receive(p, room)))
  {
    if room {
      var front := Inspected(s.trail) + OptionToSeq(s.inHand);
      SubsequenceAppend(front + s.toCheck, s.accepted, [p]);
      assert front + s.toCheck + [p] == front + (s.toCheck + [p]);
    }
  }

  lemma TrimInputKeepsInputOrder(s: State)
    requires InputInOrder(s) && Enabled(s, TrimInput)
    ensures InputInOrder(Move(s, TrimInput))
  {
    var front, oldest, rest := Inspected(s.trail), s.toCheck[0], s.toCheck[1..];
    assert front + OptionToSeq(s.inHand) == front;
    assert front + s.toCheck == front + [oldest] + rest;
    SubsequenceDelete(front, oldest, rest, s.accepted);
  }

  lemma TakeKeepsInputOrder(s: State)
    requires InputInOrder(s) && Enabled(s, Take)
    ensures InputInOrder(Move(s, Take))
  {
    var front := Inspected(s.trail);
    assert front + OptionToSeq(s.inHand) + s.toCheck == front + OptionToSeq(Some(s.toCheck[0])) + s.toCheck[1..];
  }

  lemma TesterKeepsOrder(s: State, e: Event)
    requires InOrder(s) && Enabled(s, e) && (e.Receive? || e.TrimInput? || e.Take?)
    ensures InOrder(Move(s, e))
  {
    match e
    case Receive(p, room) => ReceiveKeepsInputOrder(s, p, room);
    case TrimInput => TrimInputKeepsInputOrder(s);
    case Take => TakeKeepsInputOrder(s);
  }

  lemma DropEmpty<T>(a: seq<T>)
    ensures [] + a == a && a + [] == a
  {
  }

  lemma InspectionKeepsInputOrder(s: State, c: Inspection, rings: Rings, room: bool)
    requires InputInOrder(s) && s.inHand == Some(c.packet)
    ensures InputInOrder(Book(s, c, rings, room))
  {
    TrailSnoc(ProgramOptions(0, 0, 0, 0), s.trail, c);
    Absorb([], Inspected(s.trail), c.packet, s.toCheck);
    DropEmpty(Inspected(s.trail));
    DropEmpty(Inspected(s.trail) + [c.packet]);
  }

  lemma Reassociate<T>(a: seq<T>, b: seq<T>, c: seq<T>)
    ensures a + (b + c) == (a + b) + c
  {
  }

  lemma WaitingGrows(s: State, t: State, p: Packet)
    requires t.toPublish == s.toPublish + [p] && t.sending == s.sending && (s.sending ==> s.toPublish != [])
    ensures Waiting(t) == Waiting(s) + [p]
  {
  }

  lemma InspectionKeepsOutputOrder(s: State, c: Inspection, rings: Rings, room: bool)
    requires OutputInOrder(s)
    ensures OutputInOrder(Book(s, c, rings, room))
  {
    TrailSnoc(ProgramOptions(0, 0, 0, 0), s.trail, c);
    var out := Delivered(s.handed) + Waiting(s);
    if c.judgement != Pass {
      assert Passed(s.trail) + [] == Passed(s.trail);
    } else if room {
      SubsequenceAppend(out, Passed(s.trail), [c.packet]);
      WaitingGrows(s, Book(s, c, rings, room), c.packet);
      Reassociate(Delivered(s.handed), Waiting(s), [c.packet]);
    } else {
      SubsequenceExtend(out, Passed(s.trail), c.packet);
    }
  }

  lemma InspectionKeepsOrder(s: State, c: Inspection, rings: Rings, room: bool)
    requires InOrder(s) && s.inHand == Some(c.packet)
    ensures InOrder(Book(s, c, rings, room))
  {
    InspectionKeepsInputOrder(s, c, rings, room);
    InspectionKeepsOutputOrder(s, c, rings, room);
  }

  lemma PublisherKeepsOrder(s: State, e: Event)
    requires InOrder(s) && Enabled(s, e) && (e.TrimOutput? || e.Send? || e.Pop?)
    ensures InOrder(Move(s, e))
  {
    var out := Delivered(s.handed);
    match e
    case TrimOutput =>
      assert out + Waiting(s) == out + [s.toPublish[0]] + s.toPublish[1..];
      SubsequenceDelete(out, s.toPublish[0], s.toPublish[1..], Passed(s.trail));
    case Send(ok) =>
      DeliveredSnoc(s.handed, Delivery(s.toPublish[0], ok));
      assert out + Waiting(s) == out + [s.toPublish[0]] + s.toPublish[1..];
    case Pop =>
  }

  lemma {:induction false} RunInOrder(o: Options, events: seq<Event>)
    ensures InOrder(After(o, events))
    decreases |events|
  {
    if events == [] {
    } else {
      var s, e := After(o, events[..|events| - 1]), events[|events| - 1];
      RunInOrder(o, events[..|events| - 1]);
      if Enabled(s, e) {
        match e
        case Receive(_, _) => TesterKeepsOrder(s, e);
        case TrimInput => TesterKeepsOrder(s, e);
        case Take => TesterKeepsOrder(s, e);
        case Inspect(f, x, room) =>
          InspectionKeepsOrder(s, Inspecting(o, s, f, x), RingsAfter(o, s.rings, s.inHand.value, f, x), room);
        case _ => PublisherKeepsOrder(s, e);
      }
    }
  }

  lemma PrefixSubsequence<T>(xs: seq<T>, tail: seq<T>, ys: seq<T>)
    requires Subsequence(xs + tail, ys)
    ensures Subsequence(xs, ys)
    decreases |tail|
  {
    if tail == [] {
      assert xs + tail == xs;
    } else {
      SubsequenceShorter(xs + tail, ys);
      assert (xs + tail)[..|xs + tail| - 1] == xs + tail[..|tail| - 1];
      PrefixSubsequence(xs, tail[..|tail| - 1], ys);
    }
  }

  lemma {:induction false} PassedSubsequence(trail: seq<Inspection>)
    ensures Subsequence(Passed(trail), Inspected(trail))
    decreases |trail|
  {
    if trail == [] {
    } else {
      var before, p := trail[..|trail| - 1], trail[|trail| - 1].packet;
      PassedSubsequence(before);
      if trail[|trail| - 1].judgement == Pass {
        SubsequenceAppend(Passed(before), Inspected(before), [p]);
      } else {
        SubsequenceExtend(Passed(before), Inspected(before), p);
        assert Passed(before) + [] == Passed(before);
      }
    }
  }

  /** What was inspected was accepted before, in the same order. */
  lemma InspectedInOrder(s: State)
    requires InputInOrder(s)
    ensures Subsequence(Inspected(s.trail), s.accepted)
  {
    var rest := OptionToSeq(s.inHand) + s.toCheck;
    assert Inspected(s.trail) + OptionToSeq(s.inHand) + s.toCheck == Inspected(s.trail) + rest;
    PrefixSubsequence(Inspected(s.trail), rest, s.accepted);
  }

  /** In every interleaving the packets handed to the socket are an order-preserving subsequence of those accepted. */
  lemma DeliveredInOrder(o: Options, events: seq<Event>)
    ensures Subsequence(Delivered(After(o, events).handed), Passed(After(o, events).trail))
    ensures Subsequence(Delivered(After(o, events).handed), After(o, events).accepted)
  {
    var s := After(o, events);
    RunInOrder(o, events);
    PrefixSubsequence(Delivered(s.handed), Waiting(s), Passed(s.trail));
    PassedSubsequence(s.trail);
    InspectedInOrder(s);
    SubsequenceTransitive(Passed(s.trail), Inspected(s.trail), s.accepted);
    SubsequenceTransitive(Delivered(s.handed), Passed(s.trail), s.accepted);
  }

  /* ---------- Conservation ---------- */

  /** Where an accepted packet can be up to its inspection. */
  function InputPlaces(s: State): seq<Packet> {
    s.skipped + Inspected(s.trail) + OptionToSeq(s.inHand) + s.toCheck
  }

  /** Where a packet that passed can be. */
  function OutputPlaces(s: State): seq<Packet> {
    s.refused + s.skippedLater + Delivered(s.handed) + Waiting(s)
  }

  ghost predicate InputConserved(s: State) {
    multiset(s.accepted) == multiset(InputPlaces(s))
  }

  /** Every packet is in exactly one place, counted with multiplicity. */
  ghost predicate Conserved(s: State) {
    && InputConserved(s)
    && multiset(Passed(s.trail)) == multiset(OutputPlaces(s))
  }

  /** An element enters at the end. */
  lemma Enter<T>(a: seq<T>, b: seq<T>, c: seq<T>, q: seq<T>, x: T)
    ensures multiset(a + b + c + (q + [x])) == multiset(a + b + c + q) + multiset{x}
  {
    assert a + b + c + (q + [x]) == (a + b + c + q) + [x];
  }

  /** The head of the last part moves to the end of the third, second or first. */
  lemma Advance<T>(a: seq<T>, b: seq<T>, c: seq<T>, q: seq<T>)
    requires q != []
    ensures multiset(a + b + (c + [q[0]]) + q[1..]) == multiset(a + b + c + q)
    ensures multiset(a + (b + [q[0]]) + c + q[1..]) == multiset(a + b + c + q)
    ensures multiset((a + [q[0]]) + b + c + q[1..]) == multiset(a + b + c + q)
  {
    assert q == [q[0]] + q[1..];
    assert multiset(q) == multiset{q[0]} + multiset(q[1..]);
  }

  /** An element of a part of its own joins the part before. */
  lemma Absorb<T>(a: seq<T>, b: seq<T>, x: T, q: seq<T>)
    ensures a + (b + [x]) + [] + q == a + b + [x] + q
  {
  }

  /** An element enters at the end of the first part. */
  lemma EnterFirst<T>(a: seq<T>, b: seq<T>, c: seq<T>, q: seq<T>, x: T)
    ensures multiset((a + [x]) + b + c + q) == multiset(a + b + c + q) + multiset{x}
  {
  }

  lemma ReceiveConserves(s: State, p: Packet, room: bool)
    requires InputConserved(s)
    ensures InputConserved(Move(s, Receive(p, room)))
  {
    Enter(s.skipped, Inspected(s.trail), OptionToSeq(s.inHand), s.toCheck, p);
  }

  lemma TrimInputConserves(s: State)
    requires InputConserved(s) && Enabled(s, TrimInput)
    ensures InputConserved(Move(s, TrimInput))
  {
    Advance(s.skipped, Inspected(s.trail), OptionToSeq(s.inHand), s.toCheck);
  }

  lemma TakeConserves(s: State)
    requires InputConserved(s) && Enabled(s, Take)
    ensures InputConserved(Move(s, Take))
  {
    Advance(s.skipped, Inspected(s.trail), OptionToSeq(s.inHand), s.toCheck);
    assert OptionToSeq(s.inHand) + [s.toCheck[0]] == OptionToSeq(Some(s.toCheck[0]));
  }

  lemma MoveConservesInput(s: State, e: Event)
    requires InputConserved(s) && Enabled(s, e) && !e.Inspect?
    ensures InputConserved(Move(s, e))
  {
    match e
    case Receive(p, room) => ReceiveConserves(s, p, room);
    case TrimInput => TrimInputConserves(s);
    case Take => TakeConserves(s);
    case _ =>
  }

  lemma MoveConservesOutput(s: State, e: Event)
    requires multiset(Passed(s.trail)) == multiset(OutputPlaces(s)) && Enabled(s, e) && !e.Inspect?
    ensures multiset(Passed(Move(s, e).trail)) == multiset(OutputPlaces(Move(s, e)))
  {
    match e
    case TrimOutput => Advance(s.refused, s.skippedLater, Delivered(s.handed), s.toPublish);
    case Send(ok) =>
      Advance(s.refused, s.skippedLater, Delivered(s.handed), s.toPublish);
      DeliveredSnoc(s.handed, Delivery(s.toPublish[0], ok));
    case _ =>
  }

  lemma InspectionConservesInput(s: State, c: Inspection, rings: Rings, room: bool)
    requires InputConserved(s) && s.inHand == Some(c.packet)
    ensures InputConserved(Book(s, c, rings, room))
  {
    TrailSnoc(ProgramOptions(0, 0, 0, 0), s.trail, c);
    Absorb(s.skipped, Inspected(s.trail), c.packet, s.toCheck);
  }

  lemma InspectionConservesOutput(s: State, c: Inspection, rings: Rings, room: bool)
    requires multiset(Passed(s.trail)) == multiset(OutputPlaces(s)) && (s.sending ==> s.toPublish != [])
    ensures multiset(Passed(Book(s, c, rings, room).trail)) == multiset(OutputPlaces(Book(s, c, rings, room)))
  {
    TrailSnoc(ProgramOptions(0, 0, 0, 0), s.trail, c);
    if c.judgement != Pass {
      assert Passed(s.trail) + [] == Passed(s.trail);
    } else if room {
      Enter(s.refused, s.skippedLater, Delivered(s.handed), Waiting(s), c.packet);
      WaitingGrows(s, Book(s, c, rings, room), c.packet);
    } else {
      EnterFirst(s.refused, s.skippedLater, Delivered(s.handed), Waiting(s), c.packet);
    }
  }

  /** In every interleaving no packet is lost, duplicated or invented. */
  lemma {:induction false} RunConserves(o: Options, events: seq<Event>)
    ensures Conserved(After(o, events))
    decreases |events|
  {
    if events == [] {
    } else {
      var before := events[..|events| - 1];
      RunConserves(o, before);
      RunInOrder(o, before);
      var s, e := After(o, before), events[|events| - 1];
      if Enabled(s, e) {
        if e.Inspect? {
          var c := Inspecting(o, s, e.nowFuture, e.nowExpired);
          var rings := RingsAfter(o, s.rings, s.inHand.value, e.nowFuture, e.nowExpired);
          InspectionConservesInput(s, c, rings, e.room);
          InspectionConservesOutput(s, c, rings, e.room);
        } else {
          MoveConservesInput(s, e);
          MoveConservesOutput(s, e);
        }
      }
    }
  }

  /** Whatever is popped after a send is the packet that was handed to the socket. */
  ghost predicate PopsWhatWasSent(s: State) {
    s.sending ==> s.toPublish != [] && s.handed != [] && s.handed[|s.handed| - 1].packet == s.toPublish[0]
  }

  lemma {:induction false} RunPopsWhatWasSent(o: Options, events: seq<Event>)
    ensures PopsWhatWasSent(After(o, events))
    decreases |events|
  {
    if events == [] {
    } else {
      RunPopsWhatWasSent(o, events[..|events| - 1]);
    }
  }

  /* ---------- Bounds and uniqueness ---------- */

  /** Every judgement in the trail is what its times and the rings left by its predecessors demand. */
  ghost predicate TrailFaithful(o: Options, trail: seq<Inspection>)
    decreases |trail|
  {
    trail == [] ||
    (var before, c := trail[..|trail| - 1], trail[|trail| - 1];
     TrailFaithful(o, before) &&
     c.judgement == Judge(o, RunAll(DetectorConfig(o), Offered(o, before)), c.packet, c.nowFuture, c.nowExpired))
  }

  lemma TrailFaithfulSnoc(o: Options, trail: seq<Inspection>, c: Inspection)
    requires TrailFaithful(o, trail)
    requires c.judgement == Judge(o, RunAll(DetectorConfig(o), Offered(o, trail)), c.packet, c.nowFuture, c.nowExpired)
    ensures TrailFaithful(o, trail + [c])
  {
    assert (trail + [c])[..|trail|] == trail;
  }

  lemma RingsFollowOffers(o: Options, trail: seq<Inspection>, c: Inspection)
    ensures RingsAfter(o, RunAll(DetectorConfig(o), Offered(o, trail)), c.packet, c.nowFuture, c.nowExpired)
         == RunAll(DetectorConfig(o), Offered(o, trail + [c]))
  {
    TrailSnoc(o, trail, c);
    var hs := Offered(o, trail);
    if ReachesDuplicateTest(o, c.packet, c.nowFuture, c.nowExpired) && FromPacket(c.packet).Success? {
      RunAllSnoc(DetectorConfig(o), hs, FromPacket(c.packet).value);
    } else {
      assert hs + [] == hs;
    }
  }

  /** The judgements are the detector's, and the rings are where it is now. */
  ghost predicate Faithful(o: Options, s: State) {
    TrailFaithful(o, s.trail) && s.rings == RunAll(DetectorConfig(o), Offered(o, s.trail))
  }

  lemma InspectionKeepsFaithful(o: Options, s: State, nowFuture: int, nowExpired: int, room: bool)
    requires Faithful(o, s) && s.inHand.Some?
    ensures Faithful(o, Step(o, s, Inspect(nowFuture, nowExpired, room)))
  {
    var c := Inspecting(o, s, nowFuture, nowExpired);
    TrailFaithfulSnoc(o, s.trail, c);
    RingsFollowOffers(o, s.trail, c);
    BookKeepsHistory(s, c, RingsAfter(o, s.rings, c.packet, nowFuture, nowExpired), room);
  }

  lemma BookKeepsHistory(s: State, c: Inspection, rings: Rings, room: bool)
    ensures Book(s, c, rings, room).trail == s.trail + [c] && Book(s, c, rings, room).rings == rings
  {
  }

  lemma MoveKeepsFaithful(o: Options, s: State, e: Event)
    requires Faithful(o, s) && Enabled(s, e) && !e.Inspect?
    ensures Faithful(o, Move(s, e))
  {
  }

  lemma {:induction false} RunFaithful(o: Options, events: seq<Event>)
    ensures Faithful(o, After(o, events))
    decreases |events|
  {
    if events == [] {
    } else {
      var s, e := After(o, events[..|events| - 1]), events[|events| - 1];
      RunFaithful(o, events[..|events| - 1]);
      if Enabled(s, e) {
        if e.Inspect? {
          InspectionKeepsFaithful(o, s, e.nowFuture, e.nowExpired, e.room);
        } else {
          MoveKeepsFaithful(o, s, e);
        }
      }
    }
  }

  /** The inspection that let a packet pass, inside the window; the options are milliseconds and seconds. */
  ghost predicate PassedAt(o: Options, trail: seq<Inspection>, k: nat, p: Packet) {
    && k < |trail| && trail[k].packet == p && trail[k].judgement == Pass
    && p.endTime - trail[k].nowFuture <= 1000 * o.maximumFutureTime
    && (o.maximumLatency > 0 ==> trail[k].nowExpired - p.startTime <= 1000000 * o.maximumLatency)
  }

  /** Packets that passed had their end and start inside the window when they passed. */
  lemma {:induction false} PassedInWindow(o: Options, trail: seq<Inspection>, p: Packet)
    requires TrailFaithful(o, trail) && p in Passed(trail)
    ensures exists k: nat :: PassedAt(o, trail, k, p)
    decreases |trail|
  {
    var before, c := trail[..|trail| - 1], trail[|trail| - 1];
    if p in Passed(before) {
      PassedInWindow(o, before, p);
      var k: nat :| PassedAt(o, before, k, p);
      assert PassedAt(o, trail, k, p);
    } else {
      assert PassedAt(o, trail, |trail| - 1, p);
    }
  }

  /** In every interleaving each packet handed over met both time bounds in the inspection that let it pass. */
  lemma DeliveredInWindow(o: Options, events: seq<Event>, i: nat)
    requires i < |Delivered(After(o, events).handed)|
    ensures exists k: nat :: PassedAt(o, After(o, events).trail, k, Delivered(After(o, events).handed)[i])
  {
    var s := After(o, events);
    RunFaithful(o, events);
    DeliveredInOrder(o, events);
    var a := SubsequenceMember(Delivered(s.handed), Passed(s.trail), i);
    PassedInWindow(o, s.trail, Delivered(s.handed)[i]);
  }

  /** A packet passes exactly when the detector is offered its header and lets it through. */
  lemma PassExactly(o: Options, rings: Rings, p: Packet, nowFuture: int, nowExpired: int)
    requires TestsDuplicates(o)
    ensures Judge(o, rings, p, nowFuture, nowExpired) == Pass <==>
            ReachesDuplicateTest(o, p, nowFuture, nowExpired) && Unique(rings, p)
  {
  }

  /** The packet's header reaches the detector after `hs`, and its outcome is one of `kinds`. */
  predicate ChosenNext(o: Options, hs: seq<Header>, c: Inspection, kinds: set<Detector.Outcome>) {
    && ReachesDuplicateTest(o, c.packet, c.nowFuture, c.nowExpired) && FromPacket(c.packet).Success?
    && OutcomeAfter(DetectorConfig(o), hs, FromPacket(c.packet).value) in kinds
  }

  lemma PassIsChosen(o: Options, hs: seq<Header>, c: Inspection)
    requires TestsDuplicates(o)
    requires c.judgement == Judge(o, RunAll(DetectorConfig(o), hs), c.packet, c.nowFuture, c.nowExpired)
    ensures c.judgement == Pass <==> ChosenNext(o, hs, c, Detector.ADMITTED + {Detector.Raised})
  {
    PassExactly(o, RunAll(DetectorConfig(o), hs), c.packet, c.nowFuture, c.nowExpired);
  }

  lemma PassedOneMore(o: Options, before: seq<Inspection>, c: Inspection, kinds: set<Detector.Outcome>)
    requires c.judgement == Pass <==> ChosenNext(o, Offered(o, before), c, kinds)
    requires HeadersOf(Passed(before)) == ChosenAll(DetectorConfig(o), Offered(o, before), kinds)
    ensures HeadersOf(Passed(before + [c])) == ChosenAll(DetectorConfig(o), Offered(o, before + [c]), kinds)
  {
    var hs, passed := Offered(o, before), Passed(before);
    TrailSnoc(o, before, c);
    DropEmpty(hs);
    DropEmpty(passed);
    DropEmpty(HeadersOf(passed));
    if ReachesDuplicateTest(o, c.packet, c.nowFuture, c.nowExpired) && FromPacket(c.packet).Success? {
      ChosenAllSnoc(DetectorConfig(o), hs, FromPacket(c.packet).value, kinds);
      HeadersSnoc(passed, c.packet);
    }
  }

  /** With the duplicate test on, the headers that passed are those the detector let through. */
  lemma {:induction false} PassedAreChosen(o: Options, trail: seq<Inspection>)
    requires TrailFaithful(o, trail) && TestsDuplicates(o)
    ensures HeadersOf(Passed(trail))
         == ChosenAll(DetectorConfig(o), Offered(o, trail), Detector.ADMITTED + {Detector.Raised})
    decreases |trail|
  {
    if trail == [] {
    } else {
      var before, c := trail[..|trail| - 1], trail[|trail| - 1];
      PassedAreChosen(o, before);
      PassIsChosen(o, Offered(o, before), c);
      PassedOneMore(o, before, c, Detector.ADMITTED + {Detector.Raised});
      assert trail == before + [c];
    }
  }

  /** The packets come from the packet class. */
  ghost predicate Genuine(ps: seq<Packet>) {
    forall p :: p in ps ==> WellFormed(p)
  }

  /** Input hypotheses on the accepted packets, channel by channel: no containment, one rate, below the limit. */
  ghost predicate TameInput(ps: seq<Packet>) {
    Genuine(ps) && NonContaining(HeadersOf(ps)) && Classified(HeadersOf(ps))
  }

  lemma {:induction false} HeadersMembers(ps: seq<Packet>)
    ensures forall h :: h in HeadersOf(ps) <==> exists p :: p in ps && FromPacket(p) == Success(h)
    decreases |ps|
  {
    if ps == [] {
    } else {
      var before, p := ps[..|ps| - 1], ps[|ps| - 1];
      HeadersMembers(before);
      assert ps == before + [p];
    }
  }

  lemma {:induction false} OfferedWereInspected(o: Options, trail: seq<Inspection>)
    ensures forall h :: h in Offered(o, trail) ==> h in HeadersOf(Inspected(trail))
    decreases |trail|
  {
    if trail == [] {
    } else {
      OfferedWereInspected(o, trail[..|trail| - 1]);
      HeadersSnoc(Inspected(trail[..|trail| - 1]), trail[|trail| - 1].packet);
    }
  }

  lemma SubsequenceMembers<T>(xs: seq<T>, ys: seq<T>)
    requires Subsequence(xs, ys)
    ensures forall x :: x in xs ==> x in ys
  {
    forall x | x in xs
      ensures x in ys
    {
      var i :| 0 <= i < |xs| && xs[i] == x;
      var a := SubsequenceMember(xs, ys, i);
    }
  }

  /** Everything the detector was offered came from an accepted packet. */
  lemma OfferedFromInput(o: Options, events: seq<Event>)
    ensures forall h :: h in Offered(o, After(o, events).trail) ==> h in HeadersOf(After(o, events).accepted)
  {
    var s := After(o, events);
    RunInOrder(o, events);
    InspectedInOrder(s);
    SubsequenceMembers(Inspected(s.trail), s.accepted);
    OfferedWereInspected(o, s.trail);
    HeadersMembers(Inspected(s.trail));
    HeadersMembers(s.accepted);
  }

  /** What the detector is offered runs forward, because end times are kept in step. */
  lemma OfferedRunForward(o: Options, events: seq<Event>)
    requires Genuine(After(o, events).accepted)
    ensures Detector.Forward(Offered(o, After(o, events).trail))
  {
    var accepted := After(o, events).accepted;
    OfferedFromInput(o, events);
    HeadersMembers(accepted);
    forall h | h in Offered(o, After(o, events).trail)
      ensures h.startTime <= h.endTime
    {
      var p :| p in accepted && FromPacket(p) == Success(h);
      HeaderRunsForward(p);
    }
  }

  lemma {:induction false} HeadersSubsequence(ps: seq<Packet>, qs: seq<Packet>)
    requires Subsequence(ps, qs)
    ensures Subsequence(HeadersOf(ps), HeadersOf(qs))
    decreases |qs|
  {
    if ps == [] {
    } else {
      var qs', q := qs[..|qs| - 1], qs[|qs| - 1];
      if ps[|ps| - 1] == q {
        HeadersSubsequence(ps[..|ps| - 1], qs');
        SubsequenceAppend(HeadersOf(ps[..|ps| - 1]), HeadersOf(qs'),
                          if FromPacket(q).Success? then [FromPacket(q).value] else []);
      } else {
        HeadersSubsequence(ps, qs');
        if FromPacket(q).Success? {
          SubsequenceExtend(HeadersOf(ps), HeadersOf(qs'), FromPacket(q).value);
        } else {
          assert HeadersOf(qs') + [] == HeadersOf(qs');
        }
      }
    }
  }

  lemma SubsequenceApartPerChannel(xs: seq<Header>, ys: seq<Header>)
    requires Subsequence(xs, ys) && ApartPerChannel(ys)
    ensures ApartPerChannel(xs)
  {
    forall i, j | 0 <= i < j < |xs| && xs[i].name == xs[j].name
      ensures Disjointness.Apart(xs[i], xs[j])
    {
      var a, b := SubsequencePair(xs, ys, i, j);
    }
  }

  /** Any two packets with the same codes are disjoint in time. */
  ghost predicate PacketsApart(ps: seq<Packet>) {
    forall i, j :: 0 <= i < j < |ps| && ps[i].codes == ps[j].codes ==>
      ps[i].endTime < ps[j].startTime || ps[j].endTime < ps[i].startTime
  }

  lemma {:induction false} HeadersAligned(ps: seq<Packet>)
    requires forall p :: p in ps ==> FromPacket(p).Success?
    ensures |HeadersOf(ps)| == |ps|
    ensures forall i :: 0 <= i < |ps| ==> HeadersOf(ps)[i] == FromPacket(ps[i]).value
    decreases |ps|
  {
    if ps == [] {
    } else {
      var before, p := ps[..|ps| - 1], ps[|ps| - 1];
      assert p in ps && forall q :: q in before ==> q in ps;
      HeadersAligned(before);
      HeadersSnoc(before, p);
      assert ps == before + [p];
    }
  }

  /** What holds of headers holds of the packets they were made from. */
  lemma ApartAsPackets(ps: seq<Packet>)
    requires forall p :: p in ps ==> FromPacket(p).Success?
    requires ApartPerChannel(HeadersOf(ps))
    ensures PacketsApart(ps)
  {
    HeadersAligned(ps);
    forall i, j | 0 <= i < j < |ps| && ps[i].codes == ps[j].codes
      ensures ps[i].endTime < ps[j].startTime || ps[j].endTime < ps[i].startTime
    {
      assert Disjointness.Apart(HeadersOf(ps)[i], HeadersOf(ps)[j]);
    }
  }

  /** Every packet that passes the duplicate test has a header. */
  lemma {:induction false} PassedHaveHeaders(o: Options, trail: seq<Inspection>)
    requires TrailFaithful(o, trail) && TestsDuplicates(o)
    ensures forall p :: p in Passed(trail) ==> FromPacket(p).Success?
    decreases |trail|
  {
    if trail == [] {
    } else {
      PassedHaveHeaders(o, trail[..|trail| - 1]);
    }
  }

  lemma DeliveredHaveHeaders(o: Options, events: seq<Event>)
    requires TestsDuplicates(o)
    ensures forall p :: p in Delivered(After(o, events).handed) ==> FromPacket(p).Success?
  {
    var s := After(o, events);
    RunFaithful(o, events);
    DeliveredInOrder(o, events);
    SubsequenceMembers(Delivered(s.handed), Passed(s.trail));
    PassedHaveHeaders(o, s.trail);
  }

  /**
   * End-to-end safety: in every interleaving of the three threads no two packets with the same codes that are handed
   * to the socket overlap in time, provided that no check threw and no recorded packet strictly contained a stored one
   * when it was offered to the detector. The same holds of channels that share a key.
   */
  lemma DeliveredDisjoint(o: Options, events: seq<Event>)
    requires TestsDuplicates(o) && Genuine(After(o, events).accepted)
    requires var offered := Offered(o, After(o, events).trail);
      ChosenAll(DetectorConfig(o), offered, {Detector.Raised}) == [] && NoChannelEngulfs(DetectorConfig(o), offered)
    ensures PacketsApart(Delivered(After(o, events).handed))
    ensures ApartPerChannel(HeadersOf(Delivered(After(o, events).handed)))
  {
    var s := After(o, events);
    var offered := Offered(o, s.trail);
    RunFaithful(o, events);
    OfferedRunForward(o, events);
    PassedAreChosen(o, s.trail);
    NoRaiseInChoice(DetectorConfig(o), offered);
    AdmittedDisjointPerChannel(DetectorConfig(o), offered);
    DeliveredInOrder(o, events);
    HeadersSubsequence(Delivered(s.handed), Passed(s.trail));
    SubsequenceApartPerChannel(HeadersOf(Delivered(s.handed)), HeadersOf(Passed(s.trail)));
    DeliveredHaveHeaders(o, events);
    ApartAsPackets(Delivered(s.handed));
  }

  /** Both conditions hold for inputs of one rate in each channel without containment. */
  lemma TameInputDisjoint(o: Options, events: seq<Event>)
    requires TestsDuplicates(o) && TameInput(After(o, events).accepted)
    ensures PacketsApart(Delivered(After(o, events).handed))
  {
    var offered := Offered(o, After(o, events).trail);
    OfferedFromInput(o, events);
    OfferedRunForward(o, events);
    NonContainingSuffices(DetectorConfig(o), offered);
    ClassifiedRaisesNone(DetectorConfig(o), offered);
    DeliveredDisjoint(o, events);
  }

  /* ---------- Options that matter ---------- */

  /** Without the future test nothing is ever handed over, whatever the other options. */
  lemma NothingPassesUntested(o: Options, events: seq<Event>)
    requires !TestsFuture(o)
    ensures After(o, events).handed == []
  {
    DeliveredInOrder(o, events);
    RunFaithful(o, events);
    PassedNeedsFutureTest(o, After(o, events).trail);
  }

  const ONE_SAMPLE := Packet(ChannelName.Codes("N", "S", "C", "L"), Samples([0], [], [], [], Integer32), 0, 0, 1.0)

  function OnePacketRun(): seq<Event> {
    [Receive(ONE_SAMPLE, true), Take, Inspect(0, 0, true), Send(true)]
  }

  lemma AfterSnoc(o: Options, events: seq<Event>, e: Event)
    ensures After(o, events + [e]) == Step(o, After(o, events), e)
  {
    assert (events + [e])[..|events|] == events;
  }

  /** The first packet of a run passes every test when its times are those of the clock. */
  lemma OneSamplePasses(o: Options)
    requires TestsFuture(o)
    ensures Judge(o, map[], ONE_SAMPLE, 0, 0) == Pass
  {
  }

  lemma OnePacketTaken(o: Options)
    ensures After(o, [Receive(ONE_SAMPLE, true), Take]) == START.(inHand := Some(ONE_SAMPLE), accepted := [ONE_SAMPLE])
  {
    AfterSnoc(o, [], Receive(ONE_SAMPLE, true));
    AfterSnoc(o, [Receive(ONE_SAMPLE, true)], Take);
    assert [] + [Receive(ONE_SAMPLE, true)] == [Receive(ONE_SAMPLE, true)];
    assert [Receive(ONE_SAMPLE, true)] + [Take] == [Receive(ONE_SAMPLE, true), Take];
  }

  lemma OnePacketQueued(o: Options, s: State)
    requires TestsFuture(o) && s == START.(inHand := Some(ONE_SAMPLE), accepted := [ONE_SAMPLE])
    ensures var t := Step(o, s, Inspect(0, 0, true));
      t.toPublish == [ONE_SAMPLE] && t.handed == [] && !t.sending
  {
    OneSamplePasses(o);
    assert Inspecting(o, s, 0, 0).judgement == Pass;
  }

  lemma OnePacketSent(o: Options, s: State)
    requires s.toPublish == [ONE_SAMPLE] && s.handed == [] && !s.sending
    ensures Step(o, s, Send(true)).handed == [Delivery(ONE_SAMPLE, true)]
  {
    assert Step(o, s, Send(true)) == Move(s, Send(true));
  }

  lemma OnePacketDelivered(o: Options)
    requires TestsFuture(o)
    ensures After(o, OnePacketRun()).handed == [Delivery(ONE_SAMPLE, true)]
  {
    var taken := [Receive(ONE_SAMPLE, true), Take];
    var inspected := taken + [Inspect(0, 0, true)];
    assert OnePacketRun() == inspected + [Send(true)];
    AfterSnoc(o, inspected, Send(true));
    AfterSnoc(o, taken, Inspect(0, 0, true));
    OnePacketTaken(o);
    var s := After(o, taken);
    OnePacketQueued(o, s);
    OnePacketSent(o, Step(o, s, Inspect(0, 0, true)));
  }

  /** Anything is ever handed over exactly when the future test is on. */
  lemma DeliversExactlyWhenTested(o: Options)
    ensures TestsFuture(o) <==> exists events :: After(o, events).handed != []
  {
    if TestsFuture(o) {
      OnePacketDelivered(o);
      assert After(o, OnePacketRun()).handed != [];
    } else {
      forall events
        ensures After(o, events).handed == []
      {
        NothingPassesUntested(o, events);
      }
    }
  }

  lemma {:induction false} PassedNeedsFutureTest(o: Options, trail: seq<Inspection>)
    requires TrailFaithful(o, trail) && !TestsFuture(o)
    ensures Passed(trail) == []
    decreases |trail|
  {
    if trail == [] {
    } else {
      PassedNeedsFutureTest(o, trail[..|trail| - 1]);
    }
  }

  /** No packet that reached the duplicate test did so after time `t`. */
  ghost predicate TestedBy(o: Options, trail: seq<Inspection>, t: int) {
    forall c :: c in trail && ReachesDuplicateTest(o, c.packet, c.nowFuture, c.nowExpired) ==> c.nowFuture <= t
  }

  lemma {:induction false} OfferedEndBy(o: Options, trail: seq<Inspection>, t: int)
    requires TestedBy(o, trail, t)
    ensures Streams.EndBy(Offered(o, trail), t + MaxFuture(o))
    decreases |trail|
  {
    if trail == [] {
    } else {
      var before, c := trail[..|trail| - 1], trail[|trail| - 1];
      assert trail == before + [c];
      assert forall x :: x in before ==> x in trail;
      assert c in trail;
      OfferedEndBy(o, before, t);
    }
  }

  /**
   * Bad clocks do not poison the rings: with `t` the latest future-test time of the packets that reached the
   * duplicate test, a packet of its channel's rate that starts 15 ms after `t` plus the allowed future is admitted.
   */
  lemma BadClocksDoNotPoison(o: Options, events: seq<Event>, t: int, h: Header)
    requires TestedBy(o, After(o, events).trail, t) && Genuine(After(o, events).accepted)
    requires h.startTime >= t + MaxFuture(o) + Streams.WIDEST_TOLERANCE && h.samplingRate < RATE_LIMIT
    requires h.name in After(o, events).rings ==>
               h.samplingRate == After(o, events).rings[h.name].ring[0].samplingRate
    ensures Detector.Verdict(Lookup(After(o, events).rings, h.name), h) in {Detector.First, Detector.Appended}
  {
    var s := After(o, events);
    var offered := Offered(o, s.trail);
    RunFaithful(o, events);
    OfferedRunForward(o, events);
    OfferedEndBy(o, s.trail, t);
    SelectMembers(offered, h.name);
    ChannelsIndependent(DetectorConfig(o), offered, h.name, Detector.ADMITTED);
    Streams.LateEnoughAdmitted(DetectorConfig(o), Select(offered, h.name), h.name, t + MaxFuture(o), h);
  }
}
