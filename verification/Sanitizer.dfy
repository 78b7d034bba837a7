/**
 * The sanitizer as a step system: the subscriber, the tester and the publisher thread share two queues, and
 * their atomic actions interleave in any order.
 */
module Sanitizer {
  import Channels
  import Detector
  import DuplicateTester
  import opened Headers
  import opened Packets
  import WindowTesters
  import opened Wrappers

  const MAX_QUEUE_SIZE := 256

  /** Milliseconds, seconds and seconds; `outOfRange` is the platform's result of an undefined conversion. */
  datatype ProgramOptions = ProgramOptions(maximumFutureTime: int, maximumLatency: int, circularBufferDuration: int,
                                           outOfRange: int)

  type Options = o: ProgramOptions | o.outOfRange < INT_MAX witness ProgramOptions(0, 120, 120, 0)

  predicate TestsFuture(o: Options) { o.maximumFutureTime >= 0 }

  predicate TestsExpired(o: Options) { o.maximumLatency > 0 }

  predicate TestsDuplicates(o: Options) { o.circularBufferDuration > 0 }

  function MaxFuture(o: Options): int { o.maximumFutureTime * 1000 }

  function MaxExpired(o: Options): int { o.maximumLatency * 1000000 }

  /** The duplicate detector is built from a duration, so it always estimates its capacities. */
  function DetectorConfig(o: Options): Detector.Config {
    Detector.Settings(true, 1, if TestsDuplicates(o) then o.circularBufferDuration else 1, o.outOfRange)
  }

  datatype Judgement = Pass | Untested | Threw | InFuture | Expired | NotUnique

  predicate InWindow(o: Options, p: Packet, nowFuture: int, nowExpired: int) {
    && p.endTime <= nowFuture + MaxFuture(o)
    && (TestsExpired(o) ==> p.startTime >= nowExpired - MaxExpired(o))
  }

  /** The packet gets as far as the duplicate test. */
  predicate ReachesDuplicateTest(o: Options, p: Packet, nowFuture: int, nowExpired: int) {
    TestsFuture(o) && WindowTesters.HasEndTime(p) && InWindow(o, p, nowFuture, nowExpired) && TestsDuplicates(o)
  }

  predicate Unique(rings: Channels.Rings, p: Packet) {
    FromPacket(p).Success? &&
    var h := FromPacket(p).value; DuplicateTester.LetsThrough(Detector.Verdict(Channels.Lookup(rings, h.name), h))
  }

  /** One pass through the three tests; without the future test nothing is ever allowed. */
  function Judge(o: Options, rings: Channels.Rings, p: Packet, nowFuture: int, nowExpired: int): Judgement {
    if !TestsFuture(o) then Untested
    else if !WindowTesters.HasEndTime(p) then Threw
    else if p.endTime > nowFuture + MaxFuture(o) then InFuture
    else if TestsExpired(o) && p.startTime < nowExpired - MaxExpired(o) then Expired
    else if TestsDuplicates(o) && !Unique(rings, p) then NotUnique
    else Pass
  }

  function RingsAfter(o: Options, rings: Channels.Rings, p: Packet, nowFuture: int, nowExpired: int): Channels.Rings {
    if ReachesDuplicateTest(o, p, nowFuture, nowExpired) && FromPacket(p).Success? then
      Channels.Offer(DetectorConfig(o), rings, FromPacket(p).value)
    else rings
  }

  datatype Inspection = Inspection(packet: Packet, nowFuture: int, nowExpired: int, judgement: Judgement)

  datatype Delivery = Delivery(packet: Packet, sent: bool)

  /**
   * `inHand` is the packet the tester thread has dequeued; `sending` says that the front of the second queue has been
   * handed to the socket but not popped. The last six fields are history.
   */
  datatype State = State(
    toCheck: seq<Packet>, inHand: Option<Packet>, toPublish: seq<Packet>, sending: bool, rings: Channels.Rings,
    accepted: seq<Packet>, skipped: seq<Packet>, trail: seq<Inspection>, refused: seq<Packet>,
    skippedLater: seq<Packet>, handed: seq<Delivery>)

  const START := State([], None, [], false, map[], [], [], [], [], [], [])

  /** `room` says whether the bounded queue still had space, `ok` whether the send succeeded. */
  datatype Event =
    | Receive(packet: Packet, room: bool)
    | TrimInput
    | Take
    | Inspect(nowFuture: int, nowExpired: int, room: bool)
    | TrimOutput
    | Send(ok: bool)
    | Pop

  predicate Enabled(s: State, e: Event) {
    match e
    case Receive(_, _) => true
    case TrimInput => s.inHand.None? && |s.toCheck| > MAX_QUEUE_SIZE
    case Take => s.inHand.None? && s.toCheck != []
    case Inspect(_, _, _) => s.inHand.Some?
    case TrimOutput => !s.sending && |s.toPublish| > MAX_QUEUE_SIZE
    case Send(_) => !s.sending && s.toPublish != []
    case Pop => s.sending && s.toPublish != []
  }

  /** Books the inspection of the packet in hand: only one that passes moves on. */
  function Book(s: State, c: Inspection, rings: Channels.Rings, room: bool): State {
    var s' := s.(inHand := None, rings := rings, trail := s.trail + [c]);
    if c.judgement != Pass then s'
    else if room then s'.(toPublish := s.toPublish + [c.packet])
    else s'.(refused := s.refused + [c.packet])
  }

  function Inspecting(o: Options, s: State, nowFuture: int, nowExpired: int): Inspection
    requires s.inHand.Some?
  {
    Inspection(s.inHand.value, nowFuture, nowExpired, Judge(o, s.rings, s.inHand.value, nowFuture, nowExpired))
  }

  /** The actions that only move packets. */
  function Move(s: State, e: Event): State
    requires Enabled(s, e) && !e.Inspect?
  {
    match e
    case Receive(p, room) => if room then s.(toCheck := s.toCheck + [p], accepted := s.accepted + [p]) else s
    case TrimInput => s.(toCheck := s.toCheck[1..], skipped := s.skipped + [s.toCheck[0]])
    case Take => s.(toCheck := s.toCheck[1..], inHand := Some(s.toCheck[0]))
    case TrimOutput => s.(toPublish := s.toPublish[1..], skippedLater := s.skippedLater + [s.toPublish[0]])
    case Send(ok) => s.(sending := true, handed := s.handed + [Delivery(s.toPublish[0], ok)])
    case Pop => s.(sending := false, toPublish := s.toPublish[1..])
  }

  /** One atomic action; one that is not enabled does nothing. */
  function Step(o: Options, s: State, e: Event): State {
    if !Enabled(s, e) then s
    else if e.Inspect? then
      Book(s, Inspecting(o, s, e.nowFuture, e.nowExpired),
           RingsAfter(o, s.rings, s.inHand.value, e.nowFuture, e.nowExpired), e.room)
    else Move(s, e)
  }

  function After(o: Options, events: seq<Event>): State {
    if events == [] then START else Step(o, After(o, events[..|events| - 1]), events[|events| - 1])
  }

  /* ---------- Views of the history ---------- */

  function Inspected(trail: seq<Inspection>): (ps: seq<Packet>)
    ensures |ps| == |trail|
    ensures forall i :: 0 <= i < |trail| ==> ps[i] == trail[i].packet
  {
    if trail == [] then [] else Inspected(trail[..|trail| - 1]) + [trail[|trail| - 1].packet]
  }

  function Passed(trail: seq<Inspection>): seq<Packet> {
    if trail == [] then []
    else Passed(trail[..|trail| - 1]) +
         (if trail[|trail| - 1].judgement == Pass then [trail[|trail| - 1].packet] else [])
  }

  function Delivered(handed: seq<Delivery>): (ps: seq<Packet>)
    ensures |ps| == |handed|
    ensures forall i :: 0 <= i < |handed| ==> ps[i] == handed[i].packet
  {
    if handed == [] then [] else Delivered(handed[..|handed| - 1]) + [handed[|handed| - 1].packet]
  }

  /** What the publisher has yet to hand over. */
  function Waiting(s: State): seq<Packet> {
    if s.sending && s.toPublish != [] then s.toPublish[1..] else s.toPublish
  }

  /** The headers offered to the duplicate detector. */
  function Offered(o: Options, trail: seq<Inspection>): seq<Header> {
    if trail == [] then []
    else
      var c := trail[|trail| - 1];
      Offered(o, trail[..|trail| - 1]) +
      (if ReachesDuplicateTest(o, c.packet, c.nowFuture, c.nowExpired) && FromPacket(c.packet).Success?
       then [FromPacket(c.packet).value] else [])
  }

  /** The headers of the packets that passed. */
  function HeadersOf(ps: seq<Packet>): seq<Header> {
    if ps == [] then []
    else HeadersOf(ps[..|ps| - 1]) +
         (if FromPacket(ps[|ps| - 1]).Success? then [FromPacket(ps[|ps| - 1]).value] else [])
  }

  lemma TrailSnoc(o: Options, trail: seq<Inspection>, c: Inspection)
    ensures Inspected(trail + [c]) == Inspected(trail) + [c.packet]
    ensures Passed(trail + [c]) == Passed(trail) + (if c.judgement == Pass then [c.packet] else [])
    ensures Offered(o, trail + [c]) == Offered(o, trail) +
      (if ReachesDuplicateTest(o, c.packet, c.nowFuture, c.nowExpired) && FromPacket(c.packet).Success?
       then [FromPacket(c.packet).value] else [])
  {
    assert (trail + [c])[..|trail|] == trail;
  }

  lemma DeliveredSnoc(handed: seq<Delivery>, d: Delivery)
    ensures Delivered(handed + [d]) == Delivered(handed) + [d.packet]
  {
    assert (handed + [d])[..|handed|] == handed;
  }

  lemma HeadersSnoc(ps: seq<Packet>, p: Packet)
    ensures HeadersOf(ps + [p]) == HeadersOf(ps) + (if FromPacket(p).Success? then [FromPacket(p).value] else [])
  {
    assert (ps + [p])[..|ps|] == ps;
  }
}
