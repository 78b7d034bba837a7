/** The SEEDLink publisher: packets from acquisition are queued, trimmed, sent and counted. */
module SeedLinkPublisher {
  import ChannelName
  import Headers
  import PacketJson
  import opened Packets
  import opened Wrappers

  const MAX_QUEUE_SIZE := 1024
  const METRIC_INTERVAL := 60

  /** What became of a packet that left the queue. */
  datatype Fate = Skipped | Sent | Failed

  datatype Removal = Removal(packet: Packet, fate: Fate)

  datatype Counters = Counters(nSent: int, nNotSent: int, nSentInLastMinute: int, nNotSentInLastMinute: int,
                               lastLogTime: int, nextMetricTime: int)

  /** The last four fields are history: all accepted packets, all removals, and the removals before each reset. */
  datatype State = State(queue: seq<Packet>, counters: Counters,
                         accepted: seq<Packet>, removals: seq<Removal>, logMark: nat, metricMark: nat)

  /** The callback accepts packets with codes, a rate and samples; it throws on others. No location is needed. */
  predicate Acceptable(p: Packet) {
    && p.codes.network != "" && p.codes.station != "" && p.codes.channel != ""
    && p.samplingRate > 0.0 && Size(p) >= 1 && p.samples.dataType != Unknown
  }

  function Add(s: State, p: Packet, room: bool): State {
    if Acceptable(p) && room then s.(queue := s.queue + [p], accepted := s.accepted + [p]) else s
  }

  /** The send works when the packet serialises and the socket takes it. */
  predicate Sends(p: Packet, socketOk: bool) {
    PacketJson.ToJson(p).Success? && socketOk
  }

  function Mark(ps: seq<Packet>, fate: Fate): (rs: seq<Removal>)
    ensures |rs| == |ps|
  {
    seq(|ps|, i requires 0 <= i < |ps| => Removal(ps[i], fate))
  }

  function Trim(s: State): State {
    if |s.queue| <= MAX_QUEUE_SIZE then s
    else
      var n := |s.queue| - MAX_QUEUE_SIZE;
      s.(queue := s.queue[n..], removals := s.removals + Mark(s.queue[..n], Skipped),
         counters := s.counters.(nNotSent := s.counters.nNotSent + n,
                                 nNotSentInLastMinute := s.counters.nNotSentInLastMinute + n))
  }

  /** A failed send is not counted in the last minute. */
  function SendFront(s: State, socketOk: bool): State {
    if s.queue == [] then s
    else
      var c, p := s.counters, s.queue[0];
      if Sends(p, socketOk) then
        s.(queue := s.queue[1..], removals := s.removals + [Removal(p, Sent)],
           counters := c.(nSent := c.nSent + 1, nSentInLastMinute := c.nSentInLastMinute + 1))
      else
        s.(queue := s.queue[1..], removals := s.removals + [Removal(p, Failed)],
           counters := c.(nNotSent := c.nNotSent + 1))
  }

  function ResetLog(s: State, interval: int, now: int): State {
    if interval > 0 && now >= s.counters.lastLogTime + interval then
      s.(counters := s.counters.(nSent := 0, nNotSent := 0, lastLogTime := now), logMark := |s.removals|)
    else s
  }

  function ResetMetrics(s: State, now: int): State {
    if now >= s.counters.nextMetricTime then
      s.(counters := s.counters.(nSentInLastMinute := 0, nNotSentInLastMinute := 0,
                                 nextMetricTime := now + METRIC_INTERVAL), metricMark := |s.removals|)
    else s
  }

  /** One round of the publishing loop. */
  function Iterate(s: State, interval: int, socketOk: bool, now: int): State {
    ResetMetrics(ResetLog(SendFront(Trim(s), socketOk), interval, now), now)
  }

  datatype Event = Callback(packet: Packet, room: bool) | Round(socketOk: bool, now: int)

  function Start(now: int): State {
    State([], Counters(0, 0, 0, 0, now, now + METRIC_INTERVAL), [], [], 0, 0)
  }

  function After(start: int, interval: int, events: seq<Event>): State {
    if events == [] then Start(start)
    else
      var s := After(start, interval, events[..|events| - 1]);
      match events[|events| - 1]
      case Callback(p, room) => Add(s, p, room)
      case Round(ok, now) => Iterate(s, interval, ok, now)
  }

  /* ---------- What one round does to the queue ---------- */

  /** How many packets are too many. */
  function Excess(queue: seq<Packet>): nat {
    if |queue| > 1024 then |queue| - 1024 else 0
  }

  /** The last packets stay, at most 1024 of them; the others go, oldest first, as skipped. */
  lemma TrimExactly(s: State)
    ensures var t, k := Trim(s), Excess(s.queue);
      && t.queue == s.queue[k..] && |t.queue| <= 1024 && (k > 0 ==> |t.queue| == 1024)
      && |t.removals| == |s.removals| + k && s.removals <= t.removals
      && (forall i :: 0 <= i < k ==> t.removals[|s.removals| + i] == Removal(s.queue[i], Skipped))
      && t.accepted == s.accepted && t.logMark == s.logMark && t.metricMark == s.metricMark
  {
  }

  /** The front goes, as sent exactly if it serialises and the socket takes it. */
  lemma SendExactly(s: State, socketOk: bool)
    ensures var t := SendFront(s, socketOk);
      && (s.queue == [] ==> t == s)
      && (s.queue != [] ==>
            t.queue == s.queue[1..] && t.removals == s.removals
              + [Removal(s.queue[0], if PacketJson.ToJson(s.queue[0]).Success? && socketOk then Sent else Failed)])
      && t.accepted == s.accepted && t.logMark == s.logMark && t.metricMark == s.metricMark
  {
  }

  /**
   * One round: the excess is skipped, then the oldest packet left is sent or fails, and everything else waits. So a
   * backlog always moves, by exactly one packet beyond the excess.
   */
  lemma RoundExactly(s: State, interval: int, socketOk: bool, now: int)
    ensures var t, k := Iterate(s, interval, socketOk, now), Excess(s.queue);
      && s.removals <= t.removals && t.accepted == s.accepted
      && (s.queue == [] ==> t.queue == [] && t.removals == s.removals)
      && (s.queue != [] ==>
            && t.queue == s.queue[k + 1..] && |t.removals| == |s.removals| + k + 1
            && (forall i :: 0 <= i < k ==> t.removals[|s.removals| + i] == Removal(s.queue[i], Skipped))
            && t.removals[|s.removals| + k] == Removal(s.queue[k],
                 if PacketJson.ToJson(s.queue[k]).Success? && socketOk then Sent else Failed))
  {
    TrimExactly(s);
    SendExactly(Trim(s), socketOk);
  }

  /** When counters start again: those of the log after the interval, those of the last minute after 60 seconds. */
  lemma ResetsExactly(s: State, interval: int, socketOk: bool, now: int)
    ensures var t := Iterate(s, interval, socketOk, now);
      && (if interval > 0 && now - s.counters.lastLogTime >= interval
          then t.logMark == |t.removals| && t.counters.lastLogTime == now
          else t.logMark == s.logMark && t.counters.lastLogTime == s.counters.lastLogTime)
      && (if now >= s.counters.nextMetricTime
          then t.metricMark == |t.removals| && t.counters.nextMetricTime == now + 60
          else t.metricMark == s.metricMark && t.counters.nextMetricTime == s.counters.nextMetricTime)
  {
    TrimExactly(s);
    SendExactly(Trim(s), socketOk);
  }

  /** The callback takes exactly the packets the duplicate detector could make a header of. */
  lemma AcceptableExactly(p: Packet)
    ensures Acceptable(p) <==> Headers.FromPacket(p).Success?
  {
  }

  /** The packets that acquisition handed over while there was room, apart from incomplete ones. */
  function Incoming(events: seq<Event>): seq<Packet> {
    if events == [] then []
    else
      var e := events[|events| - 1];
      Incoming(events[..|events| - 1]) +
      (if e.Callback? && e.room && Headers.FromPacket(e.packet).Success? then [e.packet] else [])
  }

  /** Those are the packets accepted, in this order. */
  lemma {:induction false} AcceptedExactly(start: int, interval: int, events: seq<Event>)
    ensures After(start, interval, events).accepted == Incoming(events)
    decreases |events|
  {
    if events == [] {
    } else {
      var before := events[..|events| - 1];
      AcceptedExactly(start, interval, before);
      match events[|events| - 1]
      case Callback(p, room) => AcceptableExactly(p);
      case Round(ok, now) => RoundExactly(After(start, interval, before), interval, ok, now);
    }
  }

  /* ---------- Counting removals ---------- */

  function Count(rs: seq<Removal>, fates: set<Fate>): nat {
    if rs == [] then 0 else Count(rs[..|rs| - 1], fates) + (if rs[|rs| - 1].fate in fates then 1 else 0)
  }

  lemma {:induction false} CountConcat(rs: seq<Removal>, ts: seq<Removal>, fates: set<Fate>)
    ensures Count(rs + ts, fates) == Count(rs, fates) + Count(ts, fates)
    decreases |ts|
  {
    if ts == [] {
      assert rs + ts == rs;
    } else {
      CountConcat(rs, ts[..|ts| - 1], fates);
      assert (rs + ts)[..|rs + ts| - 1] == rs + ts[..|ts| - 1];
    }
  }

  lemma {:induction false} CountMark(ps: seq<Packet>, fate: Fate, fates: set<Fate>)
    ensures Count(Mark(ps, fate), fates) == if fate in fates then |ps| else 0
    decreases |ps|
  {
    if ps == [] {
    } else {
      var rs := Mark(ps, fate);
      CountMark(ps[..|ps| - 1], fate, fates);
      assert rs[..|rs| - 1] == Mark(ps[..|ps| - 1], fate);
      assert rs[|rs| - 1].fate == fate;
    }
  }

  /** Counting by a partition of the fates counts everything. */
  lemma {:induction false} CountPartition(rs: seq<Removal>, a: set<Fate>, b: set<Fate>)
    requires a !! b && Sent in a + b && Skipped in a + b && Failed in a + b
    ensures Count(rs, a) + Count(rs, b) == |rs|
    decreases |rs|
  {
    if rs == [] {
    } else {
      CountPartition(rs[..|rs| - 1], a, b);
      var fate := rs[|rs| - 1].fate;
      assert fate == Sent || fate == Skipped || fate == Failed;
    }
  }

  lemma {:induction false} CountUnion(rs: seq<Removal>, a: set<Fate>, b: set<Fate>)
    requires a !! b
    ensures Count(rs, a + b) == Count(rs, a) + Count(rs, b)
    decreases |rs|
  {
    if rs == [] {
    } else {
      CountUnion(rs[..|rs| - 1], a, b);
    }
  }

  function PacketsOf(rs: seq<Removal>): (ps: seq<Packet>)
    ensures |ps| == |rs|
  {
    seq(|rs|, i requires 0 <= i < |rs| => rs[i].packet)
  }

  /** The counters count the removals since their reset; the last minute does not see failed sends. */
  ghost predicate CountersExact(s: State) {
    && s.logMark <= |s.removals| && s.metricMark <= |s.removals|
    && s.counters.nSent == Count(s.removals[s.logMark..], {Sent})
    && s.counters.nNotSent == Count(s.removals[s.logMark..], {Skipped, Failed})
    && s.counters.nSentInLastMinute == Count(s.removals[s.metricMark..], {Sent})
    && s.counters.nNotSentInLastMinute == Count(s.removals[s.metricMark..], {Skipped})
  }

  lemma CountSince(rs: seq<Removal>, ts: seq<Removal>, mark: nat, fates: set<Fate>)
    requires mark <= |rs|
    ensures Count((rs + ts)[mark..], fates) == Count(rs[mark..], fates) + Count(ts, fates)
  {
    assert (rs + ts)[mark..] == rs[mark..] + ts;
    CountConcat(rs[mark..], ts, fates);
  }

  /** Appending removals keeps the counters exact when they grow by the right counts. */
  lemma CountersGrow(s: State, t: State, ts: seq<Removal>)
    requires CountersExact(s) && t.removals == s.removals + ts
    requires t.logMark == s.logMark && t.metricMark == s.metricMark
    requires t.counters.nSent == s.counters.nSent + Count(ts, {Sent})
    requires t.counters.nNotSent == s.counters.nNotSent + Count(ts, {Skipped, Failed})
    requires t.counters.nSentInLastMinute == s.counters.nSentInLastMinute + Count(ts, {Sent})
    requires t.counters.nNotSentInLastMinute == s.counters.nNotSentInLastMinute + Count(ts, {Skipped})
    ensures CountersExact(t)
  {
    CountSince(s.removals, ts, s.logMark, {Sent});
    CountSince(s.removals, ts, s.logMark, {Skipped, Failed});
    CountSince(s.removals, ts, s.metricMark, {Sent});
    CountSince(s.removals, ts, s.metricMark, {Skipped});
  }

  lemma TrimCounts(s: State)
    requires CountersExact(s)
    ensures CountersExact(Trim(s))
  {
    if |s.queue| > MAX_QUEUE_SIZE {
      var gone := s.queue[..|s.queue| - MAX_QUEUE_SIZE];
      CountMark(gone, Skipped, {Sent});
      CountMark(gone, Skipped, {Skipped, Failed});
      CountMark(gone, Skipped, {Skipped});
      CountersGrow(s, Trim(s), Mark(gone, Skipped));
    }
  }

  lemma CountOne(r: Removal, fates: set<Fate>)
    ensures Count([r], fates) == if r.fate in fates then 1 else 0
  {
    assert [r][..0] == [];
  }

  lemma SendCounts(s: State, ok: bool)
    requires CountersExact(s)
    ensures CountersExact(SendFront(s, ok))
  {
    if s.queue != [] {
      var r := Removal(s.queue[0], if Sends(s.queue[0], ok) then Sent else Failed);
      CountOne(r, {Sent});
      CountOne(r, {Skipped, Failed});
      CountOne(r, {Skipped});
      CountersGrow(s, SendFront(s, ok), [r]);
    }
  }

  /** First in, first out: the accepted packets are those removed followed by those queued. */
  ghost predicate Fifo(s: State) {
    s.accepted == PacketsOf(s.removals) + s.queue
  }

  lemma TrimFifo(s: State)
    requires Fifo(s)
    ensures Fifo(Trim(s)) && |Trim(s).queue| <= MAX_QUEUE_SIZE
  {
    if |s.queue| > MAX_QUEUE_SIZE {
      var n := |s.queue| - MAX_QUEUE_SIZE;
      assert PacketsOf(Trim(s).removals) == PacketsOf(s.removals) + s.queue[..n];
    }
  }

  lemma SendFifo(s: State, ok: bool)
    requires Fifo(s)
    ensures Fifo(SendFront(s, ok))
  {
    if s.queue != [] {
      assert PacketsOf(SendFront(s, ok).removals) == PacketsOf(s.removals) + [s.queue[0]];
    }
  }

  lemma ResetsKeep(s: State, interval: int, now: int)
    requires CountersExact(s) && Fifo(s)
    ensures var t := ResetMetrics(ResetLog(s, interval, now), now); CountersExact(t) && Fifo(t)
  {
    assert s.removals[|s.removals|..] == [];
  }

  /** Over every run: first in, first out, and all four counters are exact. */
  lemma {:induction false} RunExact(start: int, interval: int, events: seq<Event>)
    ensures Fifo(After(start, interval, events)) && CountersExact(After(start, interval, events))
    decreases |events|
  {
    if events == [] {
    } else {
      var s := After(start, interval, events[..|events| - 1]);
      RunExact(start, interval, events[..|events| - 1]);
      match events[|events| - 1]
      case Callback(p, room) =>
        assert PacketsOf(s.removals) + s.queue + [p] == PacketsOf(s.removals) + (s.queue + [p]);
      case Round(ok, now) =>
        TrimCounts(s);
        TrimFifo(s);
        SendCounts(Trim(s), ok);
        SendFifo(Trim(s), ok);
        ResetsKeep(SendFront(Trim(s), ok), interval, now);
    }
  }

  /**
   * Since the last reset, sent plus not sent is the number of packets removed. The counters of the last minute
   * add up to that exactly when no send failed in it.
   */
  lemma CountersConserve(start: int, interval: int, events: seq<Event>)
    ensures var s := After(start, interval, events);
      && s.logMark <= |s.removals| && s.metricMark <= |s.removals|
      && s.counters.nSent + s.counters.nNotSent == |s.removals| - s.logMark
      && (s.counters.nSentInLastMinute + s.counters.nNotSentInLastMinute == |s.removals| - s.metricMark <==>
          Count(s.removals[s.metricMark..], {Failed}) == 0)
  {
    var s := After(start, interval, events);
    RunExact(start, interval, events);
    CountPartition(s.removals[s.logMark..], {Sent}, {Skipped, Failed});
    CountPartition(s.removals[s.metricMark..], {Sent} + {Skipped}, {Failed});
    CountUnion(s.removals[s.metricMark..], {Sent}, {Skipped});
  }

  const UNLOCATED :=
    Packet(ChannelName.Codes("N", "S", "C", ""), Samples.Samples([0], [], [], [], Integer32), 0, 0, 1.0)

  lemma UnlocatedAcceptable()
    ensures Acceptable(UNLOCATED)
  {
  }

  lemma UnlocatedFails(s: State, socketOk: bool)
    requires s.queue == [UNLOCATED]
    ensures SendFront(s, socketOk) == s.(queue := [], removals := s.removals + [Removal(UNLOCATED, Failed)],
                                         counters := s.counters.(nNotSent := s.counters.nNotSent + 1))
  {
    assert !Sends(UNLOCATED, socketOk);
  }

  /** A run whose last-minute counters miss a packet: it has no location code, so its send fails. */
  lemma FailedSendUncounted()
    ensures var s := After(0, 0, [Callback(UNLOCATED, true), Round(true, 0)]);
      && s.counters.nSentInLastMinute + s.counters.nNotSentInLastMinute == 0
      && s.removals == [Removal(UNLOCATED, Failed)] && s.metricMark == 0
  {
    var add, round := Callback(UNLOCATED, true), Round(true, 0);
    assert [add, round][..1] == [add] && [add][..0] == [];
    UnlocatedAcceptable();
    assert After(0, 0, []) == Start(0);
    var queued := After(0, 0, [add]);
    assert queued == Add(Start(0), UNLOCATED, true);
    assert queued == Start(0).(queue := [UNLOCATED], accepted := [UNLOCATED]);
    UnlocatedFails(Trim(queued), true);
  }

  /* ---------- What gets sent ---------- */

  /** An accepted packet serialises exactly when it has a location code, which the callback does not check. */
  lemma AcceptedSerialisesIffLocated(p: Packet)
    requires WellFormed(p) && Acceptable(p)
    ensures PacketJson.ToJson(p).Success? <==> p.codes.locationCode != ""
  {
    PacketJson.SerialisesIffComplete(p);
  }

  ghost predicate SendsJustified(s: State) {
    && (forall p :: p in s.queue ==> Acceptable(p))
    && forall r :: r in s.removals ==>
         Acceptable(r.packet) && (r.fate == Sent ==> PacketJson.ToJson(r.packet).Success?)
  }

  lemma IterateJustified(s: State, interval: int, ok: bool, now: int)
    requires SendsJustified(s)
    ensures SendsJustified(Iterate(s, interval, ok, now))
  {
    var t := Trim(s);
    assert SendsJustified(t);
    var u := SendFront(t, ok);
    assert SendsJustified(u);
  }

  lemma {:induction false} RunJustified(start: int, interval: int, events: seq<Event>)
    ensures SendsJustified(After(start, interval, events))
    decreases |events|
  {
    if events == [] {
    } else {
      var s := After(start, interval, events[..|events| - 1]);
      RunJustified(start, interval, events[..|events| - 1]);
      match events[|events| - 1]
      case Callback(p, room) =>
      case Round(ok, now) => IterateJustified(s, interval, ok, now);
    }
  }

  /**
   * Everything the publisher ever sends has a location code and can be read back: receivers rebuild the codes, the
   * times, the rate and, as doubles, every sample.
   */
  lemma SentIsReadable(start: int, interval: int, events: seq<Event>, r: Removal)
    requires r in After(start, interval, events).removals && r.fate == Sent && WellFormed(r.packet)
    ensures r.packet.codes.locationCode != ""
    ensures var json := PacketJson.ToJson(r.packet);
      && json.Success? && PacketJson.FromJson(json.value).Success?
      && var p, q := r.packet, PacketJson.FromJson(json.value).value;
         && q.codes == p.codes && q.startTime == p.startTime && q.endTime == p.endTime
         && q.samplingRate == p.samplingRate && PacketJson.SameNumbers(p, q)
  {
    RunJustified(start, interval, events);
    PacketJson.SerialisesIffComplete(r.packet);
    PacketJson.FieldsSurvive(r.packet);
    PacketJson.SamplesSurvive(r.packet);
  }

  /* ---------- The loop itself ---------- */

  class Publisher {
    const mLogPublishingPerformanceInterval: int
    var mQueue: seq<Packet>
    var nSentPackets: int
    var nNotSentPackets: int
    var nSentPacketsInLastMinute: int
    var nNotSentPacketsInLastMinute: int
    var lastLogTime: int
    var nextSendMetricTime: int
    ghost var accepted: seq<Packet>
    ghost var removals: seq<Removal>
    ghost var logMark: nat
    ghost var metricMark: nat

    ghost function View(): State
      reads this
    {
      State(mQueue,
            Counters(nSentPackets, nNotSentPackets, nSentPacketsInLastMinute, nNotSentPacketsInLastMinute,
                     lastLogTime, nextSendMetricTime),
            accepted, removals, logMark, metricMark)
    }

    constructor (interval: int, now: int)
      ensures View() == Start(now) && mLogPublishingPerformanceInterval == interval
    {
      mLogPublishingPerformanceInterval := interval;
      mQueue := [];
      nSentPackets, nNotSentPackets := 0, 0;
      nSentPacketsInLastMinute, nNotSentPacketsInLastMinute := 0, 0;
      lastLogTime, nextSendMetricTime := now, now + METRIC_INTERVAL;
      accepted, removals, logMark, metricMark := [], [], 0, 0;
    }

    /** The acquisition callback; `thrown` reports the exceptions. */
    method AddPacketsFromAcquisitionCallback(p: Packet, room: bool) returns (thrown: bool)
      modifies this
      ensures View() == Add(old(View()), p, room)
      ensures thrown <==> !Acceptable(p)
    {
      if !Acceptable(p) { return true; }
      if room {
        mQueue := mQueue + [p];
        accepted := accepted + [p];
      }
      thrown := false;
    }

    /** The overflow loop. */
    method TrimQueue()
      modifies this
      ensures View() == Trim(old(View()))
      ensures mQueue == old(mQueue)[Excess(old(mQueue))..] && |mQueue| <= 1024
    {
      ghost var before := View();
      var nDeleted := 0;
      while |mQueue| > MAX_QUEUE_SIZE
        invariant 0 <= nDeleted <= |before.queue| && mQueue == before.queue[nDeleted..]
        invariant nDeleted > 0 ==> |mQueue| >= MAX_QUEUE_SIZE
        invariant View() == before.(queue := mQueue)
      {
        mQueue := mQueue[1..];
        nDeleted := nDeleted + 1;
      }
      if nDeleted > 0 {
        removals := removals + Mark(before.queue[..nDeleted], Skipped);
        nNotSentPackets := nNotSentPackets + nDeleted;
        nNotSentPacketsInLastMinute := nNotSentPacketsInLastMinute + nDeleted;
      }
      TrimExactly(before);
    }

    method SendOne(socketOk: bool)
      modifies this
      ensures View() == SendFront(old(View()), socketOk)
    {
      if mQueue != [] {
        var packet := mQueue[0];
        if Sends(packet, socketOk) {
          nSentPackets := nSentPackets + 1;
          nSentPacketsInLastMinute := nSentPacketsInLastMinute + 1;
          removals := removals + [Removal(packet, Sent)];
        } else {
          nNotSentPackets := nNotSentPackets + 1;
          removals := removals + [Removal(packet, Failed)];
        }
        mQueue := mQueue[1..];
      }
    }

    /** The two periodic reports, each followed by a reset of its counters. */
    method ReportAndReset(nowSeconds: int)
      modifies this
      ensures View() == ResetMetrics(ResetLog(old(View()), mLogPublishingPerformanceInterval, nowSeconds), nowSeconds)
    {
      var logPublishingPerformance := mLogPublishingPerformanceInterval > 0;
      if logPublishingPerformance && nowSeconds >= lastLogTime + mLogPublishingPerformanceInterval {
        nSentPackets, nNotSentPackets := 0, 0;
        lastLogTime := nowSeconds;
        logMark := |removals|;
      }
      if nowSeconds >= nextSendMetricTime {
        nSentPacketsInLastMinute, nNotSentPacketsInLastMinute := 0, 0;
        nextSendMetricTime := nowSeconds + METRIC_INTERVAL;
        metricMark := |removals|;
      }
    }

    /** One round of `sendPacketsViaZeroMQ`. */
    method SendPacketsViaZeroMQ(socketOk: bool, nowSeconds: int)
      modifies this
      ensures View() == Iterate(old(View()), mLogPublishingPerformanceInterval, socketOk, nowSeconds)
      ensures old(mQueue) != [] ==> mQueue == old(mQueue)[Excess(old(mQueue)) + 1..]
    {
      RoundExactly(View(), mLogPublishingPerformanceInterval, socketOk, nowSeconds);
      TrimQueue();
      SendOne(socketOk);
      ReportAndReset(nowSeconds);
    }
  }
}
