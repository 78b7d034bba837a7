/** What the sanitizer decides about each packet, in terms of its options and the clock. */
module SanitizerVerdicts {
  import Channels
  import Coverage
  import Detector
  import Headers
  import Packets
  import Rounding
  import opened Sanitizer
  import SanitizerRuns
  import Streams
  import WindowTesters

  /** The duplicate detector lets the packet through: it is admitted, or its check throws. */
  ghost predicate LetThrough(rings: Channels.Rings, p: Packets.Packet) {
    && Headers.FromPacket(p).Success?
    && var h := Headers.FromPacket(p).value;
       Detector.Verdict(Channels.Lookup(rings, h.name), h)
         in {Detector.First, Detector.Appended, Detector.Backfilled, Detector.Raised}
  }

  /** The end time can be asked for. */
  ghost predicate Timed(p: Packets.Packet) {
    p.samplingRate != 0.0 && p.samples != Packets.NO_SAMPLES
  }

  /** The packet ends no more than the maximum of milliseconds after now and starts no more seconds before it. */
  ghost predicate Timely(o: Options, p: Packets.Packet, nowFuture: int, nowExpired: int) {
    && p.endTime - nowFuture <= 1000 * o.maximumFutureTime
    && (o.maximumLatency > 0 ==> nowExpired - p.startTime <= 1000000 * o.maximumLatency)
  }

  /** The rejection of a packet, and the first test that makes it, from the options and the clock. */
  lemma JudgedExactly(o: Options, rings: Channels.Rings, p: Packets.Packet, nowFuture: int, nowExpired: int)
    requires Packets.WellFormed(p)
    ensures var j, tested := Judge(o, rings, p, nowFuture, nowExpired), o.maximumFutureTime >= 0;
            var late := p.endTime - nowFuture > 1000 * o.maximumFutureTime;
            var timely := Timely(o, p, nowFuture, nowExpired);
            var known := o.circularBufferDuration > 0 && !LetThrough(rings, p);
      && (j == Untested <==> !tested)
      && (j == Threw <==> tested && !Timed(p))
      && (j == InFuture <==> tested && Timed(p) && late)
      && (j == Expired <==> tested && Timed(p) && !late && !timely)
      && (j == NotUnique <==> tested && Timed(p) && timely && known)
      && (j == Pass <==> tested && Timed(p) && timely && !known)
  {
    WindowTesters.EndTimeExactly(p);
  }

  lemma {:induction false} TrailJudged(o: Options, trail: seq<Inspection>, k: nat)
    requires SanitizerRuns.TrailFaithful(o, trail) && k < |trail|
    ensures var c := trail[k];
      c.judgement == Judge(o, Channels.RunAll(DetectorConfig(o), Offered(o, trail[..k])), c.packet,
                           c.nowFuture, c.nowExpired)
    decreases |trail|
  {
    if k == |trail| - 1 {
    } else {
      TrailJudged(o, trail[..|trail| - 1], k);
      assert trail[..|trail| - 1][..k] == trail[..k];
    }
  }

  /**
   * In every interleaving, for every packet that was inspected: it passes exactly when the future test is on, its
   * times are known and within both bounds, and the detector is off or, run on what it was offered before, lets it
   * through.
   */
  lemma PassedExactly(o: Options, events: seq<Event>, k: nat)
    requires k < |After(o, events).trail| && Packets.WellFormed(After(o, events).trail[k].packet)
    ensures var c, before := After(o, events).trail[k], Offered(o, After(o, events).trail[..k]);
      c.judgement == Pass <==>
        && o.maximumFutureTime >= 0 && Timed(c.packet) && Timely(o, c.packet, c.nowFuture, c.nowExpired)
        && (o.circularBufferDuration > 0 ==> LetThrough(Channels.RunAll(DetectorConfig(o), before), c.packet))
  {
    var trail := After(o, events).trail;
    var c, rings := trail[k], Channels.RunAll(DetectorConfig(o), Offered(o, trail[..k]));
    SanitizerRuns.RunFaithful(o, events);
    TrailJudged(o, trail, k);
    JudgedExactly(o, rings, c.packet, c.nowFuture, c.nowExpired);
  }

  /** The detector is offered a header exactly when no earlier test rejected its packet. */
  lemma OfferedExactly(o: Options, events: seq<Event>, k: nat)
    requires k < |After(o, events).trail|
    ensures var trail := After(o, events).trail;
            var header := Headers.FromPacket(trail[k].packet);
      Offered(o, trail[..k + 1]) == Offered(o, trail[..k]) +
        (if trail[k].judgement in {Pass, NotUnique} && o.circularBufferDuration > 0 && header.Success?
         then [header.value] else [])
  {
    var trail := After(o, events).trail;
    SanitizerRuns.RunFaithful(o, events);
    TrailJudged(o, trail, k);
    OfferedUnlessRejected(o, Channels.RunAll(DetectorConfig(o), Offered(o, trail[..k])), trail[k]);
    OfferedOneMore(o, trail, k);
  }

  lemma OfferedOneMore(o: Options, trail: seq<Inspection>, k: nat)
    requires k < |trail|
    ensures var c := trail[k];
      Offered(o, trail[..k + 1]) == Offered(o, trail[..k]) +
        (if ReachesDuplicateTest(o, c.packet, c.nowFuture, c.nowExpired) && Headers.FromPacket(c.packet).Success?
         then [Headers.FromPacket(c.packet).value] else [])
  {
    assert trail[..k + 1] == trail[..k] + [trail[k]];
    TrailSnoc(o, trail[..k], trail[k]);
  }

  lemma OfferedUnlessRejected(o: Options, rings: Channels.Rings, c: Inspection)
    requires c.judgement == Judge(o, rings, c.packet, c.nowFuture, c.nowExpired)
    ensures ReachesDuplicateTest(o, c.packet, c.nowFuture, c.nowExpired) <==>
            c.judgement in {Pass, NotUnique} && o.circularBufferDuration > 0
  {
  }

  /**
   * The rings of the sanitizer cover the duration it was given, in seconds: more than three quarters of it for every
   * gapless stream whose rate was not rounded down, from the packet on that fills the ring.
   */
  lemma SanitizerRingCovers(o: Options, name: string, start: int, rate: real, counts: seq<int>)
    requires o.circularBufferDuration > 0 && counts != [] && counts[0] >= 1 && Streams.AtLeast(counts, counts[0])
    requires 0.0 < rate <= Rounding.Round(rate) as real && 1 <= Rounding.Round(rate) < Headers.RATE_LIMIT
    requires var first := Streams.StreamHeader(name, start, rate, counts[0]);
      && Coverage.QuotientFits(first, o.circularBufferDuration)
      && |counts| >= Detector.Capacity(DetectorConfig(o), first)
    ensures var ring := Detector.Run(DetectorConfig(o), Streams.Gapless(name, start, rate, counts)).value.ring;
      4 * Coverage.Span(ring) > 3 * o.circularBufferDuration * 1000000
  {
    Coverage.StreamCovers(DetectorConfig(o), name, start, rate, counts);
    var ring := Detector.Run(DetectorConfig(o), Streams.Gapless(name, start, rate, counts)).value.ring;
    Coverage.CancelRate(Coverage.Span(ring), rate, Rounding.Round(rate), o.circularBufferDuration);
  }

  /** And they hold no more than that asks for: at most 11 packets, or all but one fit 1.5 times the duration. */
  lemma SanitizerRingBounded(o: Options, h: Headers.Header)
    requires o.circularBufferDuration > 0 && h.nSamples >= 1 && h.samplingRate >= 1
    requires Coverage.QuotientFits(h, o.circularBufferDuration)
    ensures var capacity := Detector.Capacity(DetectorConfig(o), h);
      capacity == 11 ||
      (capacity - 1) * (2 * (h.nSamples - 1) - h.samplingRate) <= 3 * o.circularBufferDuration * h.samplingRate
  {
    Coverage.CapacityInSamples(h, o.circularBufferDuration, o.outOfRange);
  }
}
