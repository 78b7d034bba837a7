/** How much time a full ring of estimated capacity covers. */
module Coverage {
  import CircularBuffers
  import opened Detector
  import Disjointness
  import opened Headers
  import Packets
  import opened Rounding
  import Streams

  /** Multiplying bounds by a positive number, with the products named. */
  lemma ProductBounds(t: real, q: real, s: real, d: real, td: real, qd: real, sd: real)
    requires t <= q < s && d > 0.0 && td == t * d && qd == q * d && sd == s * d
    ensures td <= qd < sd
  {
    assert (s - q) * d > 0.0 && (q - t) * d >= 0.0;
    assert (s - q) * d == sd - qd && (q - t) * d == qd - td;
  }

  lemma ScaledBounds(t: int, q: real, d: int, a: int)
    requires d > 0 && t as real <= q < (t + 1) as real && q * d as real == 1.5 * a as real
    ensures 2 * (t * d) <= 3 * a < 2 * ((t + 1) * d)
  {
    var lower, upper := t * d, (t + 1) * d;
    ProductBounds(t as real, q, (t + 1) as real, d as real, lower as real, 1.5 * a as real, upper as real);
  }

  /** Truncating 1.5 a / d gives the largest integer whose product with d stays within 1.5 a. */
  lemma TruncateBounds(a: int, d: int)
    requires a >= 0 && d > 0
    ensures var t := Truncate(1.5 * a as real / d as real);
      2 * (t * d) <= 3 * a < 2 * ((t + 1) * d)
  {
    var q := 1.5 * a as real / d as real;
    QuotientTimesDivisor(1.5 * a as real, d as real);
    NonNegativeQuotient(1.5 * a as real, d as real);
    ScaledBounds(Truncate(q), q, d, a);
  }

  lemma QuotientTimesDivisor(a: real, d: real)
    requires d > 0.0
    ensures a / d * d == a
  {
  }

  lemma NonNegativeQuotient(a: real, d: real)
    requires a >= 0.0 && d > 0.0
    ensures a / d >= 0.0
  {
  }

  /** The conversion of the quotient to an int is defined. */
  predicate QuotientFits(h: Header, memory: int) {
    RoundedDuration(h) >= 1 && Truncate(1.5 * memory as real / RoundedDuration(h) as real) < INT_MAX
  }

  lemma IntProductMonotone(a: int, b: int, d: int)
    requires a >= b && d >= 0
    ensures a * d >= b * d
  {
  }

  /** The estimate is the least number of packets, but not less than 11, that exceeds 1.5 times the memory. */
  lemma EstimateIsLeast(h: Header, memory: int, outOfRange: int)
    requires memory >= 1 && QuotientFits(h, memory)
    ensures var capacity, d := EstimateCapacity(h, memory, outOfRange), RoundedDuration(h);
      && 2 * (capacity * d) > 3 * memory
      && (capacity == 11 || 2 * ((capacity - 1) * d) <= 3 * memory)
  {
    var d := RoundedDuration(h);
    var t := Truncate(1.5 * memory as real / d as real);
    TruncateBounds(memory, d);
    var capacity := EstimateCapacity(h, memory, outOfRange);
    assert capacity == Max(10, t) + 1;
    IntProductMonotone(capacity, t + 1, d);
  }

  /** The samples of a packet fill at least half its rounded duration. */
  lemma SamplesAtLeastHalf(h: Header)
    requires h.samplingRate >= 1 && RoundedDuration(h) >= 1
    ensures 2 * (h.nSamples - 1) >= RoundedDuration(h) * h.samplingRate
  {
    var n, r, d := h.nSamples - 1, h.samplingRate, RoundedDuration(h);
    var seconds := (h.nSamples as real - 1.0) / r as real;
    QuotientTimesDivisor(h.nSamples as real - 1.0, r as real);
    RoundIsNearest(seconds);
    HalfOfRounded(seconds, r, d, n);
  }

  /** The rounded duration is the nearest number of seconds. */
  lemma RoundedDurationIsNearest(h: Header)
    requires h.nSamples >= 1
    ensures var r := if h.samplingRate < 1 then 1 else h.samplingRate;
      RoundedDuration(h) >= 0 && -r <= 2 * (RoundedDuration(h) * r - (h.nSamples - 1)) <= r
  {
    NearestQuotient(h.nSamples - 1, if h.samplingRate < 1 then 1 else h.samplingRate);
  }

  lemma NearestQuotient(n: int, r: int)
    requires n >= 0 && r >= 1
    ensures var d := Round(n as real / r as real);
      d >= 0 && -r <= 2 * (d * r - n) <= r
  {
    var d := Round(n as real / r as real);
    NonNegativeQuotient(n as real, r as real);
    RoundAtLeast(n as real / r as real, 0);
    if n == 0 {
    } else {
      Streams.QuotientRoundsTo(n, r, d + 1);
      if d > 0 {
        Streams.QuotientRoundsTo(n, r, d);
      }
      assert (2 * (d + 1) - 1) * r == 2 * (d * r) + r && (2 * d - 1) * r == 2 * (d * r) - r;
    }
  }

  /** So the estimate is 11, or little enough that all but one packet fit 1.5 times the memory, in samples. */
  lemma CapacityInSamples(h: Header, memory: int, outOfRange: int)
    requires memory >= 1 && h.nSamples >= 1 && h.samplingRate >= 1 && QuotientFits(h, memory)
    ensures var capacity, r := EstimateCapacity(h, memory, outOfRange), h.samplingRate;
      capacity == 11 || (capacity - 1) * (2 * (h.nSamples - 1) - r) <= 3 * memory * r
  {
    var capacity, d, r := EstimateCapacity(h, memory, outOfRange), RoundedDuration(h), h.samplingRate;
    EstimateIsLeast(h, memory, outOfRange);
    RoundedDurationIsNearest(h);
    if capacity != 11 {
      ScaledTwice(capacity - 1, d, r, 2 * (h.nSamples - 1) - r, 3 * memory);
    }
  }

  lemma ScaledTwice(c: int, d: int, r: int, n: int, m: int)
    requires c >= 0 && r >= 1 && n <= 2 * (d * r) && 2 * (c * d) <= m
    ensures c * n <= m * r
  {
    IntProductMonotone(2 * (d * r), n, c);
    IntProductMonotone(m, 2 * (c * d), r);
    assert (2 * (c * d)) * r == (2 * (d * r)) * c;
  }

  lemma HalfOfRounded(seconds: real, r: int, d: int, n: int)
    requires r >= 1 && d >= 1 && seconds >= d as real - 0.5 && seconds * r as real == n as real
    ensures 2 * n >= d * r
  {
    ScaleUp(r as real, seconds, d as real - 0.5);
    assert r as real * (d as real - 0.5) == (d * r) as real - 0.5 * r as real;
    assert 2 * n >= 2 * (d * r) - r;
    IntProductMonotone(d, 1, r);
  }

  /** Disjoint packets in a row, none shorter than `duration`: the span of the first `k + 1`. */
  lemma {:induction false} SpanAtLeast(ring: seq<Header>, duration: int, k: nat)
    requires CircularBuffers.StrictlySorted(ring) && Disjointness.RingApart(ring) && Forward(ring) && k < |ring|
    requires forall x :: x in ring ==> x.endTime - x.startTime >= duration
    ensures ring[k].endTime - ring[0].startTime >= (k + 1) * duration + k
  {
    assert ring[k] in ring;
    if k == 0 {
    } else {
      SpanAtLeast(ring, duration, k - 1);
      assert ring[k - 1] in ring;
      assert Disjointness.Apart(ring[k - 1], ring[k]);
      assert (k + 1) * duration == k * duration + duration;
    }
  }

  /** The capacity is fixed by the first packet of the channel. */
  lemma {:induction false} CapacityFixed(cfg: Config, hs: seq<Header>)
    requires hs != []
    ensures Run(cfg, hs).value.capacity == Capacity(cfg, hs[0])
    decreases |hs|
  {
    if |hs| > 1 {
      CapacityFixed(cfg, hs[..|hs| - 1]);
    }
  }

  /** The gaps of a microsecond between packets make up for the rounding of their durations. */
  lemma FullRingSpan(cfg: Config, hs: seq<Header>, name: string, duration: int)
    requires OneChannel(hs, name) && hs != [] && Disjointness.RingApart(Run(cfg, hs).value.ring)
    requires forall x :: x in Run(cfg, hs).value.ring ==> x.endTime - x.startTime >= duration
    ensures var ring := Run(cfg, hs).value.ring;
      Span(ring) >= |ring| * duration + |ring| - 1
  {
    RunKeeps(cfg, hs, name);
    var ring := Run(cfg, hs).value.ring;
    SpanAtLeast(ring, duration, |ring| - 1);
  }

  /** The duration of a packet times its rate, less half a microsecond. */
  lemma DurationTimesRate(n: int, rate: real)
    requires rate > 0.0
    ensures (Packets.TraceDuration(n, rate) as real + 0.5) * rate >= (n - 1) as real * 1000000.0
  {
    var x, e := (n - 1) as real / rate, Packets.TraceDuration(n, rate) as real + 0.5;
    QuotientTimesDivisor((n - 1) as real, rate);
    RoundIsNearest(x * 1000000.0);
    AtLeastTimesRate(e, x, rate, (n - 1) as real);
  }

  lemma AtLeastTimesRate(e: real, x: real, rate: real, p: real)
    requires rate > 0.0 && e >= x * 1000000.0 && x * rate == p
    ensures e * rate >= p * 1000000.0
  {
    ScaleUp(rate, e, x * 1000000.0);
    Rotate(rate, x, 1000000.0);
  }

  lemma Rotate(a: real, b: real, c: real)
    ensures a * (b * c) == (b * a) * c
  {
  }

  /** The integer part: capacity, rounded seconds, rate and samples. */
  lemma SamplesInMemory(capacity: int, d: int, r: int, n: int, memory: int)
    requires capacity >= 0 && r >= 1 && 2 * n >= d * r && 2 * (capacity * d) > 3 * memory
    ensures 4 * (capacity * n) > 3 * memory * r
  {
    IntProductMonotone(2 * n, d * r, capacity);
    assert (2 * n) * capacity == 2 * (capacity * n);
    assert (d * r) * capacity == (capacity * d) * r;
    IntProductMonotone(2 * (capacity * d), 3 * memory + 1, r);
  }

  lemma CastProduct(a: int, b: int)
    ensures (a * b) as real == a as real * b as real
  {
  }

  /** The gaps make up for half a microsecond in each packet. */
  lemma GapsMakeUp(span: int, capacity: int, duration: int)
    requires capacity >= 2 && span >= capacity * duration + capacity - 1
    ensures span as real >= capacity as real * (duration as real + 0.5)
  {
    CastProduct(capacity, duration);
  }

  /** Three facts chained: `c` packets of length `e`, each with `b` microsamples at this rate. */
  lemma ScaledSpan(s: real, c: real, e: real, rate: real, b: real)
    requires rate > 0.0 && c >= 0.0 && s >= c * e && e * rate >= b
    ensures s * rate >= c * b
  {
    ScaleUp(rate, s, c * e);
    Rotate(rate, c, e);
    Rotate(c, rate, e);
    ScaleUp(c, e * rate, b);
  }

  lemma SpanTimesRate(span: int, capacity: int, duration: int, rate: real, n: int)
    requires rate > 0.0 && capacity >= 2 && span >= capacity * duration + capacity - 1
    requires (duration as real + 0.5) * rate >= n as real * 1000000.0
    ensures span as real * rate >= (capacity * n) as real * 1000000.0
  {
    GapsMakeUp(span, capacity, duration);
    ScaledSpan(span as real, capacity as real, duration as real + 0.5, rate, n as real * 1000000.0);
    CastProduct(capacity, n);
    Rotate(capacity as real, n as real, 1000000.0);
  }

  lemma ScaleUp(c: real, a: real, b: real)
    requires c >= 0.0 && a >= b
    ensures c * a >= c * b
  {
    assert c * (a - b) >= 0.0;
  }

  /** The span, scaled by the rates, exceeds three quarters of the memory. */
  ghost predicate Covers(span: int, rate: real, roundedRate: int, memory: int) {
    4.0 * (span as real * rate) > (3 * memory * roundedRate) as real * 1000000.0
  }

  lemma CoverArithmetic(span: int, capacity: int, duration: int, rate: real, n: int, r: int, d: int, memory: int)
    requires rate > 0.0 && capacity >= 2 && r >= 1
    requires span >= capacity * duration + capacity - 1
    requires (duration as real + 0.5) * rate >= n as real * 1000000.0
    requires 2 * n >= d * r && 2 * (capacity * d) > 3 * memory
    ensures Covers(span, rate, r, memory)
  {
    SpanTimesRate(span, capacity, duration, rate, n);
    SamplesInMemory(capacity, d, r, n, memory);
    Quadruple(span as real * rate, capacity * n, 3 * memory * r);
  }

  lemma Quadruple(p: real, a: int, b: int)
    requires p >= a as real * 1000000.0 && 4 * a > b
    ensures 4.0 * p > b as real * 1000000.0
  {
  }

  /** What the estimate promises about the first packet of a channel. */
  lemma FirstPacketCapacity(cfg: Config, h: Header)
    requires cfg.estimateCapacity && h.samplingRate >= 1 && QuotientFits(h, cfg.memory)
    ensures 2 * (h.nSamples - 1) >= RoundedDuration(h) * h.samplingRate
    ensures 2 * (Capacity(cfg, h) * RoundedDuration(h)) > 3 * cfg.memory
  {
    EstimateIsLeast(h, cfg.memory, cfg.outOfRange);
    SamplesAtLeastHalf(h);
  }

  /** That many packets in a row, each as long as the first, cover the memory. */
  lemma EnoughPacketsCover(cfg: Config, h: Header, rate: real, span: int)
    requires cfg.estimateCapacity && rate > 0.0 && h.samplingRate >= 1 && QuotientFits(h, cfg.memory)
    requires span >= Capacity(cfg, h) * Packets.TraceDuration(h.nSamples, rate) + Capacity(cfg, h) - 1
    ensures Covers(span, rate, h.samplingRate, cfg.memory)
  {
    FirstPacketCapacity(cfg, h);
    DurationTimesRate(h.nSamples, rate);
    var capacity, duration, d := Capacity(cfg, h), Packets.TraceDuration(h.nSamples, rate), RoundedDuration(h);
    CoverArithmetic(span, capacity, duration, rate, h.nSamples - 1, h.samplingRate, d, cfg.memory);
  }

  ghost function Span(ring: seq<Header>): int
    requires ring != []
  {
    ring[|ring| - 1].endTime - ring[0].startTime
  }

  /** A full ring of disjoint packets, none shorter than the channel's first. */
  ghost predicate FullOfLongPackets(ch: Channel, first: Header, rate: real)
    requires rate > 0.0
  {
    && |ch.ring| == ch.capacity && Disjointness.RingApart(ch.ring)
    && forall x :: x in ch.ring ==> x.endTime - x.startTime >= Packets.TraceDuration(first.nSamples, rate)
  }

  /**
   * With a first packet of at least one rounded second, a full ring of disjoint packets no shorter than it spans more
   * than three quarters of the requested buffer duration, scaled by the quotient of the rounded rate, which the
   * estimate uses, and the true rate. Stored packets are disjoint in runs that never engulf (`RunRemembers`).
   */
  lemma FullRingCovers(cfg: Config, hs: seq<Header>, name: string, rate: real)
    requires OneChannel(hs, name) && hs != [] && cfg.estimateCapacity
    requires rate > 0.0 && hs[0].samplingRate == Round(rate) >= 1 && QuotientFits(hs[0], cfg.memory)
    requires FullOfLongPackets(Run(cfg, hs).value, hs[0], rate)
    ensures Covers(Span(Run(cfg, hs).value.ring), rate, Round(rate), cfg.memory)
  {
    FullRingSpan(cfg, hs, name, Packets.TraceDuration(hs[0].nSamples, rate));
    CapacityFixed(cfg, hs);
    EnoughPacketsCover(cfg, hs[0], rate, Span(Run(cfg, hs).value.ring));
  }

  /** In particular more than three quarters for integer rates and for rates that were rounded up. */
  lemma FullRingCoversMemory(cfg: Config, hs: seq<Header>, name: string, rate: real)
    requires OneChannel(hs, name) && hs != [] && cfg.estimateCapacity
    requires 0.0 < rate <= Round(rate) as real
    requires hs[0].samplingRate == Round(rate) >= 1 && QuotientFits(hs[0], cfg.memory)
    requires FullOfLongPackets(Run(cfg, hs).value, hs[0], rate)
    ensures 4 * Span(Run(cfg, hs).value.ring) > 3 * cfg.memory * 1000000
  {
    FullRingCovers(cfg, hs, name, rate);
    CancelRate(Span(Run(cfg, hs).value.ring), rate, Round(rate), cfg.memory);
  }

  lemma RoundMonotone(x: real, y: real)
    requires x <= y
    ensures Round(x) <= Round(y)
  {
  }

  lemma LongerLasts(n: int, m: int, rate: real)
    requires rate > 0.0 && n <= m
    ensures Packets.TraceDuration(n, rate) <= Packets.TraceDuration(m, rate)
  {
    QuotientTimesDivisor((n - 1) as real, rate);
    QuotientTimesDivisor((m - 1) as real, rate);
    RoundMonotone((n - 1) as real / rate * 1000000.0, (m - 1) as real / rate * 1000000.0);
  }

  lemma {:induction false} StreamLengths(name: string, start: int, rate: real, counts: seq<int>, n: int, x: Header)
    requires rate > 0.0 && Streams.AtLeast(counts, 1) && Streams.AtLeast(counts, n)
    requires x in Streams.Gapless(name, start, rate, counts)
    ensures x.endTime - x.startTime >= Packets.TraceDuration(n, rate)
    decreases |counts|
  {
    Streams.GaplessSnoc(name, start, rate, counts);
    LongerLasts(n, counts[|counts| - 1], rate);
    if x in Streams.Gapless(name, start, rate, counts[..|counts| - 1]) {
      StreamLengths(name, start, rate, counts[..|counts| - 1], n, x);
    }
  }

  /** The header that fixes the capacity is that of the first packet. */
  lemma {:induction false} FirstOfStream(name: string, start: int, rate: real, counts: seq<int>)
    requires rate > 0.0 && Streams.AtLeast(counts, 1) && counts != []
    ensures Streams.Gapless(name, start, rate, counts)[0] == Streams.StreamHeader(name, start, rate, counts[0])
    decreases |counts|
  {
    if |counts| == 1 {
    } else {
      FirstOfStream(name, start, rate, counts[..|counts| - 1]);
    }
  }

  lemma AtLeastOneSecond(d: int, r: int)
    requires d >= 1 && r >= 1
    ensures d * r >= 1
  {
  }

  /** Streams that are admitted in full fill the ring. */
  lemma StreamFillsRing(cfg: Config, name: string, start: int, rate: real, counts: seq<int>)
    requires 0.0 < rate && Round(rate) < RATE_LIMIT && cfg.estimateCapacity && counts != []
    requires counts[0] >= 1 && Streams.AtLeast(counts, counts[0]) && Streams.WellSpaced(rate, counts)
    requires |counts| >= Capacity(cfg, Streams.StreamHeader(name, start, rate, counts[0]))
    ensures FullOfLongPackets(Run(cfg, Streams.Gapless(name, start, rate, counts)).value,
                              Streams.StreamHeader(name, start, rate, counts[0]), rate)
  {
    var hs := Streams.Gapless(name, start, rate, counts);
    Streams.AdmittedWhenWellSpaced(cfg, name, start, rate, counts);
    Streams.GaplessIsOneChannel(name, start, rate, counts);
    FirstOfStream(name, start, rate, counts);
    CapacityFixed(cfg, hs);
    Disjointness.RingWasRecorded(cfg, hs, name);
    Disjointness.ChosenWereOffered(cfg, hs, RECORDED);
    forall x | x in Run(cfg, hs).value.ring
      ensures x.endTime - x.startTime >= Packets.TraceDuration(counts[0], rate)
    {
      StreamLengths(name, start, rate, counts, counts[0], x);
    }
  }

  /**
   * Gapless streams in which no packet is shorter than the first, and that lasts a rounded second: from the packet on
   * that fills the ring, it covers the requested duration.
   */
  lemma StreamCovers(cfg: Config, name: string, start: int, rate: real, counts: seq<int>)
    requires 0.0 < rate && 1 <= Round(rate) < RATE_LIMIT && cfg.estimateCapacity && counts != []
    requires counts[0] >= 1 && Streams.AtLeast(counts, counts[0])
    requires QuotientFits(Streams.StreamHeader(name, start, rate, counts[0]), cfg.memory)
    requires |counts| >= Capacity(cfg, Streams.StreamHeader(name, start, rate, counts[0]))
    ensures Covers(Span(Run(cfg, Streams.Gapless(name, start, rate, counts)).value.ring), rate, Round(rate), cfg.memory)
  {
    SamplesAtLeastHalf(Streams.StreamHeader(name, start, rate, counts[0]));
    AtLeastOneSecond(RoundedDuration(Streams.StreamHeader(name, start, rate, counts[0])), Round(rate));
    Streams.LongPacketsWellSpaced(rate, counts);
    StreamFillsRing(cfg, name, start, rate, counts);
    FirstOfStream(name, start, rate, counts);
    Streams.GaplessIsOneChannel(name, start, rate, counts);
    FullRingCovers(cfg, Streams.Gapless(name, start, rate, counts), name, rate);
  }

  lemma CancelRate(span: int, rate: real, r: int, memory: int)
    requires 0.0 < rate <= r as real && memory >= 1 && Covers(span, rate, r, memory)
    ensures 4 * span > 3 * memory * 1000000
  {
    var need := (3 * memory * 1000000) as real;
    assert (3 * memory * r) as real * 1000000.0 == need * r as real;
    ScaleUp(need, r as real, rate);
    assert (4.0 * span as real - need) * rate > 0.0;
  }
}
