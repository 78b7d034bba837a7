/** The header kept for each packet by the duplicate detector, and its tolerant comparison. */
module Headers {
  import ChannelName
  import Packets
  import Rounding
  import opened Wrappers

  /** Times in microseconds; the rate is rounded to an integer. */
  datatype Header = Header(name: string, startTime: int, endTime: int, samplingRate: int, nSamples: int)

  /** The header of a packet; an unset code, rate or sample vector throws. */
  function FromPacket(p: Packets.Packet): Result<Header> {
    if p.codes.network == "" then Failure("Network not set yet")
    else if p.codes.station == "" then Failure("Station not set yet")
    else if p.codes.channel == "" then Failure("Channel not set yet")
    else if p.samplingRate <= 0.0 then Failure("Sampling rate not set")
    else if Packets.Size(p) < 1 then Failure("No samples in signal")
    else
      var rate := Rounding.Round(p.samplingRate);
      Success(Header(ChannelName.ToName(p.codes), p.startTime, p.endTime, rate, Packets.Size(p)))
  }

  /** Every header made from a packet of the packet class runs forward in time. */
  lemma HeaderRunsForward(p: Packets.Packet)
    requires Packets.WellFormed(p) && FromPacket(p).Success?
    ensures FromPacket(p).value.startTime <= FromPacket(p).value.endTime
  {
    Packets.WellFormedTimes(p);
  }

  /**
   * A header says what its packet says: both times are the packet's, the rate is the packet's to one half, the count is
   * the length of the only non-empty sample vector, and a dot-free key splits into the packet's codes.
   */
  lemma HeaderMatchesPacket(p: Packets.Packet)
    requires Packets.WellFormed(p) && FromPacket(p).Success?
    ensures var h, s := FromPacket(p).value, p.samples;
      && h.startTime == p.startTime && h.endTime == p.endTime
      && -0.5 <= h.samplingRate as real - p.samplingRate <= 0.5
      && h.nSamples == |s.integer32| + |s.integer64| + |s.floats| + |s.doubles|
      && (ChannelName.DotFree(p.codes) ==> ChannelName.Split(h.name) == ChannelName.Parts(p.codes))
  {
    Rounding.RoundIsNearest(p.samplingRate);
    Packets.SizeOfSamples(p);
    ChannelName.SplitRecoversIffDotFree(p.codes);
  }

  /** A packet has a header exactly when it has a network, station and channel code, a rate and samples. */
  lemma HeaderExactly(p: Packets.Packet)
    requires Packets.WellFormed(p)
    ensures FromPacket(p).Success? <==>
            && p.codes.network != "" && p.codes.station != "" && p.codes.channel != ""
            && p.samplingRate != 0.0 && p.samples != Packets.NO_SAMPLES
  {
    Packets.SizeOfSamples(p);
  }

  /** Packets with one set of codes share a name, and dot-free codes share a name only if they are one set. */
  lemma SameNameExactly(p: Packets.Packet, q: Packets.Packet)
    requires FromPacket(p).Success? && FromPacket(q).Success?
    ensures p.codes == q.codes ==> FromPacket(p).value.name == FromPacket(q).value.name
    ensures ChannelName.DotFree(p.codes) && ChannelName.DotFree(q.codes) ==>
            (FromPacket(p).value.name == FromPacket(q).value.name <==> p.codes == q.codes)
  {
    if ChannelName.DotFree(p.codes) && ChannelName.DotFree(q.codes) && p.codes != q.codes {
      if FromPacket(p).value.name == FromPacket(q).value.name {
        ChannelName.NameInjective(p.codes, q.codes);
      }
    }
  }

  datatype Comparison = Same | Different | Throws

  const RATE_LIMIT := 1005

  /** How close two start times must be to count as one packet, in microseconds. */
  function Tolerance(samplingRate: int): int
    requires samplingRate < RATE_LIMIT
  {
    if samplingRate < 105 then 15000
    else if samplingRate < 255 then 4500
    else if samplingRate < 505 then 2500
    else 1500
  }

  /** `stored == h`. */
  function Compare(stored: Header, h: Header): Comparison {
    if h.name != stored.name then Different
    else if h.samplingRate - stored.samplingRate != 0 then Throws
    else if h.nSamples != stored.nSamples then Different
    else if stored.samplingRate >= RATE_LIMIT then Throws
    else if Rounding.Abs(h.startTime - stored.startTime) < Tolerance(stored.samplingRate) then Same
    else Different
  }

  /** `std::find`: the first header that does not compare different decides. */
  function Find(ring: seq<Header>, h: Header): Comparison {
    if ring == [] then Different
    else if Compare(ring[0], h) != Different then Compare(ring[0], h)
    else Find(ring[1..], h)
  }

  lemma {:induction false} FindDifferent(ring: seq<Header>, h: Header)
    ensures Find(ring, h) == Different <==> forall x :: x in ring ==> Compare(x, h) == Different
  {
    if ring == [] {
    } else {
      FindDifferent(ring[1..], h);
      assert ring == [ring[0]] + ring[1..];
    }
  }

  lemma {:induction false} FindWitness(ring: seq<Header>, h: Header) returns (x: Header)
    requires Find(ring, h) != Different
    ensures x in ring && Compare(x, h) == Find(ring, h)
  {
    if Compare(ring[0], h) != Different {
      x := ring[0];
    } else {
      x := FindWitness(ring[1..], h);
    }
  }

  /** A header never compares different from itself, so one that is not found is not stored. */
  lemma FoundDifferentIsNew(ring: seq<Header>, h: Header)
    requires Find(ring, h) == Different
    ensures h !in ring
  {
    FindDifferent(ring, h);
  }

  /** When two headers count as one packet: below 105, 255, 505 and 1005 Hz the starts differ by less than this. */
  lemma SameExactly(stored: Header, h: Header)
    ensures Compare(stored, h) == Same <==>
            var rate, later := stored.samplingRate, h.startTime - stored.startTime;
            && h.name == stored.name && h.samplingRate == rate && h.nSamples == stored.nSamples
            && ((rate < 105 && -15000 < later < 15000) || (105 <= rate < 255 && -4500 < later < 4500) ||
                (255 <= rate < 505 && -2500 < later < 2500) || (505 <= rate < 1005 && -1500 < later < 1500))
  {
  }

  /** One channel and one rate throughout. */
  ghost predicate Uniform(ring: seq<Header>, name: string, samplingRate: int) {
    forall x :: x in ring ==> x.name == name && x.samplingRate == samplingRate
  }

  /**
   * When the comparison of a header with a non-empty ring of its own channel throws: the rates differ, or
   * the rate is beyond the last class and some stored packet has as many samples.
   */
  lemma ThrowsExactly(ring: seq<Header>, h: Header, samplingRate: int)
    requires ring != [] && Uniform(ring, h.name, samplingRate)
    ensures Find(ring, h) == Throws <==>
            || h.samplingRate != samplingRate
            || (samplingRate >= RATE_LIMIT && exists x :: x in ring && x.nSamples == h.nSamples)
  {
    FindDifferent(ring, h);
    if Find(ring, h) != Different {
      var x := FindWitness(ring, h);
    } else {
      assert Compare(ring[0], h) == Different;
    }
  }

  /** When a header counts as a duplicate: some stored packet of as many samples starts within tolerance. */
  lemma DuplicateExactly(ring: seq<Header>, h: Header)
    requires Uniform(ring, h.name, h.samplingRate) && h.samplingRate < RATE_LIMIT
    ensures Find(ring, h) == Same <==>
            exists x :: x in ring && x.nSamples == h.nSamples
                        && Rounding.Abs(h.startTime - x.startTime) < Tolerance(h.samplingRate)
  {
    FindDifferent(ring, h);
    if Find(ring, h) != Different {
      var x := FindWitness(ring, h);
      assert x.nSamples == h.nSamples;
    }
  }

  /* ---------- Capacity estimate ---------- */

  const INT_MAX := 0x7fff_ffff

  /** Whole seconds of data in a packet, as the estimate rounds it. */
  function RoundedDuration(h: Header): int {
    Rounding.Max(0, Rounding.Round((h.nSamples as real - 1.0) / Rounding.Max(1, h.samplingRate) as real))
  }

  /**
   * `estimateCapacity`: 1.5 times the packets that fit in `memory` seconds, at least 10, plus 1.
   * A zero duration or a quotient too large for an int (or so large that adding 1 overflows) has no defined
   * result; `outOfRange` stands for whatever the platform then uses as the quotient.
   */
  function EstimateCapacity(h: Header, memory: int, outOfRange: int): int {
    var duration := RoundedDuration(h);
    var quotient :=
      if duration == 0 then outOfRange
      else
        var q := Rounding.Truncate(1.5 * memory as real / duration as real);
        if q < INT_MAX then q else outOfRange;
    Rounding.Max(10, quotient) + 1
  }
}
