/** Streams the detector must not reject: gapless ones, and ones that start late enough. */
module Streams {
  import opened Detector
  import Disjointness
  import opened Headers
  import Packets
  import opened Rounding
  import opened Wrappers

  /** Microseconds taken by `n` samples, which is how far apart gapless packets start. */
  function Spacing(n: int, rate: real): int
    requires rate > 0.0
  {
    Round(n as real * 1000000.0 / rate)
  }

  /** Where the packet after a gapless stream starts; `counts` are the sample counts of its packets. */
  function NextStart(start: int, rate: real, counts: seq<int>): int
    requires rate > 0.0
  {
    if counts == [] then start
    else NextStart(start, rate, counts[..|counts| - 1]) + Spacing(counts[|counts| - 1], rate)
  }

  function StreamHeader(name: string, start: int, rate: real, n: nat): Header
    requires rate > 0.0
  {
    Header(name, start, Packets.EndTimeOf(start, n, rate), Round(rate), n)
  }

  predicate AtLeast(counts: seq<int>, minimum: int) {
    forall i :: 0 <= i < |counts| ==> counts[i] >= minimum
  }

  /** Back-to-back packets of one channel in order. */
  function Gapless(name: string, start: int, rate: real, counts: seq<int>): (hs: seq<Header>)
    requires rate > 0.0 && AtLeast(counts, 1)
    ensures |hs| == |counts|
  {
    if counts == [] then []
    else
      var before := counts[..|counts| - 1];
      Gapless(name, start, rate, before)
        + [StreamHeader(name, NextStart(start, rate, before), rate, counts[|counts| - 1])]
  }

  /* ---------- Arithmetic of the four rate classes ---------- */

  lemma QuotientAtLeast(a: real, r: real, k: real, bound: real)
    requires 0.0 < r <= bound && 0.0 <= k && k * bound <= a
    ensures a / r >= k
  {
    assert k * r <= k * bound;
  }

  /** The last sample of a packet comes well before the first of the next. */
  lemma SpacingExceedsDuration(n: int, rate: real)
    requires n >= 1 && rate > 0.0 && Round(rate) < RATE_LIMIT
    ensures 0 <= Packets.TraceDuration(n, rate) < Spacing(n, rate)
  {
    RoundIsNearest(rate);
    QuotientAtLeast(1000000.0, rate, 995.0, 1004.5);
    var duration := (n - 1) as real / rate * 1000000.0;
    var spacing := n as real * 1000000.0 / rate;
    SplitSpacing(n, rate);
    Packets.NonNegativeProduct(n - 1, rate);
    RoundAtLeast(duration, 0);
    RoundIsNearest(duration);
    RoundIsNearest(spacing);
  }

  lemma SplitSpacing(n: int, rate: real)
    requires rate > 0.0
    ensures n as real * 1000000.0 / rate == (n - 1) as real / rate * 1000000.0 + 1000000.0 / rate
  {
    var x := (n - 1) as real / rate;
    var y := 1000000.0 / rate;
    assert x * rate == (n - 1) as real && y * rate == 1000000.0;
    assert (x * 1000000.0 + y) * rate == n as real * 1000000.0 by {
      assert (x * 1000000.0) * rate == (x * rate) * 1000000.0;
    }
  }

  /** Two sample intervals, in one packet or in two, span the tolerance in every rate class. */
  lemma TwoSamplesSuffice(n: int, rate: real)
    requires n >= 1 && rate > 0.0 && Round(rate) < RATE_LIMIT
    ensures 2 * Spacing(n, rate) >= Tolerance(Round(rate))
    ensures n >= 2 ==> Spacing(n, rate) >= Tolerance(Round(rate))
  {
    RoundIsNearest(rate);
    var a := n as real * 1000000.0;
    var half, bound :=
      if Round(rate) < 105 then 7500 else if Round(rate) < 255 then 2250
      else if Round(rate) < 505 then 1250 else 750,
      if Round(rate) < 105 then 104.5 else if Round(rate) < 255 then 254.5
      else if Round(rate) < 505 then 504.5 else 1004.5;
    QuotientAtLeast(a, rate, half as real, bound);
    RoundAtLeast(a / rate, half);
    if n >= 2 {
      QuotientAtLeast(a, rate, 2.0 * half as real, bound);
      RoundAtLeast(a / rate, 2 * half);
    }
  }

  /* ---------- Gapless streams ---------- */

  lemma {:induction false} GaplessIsOneChannel(name: string, start: int, rate: real, counts: seq<int>)
    requires rate > 0.0 && Round(rate) < RATE_LIMIT && AtLeast(counts, 1)
    ensures OneChannel(Gapless(name, start, rate, counts), name)
    decreases |counts|
  {
    if counts == [] {
    } else {
      GaplessIsOneChannel(name, start, rate, counts[..|counts| - 1]);
      SpacingExceedsDuration(counts[|counts| - 1], rate);
    }
  }

  /** A header that follows the back of the ring at a safe distance is appended. */
  lemma FollowerAppended(ch: Channel, h: Header)
    requires WellKept(ch, h.name) && h.samplingRate == ch.ring[0].samplingRate < RATE_LIMIT
    requires h.startTime > ch.ring[|ch.ring| - 1].endTime
    requires h.startTime - ch.ring[|ch.ring| - 1].startTime >= Tolerance(h.samplingRate)
    ensures Decide(ch, h) == Appended
  {
    forall x | x in ch.ring
      ensures Compare(x, h) == Different
    {
      var i :| 0 <= i < |ch.ring| && ch.ring[i] == x;
      assert x.startTime <= ch.ring[|ch.ring| - 1].startTime;
    }
    FindDifferent(ch.ring, h);
  }

  /** Where two packets in a row have equally many samples, the first spans the tolerance. */
  predicate WellSpaced(rate: real, counts: seq<int>)
    requires rate > 0.0 && Round(rate) < RATE_LIMIT
  {
    forall i :: 0 <= i < |counts| - 1 && counts[i] == counts[i + 1] ==>
      Spacing(counts[i], rate) >= Tolerance(Round(rate))
  }

  lemma GaplessSnoc(name: string, start: int, rate: real, counts: seq<int>)
    requires rate > 0.0 && AtLeast(counts, 1) && counts != []
    ensures var before := counts[..|counts| - 1];
      && AtLeast(before, 1)
      && Gapless(name, start, rate, counts)
         == Gapless(name, start, rate, before)
            + [StreamHeader(name, NextStart(start, rate, before), rate, counts[|counts| - 1])]
  {
  }

  /** Every packet of a stream starts half a tolerance before the next packet. */
  lemma {:induction false} StartsBefore(name: string, start: int, rate: real, counts: seq<int>, x: Header)
    requires rate > 0.0 && Round(rate) < RATE_LIMIT && AtLeast(counts, 1)
    requires x in Gapless(name, start, rate, counts)
    ensures 2 * (NextStart(start, rate, counts) - x.startTime) >= Tolerance(Round(rate))
    decreases |counts|
  {
    var before := counts[..|counts| - 1];
    GaplessSnoc(name, start, rate, counts);
    TwoSamplesSuffice(counts[|counts| - 1], rate);
    if x in Gapless(name, start, rate, before) {
      StartsBefore(name, start, rate, before, x);
    }
  }

  /** The ring is up to date: it ends with the last header, holds as many as it can, and its headers are apart. */
  ghost predicate UpToDate(ch: Channel, hs: seq<Header>)
    requires hs != []
  {
    && ch.ring[|ch.ring| - 1] == hs[|hs| - 1]
    && |ch.ring| == Min(|hs|, ch.capacity)
    && Disjointness.RingApart(ch.ring)
  }

  /** Everything offered was admitted. */
  ghost predicate FullyAdmitted(cfg: Config, hs: seq<Header>) {
    Chosen(cfg, hs, ADMITTED) == hs && (hs != [] ==> UpToDate(Run(cfg, hs).value, hs))
  }

  /** Only the packet before the last can be taken for the next: all others start a tolerance earlier. */
  lemma OnlyLastCompares(name: string, start: int, rate: real, before: seq<int>, n: int, x: Header)
    requires rate > 0.0 && Round(rate) < RATE_LIMIT && before != [] && AtLeast(before, 1) && n >= 1
    requires x in Gapless(name, start, rate, before)
    ensures var h := StreamHeader(name, NextStart(start, rate, before), rate, n);
      Compare(x, h) == Same || Compare(x, h) == Different
    ensures var h := StreamHeader(name, NextStart(start, rate, before), rate, n);
            var hs := Gapless(name, start, rate, before);
      Compare(x, h) == Same ==>
        x == hs[|hs| - 1] && x.nSamples == n && Spacing(before[|before| - 1], rate) < Tolerance(Round(rate))
  {
    var earlier, last := before[..|before| - 1], before[|before| - 1];
    SameRate(name, start, rate, before, x);
    GaplessSnoc(name, start, rate, before);
    TwoSamplesSuffice(last, rate);
    if x in Gapless(name, start, rate, earlier) {
      StartsBefore(name, start, rate, earlier, x);
    }
  }

  lemma {:induction false} SameRate(name: string, start: int, rate: real, counts: seq<int>, x: Header)
    requires rate > 0.0 && AtLeast(counts, 1) && x in Gapless(name, start, rate, counts)
    ensures x.name == name && x.samplingRate == Round(rate)
    decreases |counts|
  {
    GaplessSnoc(name, start, rate, counts);
    if x in Gapless(name, start, rate, counts[..|counts| - 1]) {
      SameRate(name, start, rate, counts[..|counts| - 1], x);
    }
  }

  /** A header behind the ring that only the back can be taken for. */
  lemma BehindRing(ch: Channel, h: Header)
    requires var back := ch.ring[|ch.ring| - 1];
      && h.startTime > back.endTime
      && forall x :: x in ch.ring ==> Compare(x, h) == Different || (Compare(x, h) == Same && x == back)
    ensures Decide(ch, h) == if Compare(ch.ring[|ch.ring| - 1], h) == Same then Duplicate else Appended
  {
    assert ch.ring[|ch.ring| - 1] in ch.ring;
    FindDifferent(ch.ring, h);
    if Find(ch.ring, h) != Different {
      var x := FindWitness(ch.ring, h);
    }
  }

  /** How the last packet of a stream and the next one compare. */
  lemma LastCompares(name: string, start: int, rate: real, before: seq<int>, n: int)
    requires rate > 0.0 && Round(rate) < RATE_LIMIT && before != [] && AtLeast(before, 1) && n >= 1
    ensures var hs := Gapless(name, start, rate, before);
            var last, h := hs[|hs| - 1], StreamHeader(name, NextStart(start, rate, before), rate, n);
      && h.startTime > last.endTime
      && (Compare(last, h) == Same <==>
            before[|before| - 1] == n && Spacing(n, rate) < Tolerance(Round(rate)))
  {
    GaplessSnoc(name, start, rate, before);
    SpacingExceedsDuration(before[|before| - 1], rate);
  }

  /** What happens to the next packet of a stream that was admitted in full so far. */
  lemma NextOfStream(cfg: Config, name: string, start: int, rate: real, before: seq<int>, n: int)
    requires rate > 0.0 && Round(rate) < RATE_LIMIT && before != [] && AtLeast(before, 1) && n >= 1
    requires FullyAdmitted(cfg, Gapless(name, start, rate, before))
    ensures Verdict(Run(cfg, Gapless(name, start, rate, before)),
                    StreamHeader(name, NextStart(start, rate, before), rate, n))
         == if before[|before| - 1] == n && Spacing(n, rate) < Tolerance(Round(rate)) then Duplicate else Appended
  {
    var earlier := Gapless(name, start, rate, before);
    var h := StreamHeader(name, NextStart(start, rate, before), rate, n);
    var ch := Run(cfg, earlier).value;
    RingWasOffered(cfg, name, start, rate, before);
    forall x | x in ch.ring
      ensures Compare(x, h) == Different || (Compare(x, h) == Same && x == ch.ring[|ch.ring| - 1])
    {
      OnlyLastCompares(name, start, rate, before, n, x);
    }
    LastCompares(name, start, rate, before, n);
    BehindRing(ch, h);
  }

  lemma RingWasOffered(cfg: Config, name: string, start: int, rate: real, counts: seq<int>)
    requires rate > 0.0 && Round(rate) < RATE_LIMIT && counts != [] && AtLeast(counts, 1)
    ensures var hs := Gapless(name, start, rate, counts);
      Run(cfg, hs).Some? && forall x :: x in Run(cfg, hs).value.ring ==> x in hs
  {
    var hs := Gapless(name, start, rate, counts);
    GaplessIsOneChannel(name, start, rate, counts);
    Disjointness.RingWasRecorded(cfg, hs, name);
    Disjointness.ChosenWereOffered(cfg, hs, RECORDED);
  }

  lemma AdmitFirst(cfg: Config, h: Header)
    ensures FullyAdmitted(cfg, [h])
  {
    assert [h][..0] == [];
    assert Run(cfg, [h]) == Some(Buffer(Capacity(cfg, h), [h]));
  }

  lemma AppendKeepsApart(ch: Channel, h: Header)
    requires WellKept(ch, h.name) && Disjointness.RingApart(ch.ring) && Decide(ch, h) == Appended
    ensures Disjointness.RingApart(Next(ch, h).ring)
  {
    StepMembers(ch, h);
    forall x | x in ch.ring
      ensures Disjointness.Apart(x, h)
    {
      Disjointness.EndsBeforeLast(ch.ring, x);
    }
  }

  lemma AppendKeepsUpToDate(ch: Channel, hs: seq<Header>, h: Header)
    requires hs != [] && WellKept(ch, h.name) && UpToDate(ch, hs) && Decide(ch, h) == Appended
    ensures UpToDate(Next(ch, h), hs + [h])
  {
    AppendKeepsApart(ch, h);
    assert Next(ch, h).ring == Kept(ch) + [h];
  }

  lemma AdmitNext(cfg: Config, hs: seq<Header>, name: string, h: Header)
    requires OneChannel(hs, name) && h.name == name && FullyAdmitted(cfg, hs) && hs != []
    requires Verdict(Run(cfg, hs), h) == Appended
    ensures FullyAdmitted(cfg, hs + [h])
  {
    RunKeeps(cfg, hs, name);
    ChosenSnoc(cfg, hs, h, ADMITTED);
    RunSnoc(cfg, hs, h);
    AppendKeepsUpToDate(Run(cfg, hs).value, hs, h);
  }

  lemma {:induction false} ChosenNoLonger(cfg: Config, hs: seq<Header>, kinds: set<Outcome>)
    ensures |Chosen(cfg, hs, kinds)| <= |hs|
    decreases |hs|
  {
    if hs == [] {
    } else {
      ChosenNoLonger(cfg, hs[..|hs| - 1], kinds);
    }
  }

  /** A run is chosen in full exactly when all but its last header are, and then the last. */
  lemma AllChosen(cfg: Config, hs: seq<Header>, h: Header, kinds: set<Outcome>)
    ensures Chosen(cfg, hs + [h], kinds) == hs + [h] <==>
            Chosen(cfg, hs, kinds) == hs && Verdict(Run(cfg, hs), h) in kinds
  {
    ChosenSnoc(cfg, hs, h, kinds);
    ChosenNoLonger(cfg, hs, kinds);
    var chosen := Chosen(cfg, hs, kinds);
    if Chosen(cfg, hs + [h], kinds) == hs + [h] {
      assert |Chosen(cfg, hs + [h], kinds)| == |hs| + 1;
      assert (hs + [h])[..|hs|] == hs && (chosen + [h])[..|chosen|] == chosen;
    }
  }

  lemma WellSpacedSnoc(rate: real, counts: seq<int>)
    requires rate > 0.0 && Round(rate) < RATE_LIMIT && |counts| >= 2
    ensures WellSpaced(rate, counts) <==>
            && WellSpaced(rate, counts[..|counts| - 1])
            && (counts[|counts| - 2] == counts[|counts| - 1] ==>
                  Spacing(counts[|counts| - 1], rate) >= Tolerance(Round(rate)))
  {
    var before := counts[..|counts| - 1];
    assert forall i :: 0 <= i < |before| ==> before[i] == counts[i];
  }

  lemma {:induction false} AdmittedWhenWellSpaced(cfg: Config, name: string, start: int, rate: real, counts: seq<int>)
    requires rate > 0.0 && Round(rate) < RATE_LIMIT && AtLeast(counts, 1)
    ensures WellSpaced(rate, counts) ==> FullyAdmitted(cfg, Gapless(name, start, rate, counts))
    ensures Chosen(cfg, Gapless(name, start, rate, counts), ADMITTED) == Gapless(name, start, rate, counts) ==>
            WellSpaced(rate, counts)
    decreases |counts|
  {
    if counts == [] {
    } else {
      var before, n := counts[..|counts| - 1], counts[|counts| - 1];
      var earlier := Gapless(name, start, rate, before);
      var h := StreamHeader(name, NextStart(start, rate, before), rate, n);
      GaplessSnoc(name, start, rate, counts);
      AllChosen(cfg, earlier, h, ADMITTED);
      AdmittedWhenWellSpaced(cfg, name, start, rate, before);
      if before == [] {
        AdmitFirst(cfg, h);
        assert earlier + [h] == [h];
      } else {
        WellSpacedSnoc(rate, counts);
        if WellSpaced(rate, before) {
          NextOfStream(cfg, name, start, rate, before, n);
          GaplessIsOneChannel(name, start, rate, before);
          if Verdict(Run(cfg, earlier), h) == Appended {
            AdmitNext(cfg, earlier, name, h);
          }
        }
      }
    }
  }

  /**
   * Gapless streams at a rate that rounds below 1005, of packets of any lengths: a stream is admitted in full exactly
   * when no packet shorter than the tolerance is followed by one of as many samples.
   */
  lemma GaplessAdmittedExactly(cfg: Config, name: string, start: int, rate: real, counts: seq<int>)
    requires rate > 0.0 && Round(rate) < RATE_LIMIT && AtLeast(counts, 1)
    ensures Chosen(cfg, Gapless(name, start, rate, counts), ADMITTED) == Gapless(name, start, rate, counts) <==>
            WellSpaced(rate, counts)
  {
    AdmittedWhenWellSpaced(cfg, name, start, rate, counts);
  }

  /** A ring of fixed size holds the last packets of a stream that is admitted in full, as many as it has room for. */
  lemma FixedRingFills(cfg: Config, name: string, start: int, rate: real, counts: seq<int>)
    requires rate > 0.0 && Round(rate) < RATE_LIMIT && AtLeast(counts, 1) && WellSpaced(rate, counts) && counts != []
    requires !cfg.estimateCapacity
    ensures var hs := Gapless(name, start, rate, counts);
      && Run(cfg, hs).Some?
      && |Run(cfg, hs).value.ring| == (if |counts| < cfg.bufferSize then |counts| else cfg.bufferSize)
  {
    AdmittedWhenWellSpaced(cfg, name, start, rate, counts);
    FixedCapacity(cfg, Gapless(name, start, rate, counts));
  }

  lemma {:induction false} FixedCapacity(cfg: Config, hs: seq<Header>)
    requires hs != [] && !cfg.estimateCapacity
    ensures Run(cfg, hs).Some? && Run(cfg, hs).value.capacity == cfg.bufferSize
    decreases |hs|
  {
    if |hs| == 1 {
    } else {
      FixedCapacity(cfg, hs[..|hs| - 1]);
    }
  }

  lemma LongPacketsWellSpaced(rate: real, counts: seq<int>)
    requires rate > 0.0 && Round(rate) < RATE_LIMIT && AtLeast(counts, 2)
    ensures WellSpaced(rate, counts)
  {
    forall i | 0 <= i < |counts| - 1
      ensures Spacing(counts[i], rate) >= Tolerance(Round(rate))
    {
      TwoSamplesSuffice(counts[i], rate);
    }
  }

  /** So streams of packets of at least two samples are never rejected, however long. */
  lemma GaplessAdmitted(cfg: Config, name: string, start: int, rate: real, counts: seq<int>)
    requires rate > 0.0 && Round(rate) < RATE_LIMIT && AtLeast(counts, 2)
    ensures Chosen(cfg, Gapless(name, start, rate, counts), ADMITTED) == Gapless(name, start, rate, counts)
  {
    LongPacketsWellSpaced(rate, counts);
    GaplessAdmittedExactly(cfg, name, start, rate, counts);
  }

  /** Gapless streams of packets with `n` samples are admitted in full, however long. */
  ghost predicate AlwaysAdmitted(cfg: Config, name: string, start: int, rate: real, n: nat)
    requires rate > 0.0 && n >= 1
  {
    forall counts: seq<int> :: (forall i :: 0 <= i < |counts| ==> counts[i] == n) ==>
      Chosen(cfg, Gapless(name, start, rate, counts), ADMITTED) == Gapless(name, start, rate, counts)
  }

  /**
   * Streams of constant sample count: all of them are admitted in full exactly when one packet spans at
   * least the tolerance of its rate class.
   */
  lemma ConstantStreamsExactly(cfg: Config, name: string, start: int, rate: real, n: nat)
    requires rate > 0.0 && Round(rate) < RATE_LIMIT && n >= 1
    ensures Spacing(n, rate) >= Tolerance(Round(rate)) <==> AlwaysAdmitted(cfg, name, start, rate, n)
  {
    forall counts: seq<int> | forall i :: 0 <= i < |counts| ==> counts[i] == n
      ensures Spacing(n, rate) >= Tolerance(Round(rate)) ==> WellSpaced(rate, counts)
      ensures Chosen(cfg, Gapless(name, start, rate, counts), ADMITTED) == Gapless(name, start, rate, counts) <==>
              WellSpaced(rate, counts)
    {
      GaplessAdmittedExactly(cfg, name, start, rate, counts);
    }
    var pair: seq<int> := [n, n];
    assert forall i :: 0 <= i < |pair| ==> pair[i] == n;
    assert pair[0] == pair[1];
  }

  /** Two samples are needed: single-sample packets at 100 Hz are 10 ms apart, inside the 15 ms tolerance. */
  lemma SingleSamplesRejected(cfg: Config, name: string, start: int)
    ensures Chosen(cfg, Gapless(name, start, 100.0, [1, 1]), ADMITTED) != Gapless(name, start, 100.0, [1, 1])
  {
    var pair: seq<int> := [1, 1];
    assert Round(100.0) == 100 && Spacing(1, 100.0) == 10000;
    assert pair[0] == pair[1] == 1;
    GaplessAdmittedExactly(cfg, name, start, 100.0, pair);
  }

  /** Rounding reaches an integer exactly when the value comes within one half of it. */
  lemma QuotientRoundsTo(a: int, r: int, k: int)
    requires a > 0 && r > 0 && k > 0
    ensures Round(a as real / r as real) >= k <==> 2 * a >= (2 * k - 1) * r
  {
    var q := a as real / r as real;
    assert q * r as real == a as real;
    RoundIsNearest(q);
    var half := k as real - 0.5;
    if q >= half {
      assert (q - half) * r as real >= 0.0;
      assert (q - half) * r as real == a as real - half * r as real;
    } else {
      assert (half - q) * r as real > 0.0;
      assert (half - q) * r as real == half * r as real - a as real;
    }
    assert half * r as real * 2.0 == ((2 * k - 1) * r) as real;
  }

  lemma SingleSpacing(r: int)
    requires 1 <= r < RATE_LIMIT
    ensures Round(r as real) == r
    ensures Spacing(1, r as real) >= Tolerance(r) <==>
            r <= 66 || 105 <= r <= 222 || 255 <= r <= 400 || 505 <= r <= 666
  {
    assert 1 as real * 1000000.0 == 1000000 as real;
    QuotientRoundsTo(1000000, r, Tolerance(r));
  }

  /**
   * The integer rates at which gapless single-sample packets are never rejected: those whose sample interval
   * reaches the tolerance of their class.
   */
  lemma SingleSampleRates(cfg: Config, name: string, start: int, r: int)
    requires 1 <= r < RATE_LIMIT
    ensures AlwaysAdmitted(cfg, name, start, r as real, 1) <==>
            r <= 66 || 105 <= r <= 222 || 255 <= r <= 400 || 505 <= r <= 666
  {
    SingleSpacing(r);
    ConstantStreamsExactly(cfg, name, start, r as real, 1);
  }

  /* ---------- Streams that arrive out of order ---------- */

  /** A packet of two or more samples ends before the next packet starts, and starts a tolerance before it. */
  lemma {:induction false} EndsBefore(name: string, start: int, rate: real, counts: seq<int>, x: Header)
    requires rate > 0.0 && Round(rate) < RATE_LIMIT && AtLeast(counts, 2)
    requires x in Gapless(name, start, rate, counts)
    ensures x.endTime < NextStart(start, rate, counts)
    ensures NextStart(start, rate, counts) - x.startTime >= Tolerance(Round(rate))
    decreases |counts|
  {
    var before := counts[..|counts| - 1];
    GaplessSnoc(name, start, rate, counts);
    TwoSamplesSuffice(counts[|counts| - 1], rate);
    SpacingExceedsDuration(counts[|counts| - 1], rate);
    if x in Gapless(name, start, rate, before) {
      EndsBefore(name, start, rate, before, x);
    }
  }

  /** Different packets of such a stream do not overlap and are not taken for one another. */
  lemma {:induction false} StreamDistinct(name: string, start: int, rate: real, counts: seq<int>, x: Header, y: Header)
    requires rate > 0.0 && Round(rate) < RATE_LIMIT && AtLeast(counts, 2) && x != y
    requires x in Gapless(name, start, rate, counts) && y in Gapless(name, start, rate, counts)
    ensures Disjointness.Apart(x, y) && Compare(x, y) == Different
    decreases |counts|
  {
    var before := counts[..|counts| - 1];
    var earlier := Gapless(name, start, rate, before);
    GaplessSnoc(name, start, rate, counts);
    SameRate(name, start, rate, counts, x);
    SameRate(name, start, rate, counts, y);
    if x in earlier && y in earlier {
      StreamDistinct(name, start, rate, before, x, y);
    } else if x in earlier {
      EndsBefore(name, start, rate, before, x);
    } else {
      EndsBefore(name, start, rate, before, y);
    }
  }

  /** Every offered header is a packet of the stream. */
  ghost predicate FromStream(hs: seq<Header>, name: string, start: int, rate: real, counts: seq<int>)
    requires rate > 0.0 && AtLeast(counts, 1)
  {
    forall x :: x in hs ==> x in Gapless(name, start, rate, counts)
  }

  /**
   * Packets of a gapless stream may come in any order, with any number of them missing or repeated: a packet that was
   * not offered before is neither a duplicate nor a slip, and it is admitted exactly unless it ends before the ring.
   */
  lemma AnyOrderAdmitted(cfg: Config, hs: seq<Header>, name: string, start: int, rate: real, counts: seq<int>,
                         h: Header)
    requires rate > 0.0 && Round(rate) < RATE_LIMIT && AtLeast(counts, 2)
    requires FromStream(hs + [h], name, start, rate, counts) && h !in hs
    ensures Verdict(Run(cfg, hs), h) in GENUINE
    ensures Run(cfg, hs).Some? ==>
              (Verdict(Run(cfg, hs), h) in ADMITTED <==> Run(cfg, hs).value.ring[0].startTime <= h.endTime)
  {
    assert h in hs + [h] && forall x :: x in hs ==> x in hs + [h];
    GaplessIsOneChannel(name, start, rate, counts);
    if hs != [] {
      RunKeeps(cfg, hs, name);
      Disjointness.RingWasRecorded(cfg, hs, name);
      Disjointness.ChosenWereOffered(cfg, hs, RECORDED);
      forall x | x in Run(cfg, hs).value.ring
        ensures Disjointness.Apart(h, x) && Compare(x, h) == Different
      {
        StreamDistinct(name, start, rate, counts, x, h);
      }
      Disjointness.ApartIsGenuine(Run(cfg, hs).value, h);
    }
  }

  ghost predicate Distinct(hs: seq<Header>) {
    forall i, j :: 0 <= i < j < |hs| ==> hs[i] != hs[j]
  }

  /** So a stream in any order without repetitions is free of duplicates, slips and exceptions. */
  lemma {:induction false} AnyOrderGenuine(cfg: Config, hs: seq<Header>, name: string, start: int, rate: real,
                                           counts: seq<int>)
    requires rate > 0.0 && Round(rate) < RATE_LIMIT && AtLeast(counts, 2)
    requires FromStream(hs, name, start, rate, counts) && Distinct(hs)
    ensures Chosen(cfg, hs, GENUINE) == hs
    decreases |hs|
  {
    if hs == [] {
    } else {
      var before, h := hs[..|hs| - 1], hs[|hs| - 1];
      assert hs == before + [h];
      assert forall x :: x in before ==> x in hs;
      AnyOrderGenuine(cfg, before, name, start, rate, counts);
      AnyOrderAdmitted(cfg, before, name, start, rate, counts, h);
    }
  }

  /* ---------- Recovery after bad clocks ---------- */

  const WIDEST_TOLERANCE := 15000

  /** No header of the run ends after `bound`. */
  ghost predicate EndBy(hs: seq<Header>, bound: int) {
    forall x :: x in hs ==> x.endTime <= bound
  }

  lemma {:induction false} RingEndsBy(cfg: Config, hs: seq<Header>, name: string, bound: int)
    requires OneChannel(hs, name) && EndBy(hs, bound) && hs != []
    ensures EndBy(Run(cfg, hs).value.ring, bound)
    decreases |hs|
  {
    var before, h := hs[..|hs| - 1], hs[|hs| - 1];
    assert h in hs;
    if before == [] {
    } else {
      RingEndsBy(cfg, before, name, bound);
      RunKeeps(cfg, before, name);
      StepMembers(Run(cfg, before).value, h);
    }
  }

  /**
   * However wrong earlier clocks were, a packet of the channel's rate that starts 15 ms after everything
   * offered so far has ended is admitted.
   */
  lemma LateEnoughAdmitted(cfg: Config, hs: seq<Header>, name: string, bound: int, h: Header)
    requires OneChannel(hs, name) && EndBy(hs, bound) && h.name == name
    requires h.startTime >= bound + WIDEST_TOLERANCE
    requires h.samplingRate < RATE_LIMIT
    requires Run(cfg, hs).Some? ==> h.samplingRate == Run(cfg, hs).value.ring[0].samplingRate
    ensures Verdict(Run(cfg, hs), h) in {First, Appended}
  {
    if hs != [] {
      RunKeeps(cfg, hs, name);
      RingEndsBy(cfg, hs, name, bound);
      var ch := Run(cfg, hs).value;
      var last := ch.ring[|ch.ring| - 1];
      assert last in ch.ring && last.startTime <= last.endTime;
      FollowerAppended(ch, h);
    }
  }
}
