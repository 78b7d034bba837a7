/** The duplicate detector as a class over in-place ring buffers. */
module DuplicateTester {
  import opened Channels
  import opened CircularBuffers
  import opened Detector
  import Disjointness
  import opened FlagLog
  import opened Headers
  import Packets
  import Rounding
  import opened Wrappers

  /** The flag an outcome raises. */
  function FlagFor(outcome: Outcome, name: string): Option<Flag> {
    match outcome
    case Duplicate => Some(Flag(DuplicateData, name))
    case Slip => Some(Flag(BadTiming, name))
    case _ => None
  }

  /**
   * Which flag a header raises: that of a duplicate when a stored packet of as many samples starts within tolerance,
   * that of bad timing when it is none and overlaps what it does not strictly contain. Refused packets that come before
   * everything raise none.
   */
  lemma FlaggedExactly(ch: Channel, h: Header)
    requires WellKept(ch, h.name) && h.startTime <= h.endTime && h.samplingRate == ch.ring[0].samplingRate < RATE_LIMIT
    ensures var flag := FlagFor(Decide(ch, h), h.name);
            var duplicate := exists x :: x in ch.ring && x.nSamples == h.nSamples
                                         && Rounding.Abs(h.startTime - x.startTime) < Tolerance(h.samplingRate);
            var slip := !duplicate && h.startTime <= ch.ring[|ch.ring| - 1].endTime
                        && ch.ring[0].startTime <= h.endTime && Disjointness.Slips(ch, h);
      && (duplicate <==> flag == Some(Flag(DuplicateData, h.name)))
      && (slip <==> flag == Some(Flag(BadTiming, h.name)))
      && (!duplicate && !slip <==> flag == None)
      && (duplicate || slip ==> !LetsThrough(Decide(ch, h)))
  {
    DuplicateExactly(ch.ring, h);
    ThrowsExactly(ch.ring, h, h.samplingRate);
    if Find(ch.ring, h) == Different {
      Disjointness.DecidedByPosition(ch, h);
    }
  }

  /** The public answer: the inner one, or true when the inner check threw. */
  predicate LetsThrough(outcome: Outcome) {
    outcome in ADMITTED || outcome == Raised
  }

  /** A stored packet that is offered again is caught exactly when its rate belongs to a class. */
  lemma StoredPacketCaughtExactly(ch: Channel, h: Header)
    requires WellKept(ch, h.name) && h in ch.ring
    ensures !LetsThrough(Decide(ch, h)) <==> h.samplingRate < RATE_LIMIT
    ensures Next(ch, h) == ch
  {
    RaisedExactly(Settings(false, 1, 1, 0), ch, h);
    if Find(ch.ring, h) == Different {
      FoundDifferentIsNew(ch.ring, h);
    }
  }

  const AT_100 := Header("N.S.C", 0, 1000000, 100, 101)
  const AT_50 := Header("N.S.C", 0, 1000000, 50, 51)

  /** The rings after the first packet, and for good. */
  function RingsAt100(cfg: Config): Rings {
    map[AT_100.name := Buffer(Capacity(cfg, AT_100), [AT_100])]
  }

  lemma OffRateStep(cfg: Config, hs: seq<Header>)
    requires RunAll(cfg, hs) == RingsAt100(cfg)
    ensures OutcomeAfter(cfg, hs, AT_50) == Raised
    ensures RunAll(cfg, hs + [AT_50]) == RingsAt100(cfg)
  {
    var ch: Channel := Buffer(Capacity(cfg, AT_100), [AT_100]);
    assert Compare(AT_100, AT_50) == Throws;
    assert Find(ch.ring, AT_50) == Throws;
    assert Lookup(RingsAt100(cfg), AT_50.name) == Some(ch);
    RunAllSnoc(cfg, hs, AT_50);
    assert Update(cfg, Some(ch), AT_50) == ch;
  }

  lemma At100Starts(cfg: Config)
    ensures RunAll(cfg, [AT_100]) == RingsAt100(cfg)
    ensures forall kinds :: First in kinds ==> ChosenAll(cfg, [AT_100], kinds) == [AT_100]
  {
    assert [AT_100][..0] == [];
  }

  /** Offered twice inside a stored packet, a packet of another rate is let through twice. */
  lemma OffRateLetThroughTwice(cfg: Config)
    ensures ChosenAll(cfg, [AT_100, AT_50, AT_50], ADMITTED + {Raised}) == [AT_100, AT_50, AT_50]
  {
    var lets := ADMITTED + {Raised};
    At100Starts(cfg);
    OffRateStep(cfg, [AT_100]);
    ChosenAllSnoc(cfg, [AT_100], AT_50, lets);
    assert [AT_100] + [AT_50] == [AT_100, AT_50];
    OffRateStep(cfg, [AT_100, AT_50]);
    ChosenAllSnoc(cfg, [AT_100, AT_50], AT_50, lets);
    assert [AT_100, AT_50] + [AT_50] == [AT_100, AT_50, AT_50];
  }

  /** `std::find` over the buffer. */
  method FindIn(b: CircularBuffer<Header>, h: Header) returns (c: Comparison)
    requires b.Valid()
    ensures c == Find(b.contents, h)
  {
    var i := 0;
    while i < b.size
      invariant 0 <= i <= b.size
      invariant Find(b.contents[i..], h) == Find(b.contents, h)
    {
      var x := b.At(i);
      if Compare(x, h) != Different { return Compare(x, h); }
      i := i + 1;
    }
    c := Different;
  }

  /** The search for a timing slip. */
  method FindSlip(b: CircularBuffer<Header>, h: Header) returns (slip: bool)
    requires b.Valid()
    ensures slip <==> exists x :: x in b.contents && EndpointInside(h, x)
    ensures slip <==> exists x :: x in b.contents && (x.startTime <= h.startTime <= x.endTime ||
                                                      x.startTime <= h.endTime <= x.endTime)
  {
    var i := 0;
    while i < b.size
      invariant 0 <= i <= b.size
      invariant forall k :: 0 <= k < i ==> !EndpointInside(h, b.contents[k])
    {
      var x := b.At(i);
      if EndpointInside(h, x) {
        assert x in b.contents;
        return true;
      }
      i := i + 1;
    }
    slip := false;
  }

  ghost function ChannelOf(b: CircularBuffer<Header>): Channel
    requires b.Valid() && b.size > 0
    reads b, b.data
  {
    Buffer(b.data.Length, b.contents)
  }

  ghost predicate Holds(b: CircularBuffer<Header>, ch: Channel)
    reads b, b.data
  {
    b.Valid() && b.size > 0 && ChannelOf(b) == ch
  }

  /** Push and sort. */
  method Backfill(b: CircularBuffer<Header>, h: Header)
    requires b.Valid() && b.size > 0
    modifies b, b.data
    ensures b.Valid() && b.size > 0
    ensures b.contents == SortByStart(PushedBack(old(b.contents), b.data.Length, h))
  {
    b.PushBack(h);
    SortBuffer(b);
  }

  /** The branch of `allow` for headers that are neither behind nor before everything. */
  method PlaceBetween(b: CircularBuffer<Header>, h: Header) returns (outcome: Outcome)
    requires b.Valid() && b.size > 0 && Find(b.contents, h) == Different
    requires h.startTime <= b.contents[b.size - 1].endTime && b.contents[0].startTime <= h.endTime
    modifies b, b.data
    ensures b.Valid() && b.size > 0
    ensures outcome == Decide(old(ChannelOf(b)), h)
    ensures ChannelOf(b) == Store(old(ChannelOf(b)), h, outcome)
  {
    var slip := FindSlip(b, h);
    if slip { return Slip; }
    Backfill(b, h);
    outcome := Backfilled;
  }

  /** `allow` on an existing buffer, once the search has found nothing. */
  method Place(b: CircularBuffer<Header>, h: Header) returns (outcome: Outcome)
    requires b.Valid() && b.size > 0 && Find(b.contents, h) == Different
    modifies b, b.data
    ensures b.Valid() && b.size > 0
    ensures outcome == Decide(old(ChannelOf(b)), h)
    ensures ChannelOf(b) == Store(old(ChannelOf(b)), h, outcome)
  {
    var back := b.At(b.size - 1);
    if h.startTime > back.endTime {
      b.PushBack(h);
      return Appended;
    }
    var front := b.At(0);
    if h.endTime < front.startTime {
      if !b.Full() {
        b.PushFront(h);
        return Prepended;
      }
      return TooOld;
    }
    outcome := PlaceBetween(b, h);
  }

  /** `allow` on an existing buffer. */
  method Admit(b: CircularBuffer<Header>, h: Header) returns (outcome: Outcome)
    requires b.Valid() && b.size > 0
    modifies b, b.data
    ensures b.Valid() && b.size > 0
    ensures outcome == Decide(old(ChannelOf(b)), h)
    ensures ChannelOf(b) == Next(old(ChannelOf(b)), h)
  {
    var comparison := FindIn(b, h);
    if comparison == Throws { return Raised; }
    if comparison == Same { return Duplicate; }
    outcome := Place(b, h);
  }

  method BufferWith(capacity: int, h: Header) returns (b: CircularBuffer<Header>)
    requires capacity >= 1
    ensures fresh(b) && fresh(b.data)
    ensures b.Valid() && b.size > 0 && ChannelOf(b) == Buffer(capacity, [h])
  {
    b := new CircularBuffer<Header>(capacity);
    b.PushBack(h);
  }

  class TestDuplicateDataPacket {
    const config: Config
    const mLogBadDataInterval: int
    const mLogBadData: bool
    var mCircularBuffers: map<string, CircularBuffer<Header>>
    var mDuplicateChannels: set<string>
    var mBadTimingChannels: set<string>
    var mLastLogTime: int
    ghost var reports: seq<Report>
    /** What the buffers hold, by channel. */
    ghost var rings: Rings
    /** The buffers and their arrays. */
    ghost var owned: set<object>

    /** Every buffer is non-empty, and no two channels share one. */
    ghost predicate Valid()
      reads this`mCircularBuffers, this`rings, this`owned, owned
    {
      && this !in owned && (mLogBadData <==> mLogBadDataInterval >= 0)
      && rings.Keys == mCircularBuffers.Keys
      && (forall n :: n in mCircularBuffers ==> mCircularBuffers[n] in owned && mCircularBuffers[n].data in owned)
      && (forall n :: n in mCircularBuffers ==> Holds(mCircularBuffers[n], rings[n]))
      && (forall m, n :: m in mCircularBuffers && n in mCircularBuffers && m != n ==>
            mCircularBuffers[m] != mCircularBuffers[n] && mCircularBuffers[m].data != mCircularBuffers[n].data)
    }

    ghost function LogView(): Log
      reads this`mDuplicateChannels, this`mBadTimingChannels, this`mLastLogTime, this`reports
    {
      Log((set n | n in mDuplicateChannels :: Flag(DuplicateData, n)) +
          (set n | n in mBadTimingChannels :: Flag(BadTiming, n)), mLastLogTime, reports)
    }

    constructor (config: Config, logBadDataInterval: int)
      ensures Valid() && fresh(owned) && rings == map[] && LogView() == EMPTY_LOG
      ensures this.config == config && mLogBadDataInterval == logBadDataInterval
    {
      this.config := config;
      mLogBadDataInterval := logBadDataInterval;
      mLogBadData := logBadDataInterval >= 0;
      mCircularBuffers := map[];
      mDuplicateChannels, mBadTimingChannels := {}, {};
      mLastLogTime := 0;
      reports := [];
      owned, rings := {}, map[];
    }

    /** Adds a buffer that no channel uses yet. */
    method Install(name: string, b: CircularBuffer<Header>)
      requires Valid() && name !in mCircularBuffers
      requires b.Valid() && b.size > 0
      requires b !in owned && b.data !in owned
      modifies this`mCircularBuffers, this`rings, this`owned
      ensures Valid() && owned == old(owned) + {b, b.data}
      ensures rings == old(rings)[name := ChannelOf(b)]
    {
      mCircularBuffers := mCircularBuffers[name := b];
      owned := owned + {b, b.data};
      rings := rings[name := ChannelOf(b)];
    }

    /** The first header of a channel creates its buffer. */
    method CreateBuffer(h: Header)
      requires Valid() && h.name !in mCircularBuffers
      modifies this`mCircularBuffers, this`rings, this`owned
      ensures Valid() && fresh(owned - old(owned))
      ensures rings == old(rings)[h.name := Buffer(Capacity(config, h), [h])]
    {
      var b := BufferWith(Capacity(config, h), h);
      Install(h.name, b);
    }

    method AdmitToBuffer(h: Header) returns (outcome: Outcome)
      requires Valid() && h.name in mCircularBuffers
      modifies this`rings, owned
      ensures Valid()
      ensures outcome == Decide(old(rings)[h.name], h)
      ensures rings == old(rings)[h.name := Next(old(rings)[h.name], h)]
    {
      var b := mCircularBuffers[h.name];
      ghost var others := set n | n in mCircularBuffers && n != h.name;
      outcome := Admit(b, h);
      assert forall n :: n in others ==> Holds(mCircularBuffers[n], rings[n]);
      rings := rings[h.name := ChannelOf(b)];
    }

    /** The ring part of the inner `allow`. */
    method AdmitHeader(h: Header) returns (outcome: Outcome)
      requires Valid()
      modifies this`mCircularBuffers, this`rings, this`owned, owned
      ensures Valid() && fresh(owned - old(owned))
      ensures outcome == Verdict(Lookup(old(rings), h.name), h)
      ensures rings == Offer(config, old(rings), h)
    {
      if h.name !in mCircularBuffers {
        CreateBuffer(h);
        outcome := First;
      } else {
        outcome := AdmitToBuffer(h);
      }
    }

    /** Flags are collected only while logging is on. */
    method RaiseFlag(outcome: Outcome, name: string)
      modifies this`mDuplicateChannels, this`mBadTimingChannels
      ensures LogView() == if mLogBadData then Gather(old(LogView()), FlagFor(outcome, name)) else old(LogView())
    {
      if mLogBadData {
        if outcome == Duplicate {
          mDuplicateChannels := mDuplicateChannels + {name};
        } else if outcome == Slip {
          mBadTimingChannels := mBadTimingChannels + {name};
        }
        assert LogView().pending == Gather(old(LogView()), FlagFor(outcome, name)).pending;
      }
    }

    /** Two messages, one for each kind that has flags, under one test of the interval. */
    method LogBadData(nowMicroSeconds: int)
      modifies this`mDuplicateChannels, this`mBadTimingChannels, this`mLastLogTime, this`reports
      ensures LogView() == if mLogBadData
        then Flush(mLogBadDataInterval, old(LogView()), Rounding.TruncatingDivide(nowMicroSeconds, MICROSECONDS))
        else old(LogView())
    {
      if !mLogBadData { return; }
      var nowSeconds := Rounding.TruncatingDivide(nowMicroSeconds, MICROSECONDS);
      ghost var pending := LogView().pending;
      if nowSeconds >= mLastLogTime + mLogBadDataInterval {
        assert forall n :: n in mDuplicateChannels ==> Flag(DuplicateData, n) in pending;
        assert forall n :: n in mBadTimingChannels ==> Flag(BadTiming, n) in pending;
        if mDuplicateChannels != {} {
          mDuplicateChannels := {};
          mLastLogTime := nowSeconds;
        }
        if mBadTimingChannels != {} {
          mBadTimingChannels := {};
          mLastLogTime := nowSeconds;
        }
        if pending != {} {
          reports := reports + [Report(nowSeconds, pending)];
        }
      }
    }

    /** The log part of one check. */
    method LogOutcome(outcome: Outcome, name: string, now: int)
      requires mLogBadData <==> mLogBadDataInterval >= 0
      modifies this`mDuplicateChannels, this`mBadTimingChannels, this`mLastLogTime, this`reports
      ensures LogView() == Record(mLogBadDataInterval, old(LogView()), FlagFor(outcome, name),
                                  Rounding.TruncatingDivide(now, MICROSECONDS))
    {
      RaiseFlag(outcome, name);
      LogBadData(now);
    }

    /** The public `allow` once the header exists: an exception of the check lets the packet through. */
    method AllowHeader(h: Header, now: int) returns (allow: bool)
      requires Valid()
      modifies this, owned
      ensures Valid() && fresh(owned - old(owned))
      ensures var outcome := Verdict(Lookup(old(rings), h.name), h);
        && (allow <==> LetsThrough(outcome))
        && LogView() == Record(mLogBadDataInterval, old(LogView()), FlagFor(outcome, h.name),
                               Rounding.TruncatingDivide(now, MICROSECONDS))
      ensures rings == Offer(config, old(rings), h)
    {
      var outcome := AdmitHeader(h);
      LogOutcome(outcome, h.name, now);
      allow := LetsThrough(outcome);
    }

    /** The public `allow`: a packet without a header is refused before anything else happens. */
    method Allow(p: Packets.Packet, now: int) returns (allow: bool)
      requires Valid()
      modifies this, owned
      ensures Valid() && fresh(owned - old(owned))
      ensures FromPacket(p).Failure? ==> !allow && rings == old(rings) && LogView() == old(LogView())
      ensures FromPacket(p).Success? ==>
        var h := FromPacket(p).value;
        var outcome := Verdict(Lookup(old(rings), h.name), h);
        && (allow <==> LetsThrough(outcome))
        && rings == Offer(config, old(rings), h)
        && LogView() == Record(mLogBadDataInterval, old(LogView()), FlagFor(outcome, h.name),
                               Rounding.TruncatingDivide(now, MICROSECONDS))
    {
      var header := FromPacket(p);
      if header.Failure? { return false; }
      allow := AllowHeader(header.value, now);
    }
  }
}
