/**
 * The duplicate and timing-slip detector on values: what one header does to the ring of its channel,
 * and what a run of headers does. The class that keeps the rings in place is in DuplicateTester.dfy.
 */
module Detector {
  import opened CircularBuffers
  import opened Headers
  import opened Wrappers

  datatype Settings = Settings(estimateCapacity: bool, bufferSize: int, memory: int, outOfRange: int)

  /**
   * What the constructors accept: a positive size or a positive number of seconds to remember. The int that
   * an undefined conversion yields is arbitrary, but one can be added to it.
   */
  type Config = c: Settings | c.bufferSize >= 1 && c.memory >= 1 && c.outOfRange < INT_MAX
    witness Settings(false, 100, 300, 0)

  function Capacity(cfg: Config, h: Header): (capacity: int)
    ensures capacity >= 1
    ensures if cfg.estimateCapacity then capacity >= 11 else capacity == cfg.bufferSize
  {
    if cfg.estimateCapacity then EstimateCapacity(h, cfg.memory, cfg.outOfRange) else cfg.bufferSize
  }

  datatype Buffer = Buffer(capacity: int, ring: seq<Header>)

  /** A channel exists from its first header on, so its ring is never empty. */
  type Channel = b: Buffer | 0 < |b.ring| <= b.capacity
    witness Buffer(1, [Header("", 0, 0, 0, 1)])

  /** The branch of `allow` that a header takes; `Raised` is an exception. */
  datatype Outcome = First | Appended | Prepended | TooOld | Duplicate | Slip | Backfilled | Raised

  /** The inner `allow` returns true. */
  const ADMITTED := {First, Appended, Backfilled}
  /** The header enters the ring; a prepended one does although `allow` returns false. */
  const RECORDED := {First, Appended, Backfilled, Prepended}
  /** The header is neither a duplicate nor overlapping, nor did its check throw. */
  const GENUINE := {First, Appended, Backfilled, Prepended, TooOld}

  /** The timing test: an end point of `h` lies inside `s`. */
  predicate EndpointInside(h: Header, s: Header) {
    || s.startTime <= h.startTime <= s.endTime
    || s.startTime <= h.endTime <= s.endTime
  }

  function Decide(ch: Channel, h: Header): Outcome {
    match Find(ch.ring, h)
    case Throws => Raised
    case Same => Duplicate
    case Different =>
      if h.startTime > ch.ring[|ch.ring| - 1].endTime then Appended
      else if h.endTime < ch.ring[0].startTime then
        if |ch.ring| < ch.capacity then Prepended else TooOld
      else if exists x :: x in ch.ring && EndpointInside(h, x) then Slip
      else Backfilled
  }

  function Store(ch: Channel, h: Header, outcome: Outcome): Channel
    requires outcome == Prepended ==> |ch.ring| < ch.capacity
  {
    match outcome
    case Appended => ch.(ring := PushedBack(ch.ring, ch.capacity, h))
    case Prepended => ch.(ring := [h] + ch.ring)
    case Backfilled => ch.(ring := SortByStart(PushedBack(ch.ring, ch.capacity, h)))
    case _ => ch
  }

  function Verdict(slot: Option<Channel>, h: Header): Outcome {
    if slot.None? then First else Decide(slot.value, h)
  }

  function Update(cfg: Config, slot: Option<Channel>, h: Header): Channel {
    if slot.None? then Buffer(Capacity(cfg, h), [h]) else Store(slot.value, h, Decide(slot.value, h))
  }

  /* ---------- Runs on one channel ---------- */

  function Run(cfg: Config, hs: seq<Header>): Option<Channel> {
    if hs == [] then None else Some(Update(cfg, Run(cfg, hs[..|hs| - 1]), hs[|hs| - 1]))
  }

  /** The outcome of the last header of a run. */
  function LastOutcome(cfg: Config, hs: seq<Header>): Outcome
    requires hs != []
  {
    Verdict(Run(cfg, hs[..|hs| - 1]), hs[|hs| - 1])
  }

  /** The headers of a run whose outcome is one of `kinds`, in order. */
  function Chosen(cfg: Config, hs: seq<Header>, kinds: set<Outcome>): seq<Header> {
    if hs == [] then []
    else Chosen(cfg, hs[..|hs| - 1], kinds) + (if LastOutcome(cfg, hs) in kinds then [hs[|hs| - 1]] else [])
  }

  /* ---------- The unconditional invariant ---------- */

  ghost predicate Forward(s: seq<Header>) {
    forall x :: x in s ==> x.startTime <= x.endTime
  }

  ghost predicate WellKept(ch: Channel, name: string) {
    && StrictlySorted(ch.ring)
    && Forward(ch.ring)
    && Uniform(ch.ring, name, ch.ring[0].samplingRate)
  }

  /** Headers of one channel that run forward, as `HeaderRunsForward` gives. */
  ghost predicate OneChannel(hs: seq<Header>, name: string) {
    forall x :: x in hs ==> x.name == name && x.startTime <= x.endTime
  }

  lemma {:induction false} InsertStrict(s: seq<Header>, h: Header)
    requires StrictlySorted(s)
    requires forall x :: x in s ==> x.startTime != h.startTime
    ensures StrictlySorted(Insert(s, h))
  {
    if s == [] {
    } else if s[|s| - 1].startTime > h.startTime {
      var s', last := s[..|s| - 1], s[|s| - 1];
      InsertStrict(s', h);
      InsertMembers(s', h);
      var r := Insert(s', h);
      forall i | 0 <= i < |r|
        ensures r[i].startTime < last.startTime
      {
        assert r[i] in r;
      }
    }
  }

  /** What a full buffer gives up first. */
  function Kept(ch: Channel): seq<Header> {
    if |ch.ring| < ch.capacity then ch.ring else ch.ring[1..]
  }

  /** Sorting after the push is an ordered insertion. */
  lemma BackfillInserts(ch: Channel, h: Header)
    requires Sorted(ch.ring)
    ensures SortByStart(PushedBack(ch.ring, ch.capacity, h)) == Insert(Kept(ch), h)
  {
    SortOfSorted(Kept(ch));
    assert PushedBack(ch.ring, ch.capacity, h)[..|Kept(ch)|] == Kept(ch);
  }

  /** Rates never mix: a header of another rate throws before it could be stored. */
  lemma StoredRate(ch: Channel, h: Header)
    requires WellKept(ch, h.name) && Decide(ch, h) in RECORDED
    ensures h.samplingRate == ch.ring[0].samplingRate
  {
    ThrowsExactly(ch.ring, h, ch.ring[0].samplingRate);
  }

  function Next(ch: Channel, h: Header): Channel {
    Store(ch, h, Decide(ch, h))
  }

  /** A step adds at most the offered header, and adds it exactly when it is recorded. */
  lemma StepMembers(ch: Channel, h: Header)
    requires Sorted(ch.ring)
    ensures forall x :: x in Next(ch, h).ring ==> x in ch.ring || x == h
    ensures Decide(ch, h) in RECORDED ==> h in Next(ch, h).ring
  {
    if Decide(ch, h) == Backfilled {
      BackfillInserts(ch, h);
      InsertMembers(Kept(ch), h);
    }
  }

  lemma ConcatStrict(s: seq<Header>, t: seq<Header>)
    requires StrictlySorted(s) && StrictlySorted(t)
    requires s != [] && t != [] ==> s[|s| - 1].startTime < t[0].startTime
    ensures StrictlySorted(s + t)
  {
    forall i, j | 0 <= i < j < |s + t|
      ensures (s + t)[i].startTime < (s + t)[j].startTime
    {
      if i < |s| <= j {
        assert s[i].startTime <= s[|s| - 1].startTime;
        assert t[0].startTime <= t[j - |s|].startTime;
      }
    }
  }

  /** No stored header shares its start with one that passed the timing test. */
  lemma BackfillStrict(ch: Channel, h: Header)
    requires StrictlySorted(ch.ring) && Forward(ch.ring)
    requires forall x :: x in ch.ring ==> !EndpointInside(h, x)
    ensures StrictlySorted(Insert(Kept(ch), h))
  {
    forall x | x in Kept(ch)
      ensures x.startTime != h.startTime
    {
      assert x in ch.ring && !EndpointInside(h, x);
    }
    InsertStrict(Kept(ch), h);
  }

  lemma StepStrict(ch: Channel, h: Header)
    requires StrictlySorted(ch.ring) && Forward(ch.ring) && h.startTime <= h.endTime
    ensures StrictlySorted(Next(ch, h).ring)
  {
    match Decide(ch, h)
    case Backfilled =>
      BackfillInserts(ch, h);
      BackfillStrict(ch, h);
    case Appended =>
      assert ch.ring[|ch.ring| - 1] in ch.ring;
      ConcatStrict(Kept(ch), [h]);
    case Prepended =>
      ConcatStrict([h], ch.ring);
    case _ =>
  }

  lemma StepKeeps(cfg: Config, slot: Option<Channel>, h: Header)
    requires h.startTime <= h.endTime
    requires slot.Some? ==> WellKept(slot.value, h.name)
    ensures WellKept(Update(cfg, slot, h), h.name)
  {
    if slot.Some? && Verdict(slot, h) in RECORDED {
      var ch := slot.value;
      StoredRate(ch, h);
      StepMembers(ch, h);
      StepStrict(ch, h);
      assert Next(ch, h).ring[0] in Next(ch, h).ring;
    }
  }

  /**
   * After any run the ring is strictly ordered by start time, runs forward and is uniform in name and rate;
   * that it is non-empty and within capacity is part of the type.
   */
  lemma {:induction false} RunKeeps(cfg: Config, hs: seq<Header>, name: string)
    requires OneChannel(hs, name)
    ensures Run(cfg, hs).Some? <==> hs != []
    ensures hs != [] ==> WellKept(Run(cfg, hs).value, name)
    decreases |hs|
  {
    if hs == [] {
    } else {
      RunKeeps(cfg, hs[..|hs| - 1], name);
      StepKeeps(cfg, Run(cfg, hs[..|hs| - 1]), hs[|hs| - 1]);
    }
  }

  /** When the check of a header throws, and that it then leaves the ring alone. */
  lemma RaisedExactly(cfg: Config, ch: Channel, h: Header)
    requires WellKept(ch, h.name)
    ensures Decide(ch, h) == Raised <==>
            || h.samplingRate != ch.ring[0].samplingRate
            || (h.samplingRate >= RATE_LIMIT && exists x :: x in ch.ring && x.nSamples == h.nSamples)
    ensures Decide(ch, h) !in RECORDED <==> Update(cfg, Some(ch), h) == ch
  {
    ThrowsExactly(ch.ring, h, ch.ring[0].samplingRate);
    if Decide(ch, h) in RECORDED {
      StepMembers(ch, h);
      FoundDifferentIsNew(ch.ring, h);
    }
  }

  /** The first header of a channel fixes the rate of its ring for good. */
  lemma {:induction false} FirstRateIsFinal(cfg: Config, hs: seq<Header>, name: string)
    requires OneChannel(hs, name) && hs != []
    ensures Run(cfg, hs).value.ring[0].samplingRate == hs[0].samplingRate
    decreases |hs|
  {
    var before, h := hs[..|hs| - 1], hs[|hs| - 1];
    if before == [] {
    } else {
      FirstRateIsFinal(cfg, before, name);
      RunKeeps(cfg, before, name);
      RunKeeps(cfg, hs, name);
      var ch, next := Run(cfg, before).value, Run(cfg, hs).value;
      StepMembers(ch, h);
      assert next.ring[0] in next.ring;
      if Decide(ch, h) in RECORDED {
        StoredRate(ch, h);
      }
    }
  }

  /**
   * Below the rate limit a check throws exactly when the rounded rate is not that of the channel's first packet,
   * each time and however often such packets come, and it then leaves the ring alone.
   */
  lemma OffRateRaisedExactly(cfg: Config, hs: seq<Header>, name: string, h: Header)
    requires OneChannel(hs, name) && hs != [] && h.name == name && h.samplingRate < RATE_LIMIT
    ensures Verdict(Run(cfg, hs), h) == Raised <==> h.samplingRate != hs[0].samplingRate
    ensures h.samplingRate != hs[0].samplingRate ==> Run(cfg, hs + [h]) == Run(cfg, hs)
  {
    RunKeeps(cfg, hs, name);
    FirstRateIsFinal(cfg, hs, name);
    RaisedExactly(cfg, Run(cfg, hs).value, h);
    assert (hs + [h])[..|hs|] == hs;
  }

  ghost predicate OneRate(hs: seq<Header>) {
    forall x :: x in hs ==> x.samplingRate == hs[0].samplingRate
  }

  lemma OneRateSnoc(hs: seq<Header>, h: Header)
    requires hs != []
    ensures OneRate(hs + [h]) <==> OneRate(hs) && h.samplingRate == hs[0].samplingRate
  {
    var all := hs + [h];
    assert all[0] == hs[0] && h in all;
    assert forall x :: x in all <==> x in hs || x == h;
  }

  lemma ChosenSnoc(cfg: Config, hs: seq<Header>, h: Header, kinds: set<Outcome>)
    ensures Chosen(cfg, hs + [h], kinds)
         == Chosen(cfg, hs, kinds) + (if Verdict(Run(cfg, hs), h) in kinds then [h] else [])
  {
    assert (hs + [h])[..|hs|] == hs;
  }

  lemma RunSnoc(cfg: Config, hs: seq<Header>, h: Header)
    ensures Run(cfg, hs + [h]) == Some(Update(cfg, Run(cfg, hs), h))
  {
    assert (hs + [h])[..|hs|] == hs;
  }

  lemma FirstNeverRaises(cfg: Config, h: Header)
    ensures Chosen(cfg, [h], {Raised}) == [] && OneRate([h])
  {
    assert [h][..0] == [];
  }

  lemma NeverRaisesStep(cfg: Config, hs: seq<Header>, name: string, h: Header)
    requires OneChannel(hs, name) && hs != [] && h.name == name && h.samplingRate < RATE_LIMIT
    ensures Chosen(cfg, hs + [h], {Raised}) == [] <==>
            Chosen(cfg, hs, {Raised}) == [] && h.samplingRate == hs[0].samplingRate
  {
    OffRateRaisedExactly(cfg, hs, name, h);
    ChosenSnoc(cfg, hs, h, {Raised});
  }

  /** A run of classifiable headers is free of exceptions exactly when all have the rate of the first. */
  lemma {:induction false} NeverRaisesExactly(cfg: Config, hs: seq<Header>, name: string)
    requires OneChannel(hs, name) && forall x :: x in hs ==> x.samplingRate < RATE_LIMIT
    ensures Chosen(cfg, hs, {Raised}) == [] <==> OneRate(hs)
    decreases |hs|
  {
    if hs == [] {
    } else {
      var before, h := hs[..|hs| - 1], hs[|hs| - 1];
      assert hs == before + [h];
      if before == [] {
        FirstNeverRaises(cfg, h);
      } else {
        NeverRaisesExactly(cfg, before, name);
        NeverRaisesStep(cfg, before, name, h);
        OneRateSnoc(before, h);
      }
    }
  }
}
