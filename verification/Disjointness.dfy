/** Bounded memory never admits overlapping packets: exactly when, over whole runs of one channel. */
module Disjointness {
  import CircularBuffers
  import opened Detector
  import opened Headers
  import Sequences
  import opened Wrappers

  /** The two closed time intervals have no point in common. */
  predicate Apart(a: Header, b: Header) {
    a.endTime < b.startTime || b.endTime < a.startTime
  }

  /** Members at different positions of a sequence are apart; no header occurs twice in it. */
  ghost predicate PairwiseApart(s: seq<Header>) {
    forall i, j :: 0 <= i < j < |s| ==> Apart(s[i], s[j])
  }

  ghost predicate StrictlyContains(h: Header, s: Header) {
    h.startTime < s.startTime && s.endTime < h.endTime
  }

  /** The header strictly contains a stored one; the end-point test cannot see this. */
  ghost predicate Engulfs(ch: Channel, h: Header) {
    exists s :: s in ch.ring && StrictlyContains(h, s)
  }

  /** No recorded header of the run engulfed a stored one when it was offered. */
  ghost predicate NeverEngulfs(cfg: Config, hs: seq<Header>)
    decreases |hs|
  {
    hs == [] ||
    (var before := Run(cfg, hs[..|hs| - 1]);
     NeverEngulfs(cfg, hs[..|hs| - 1]) &&
     (before.Some? && LastOutcome(cfg, hs) in RECORDED ==> !Engulfs(before.value, hs[|hs| - 1])))
  }

  ghost predicate RingApart(ring: seq<Header>) {
    forall x, y :: x in ring && y in ring && x != y ==> Apart(x, y)
  }

  /** Every stored header but the last ends before the last starts. */
  lemma EndsBeforeLast(ring: seq<Header>, x: Header)
    requires CircularBuffers.StrictlySorted(ring) && Forward(ring) && RingApart(ring)
    requires x in ring
    ensures x.endTime <= ring[|ring| - 1].endTime
    ensures ring[0].startTime <= x.startTime
  {
    var last := ring[|ring| - 1];
    assert last in ring;
    if x != last {
      var i :| 0 <= i < |ring| && ring[i] == x;
      assert x.startTime < last.startTime;
      assert Apart(x, last);
    }
  }

  /** The end-point test in terms of intervals: they overlap, and the new one does not strictly contain the other. */
  lemma EndpointInsideExactly(h: Header, s: Header)
    requires h.startTime <= h.endTime && s.startTime <= s.endTime
    ensures EndpointInside(h, s) <==> !Apart(h, s) && !StrictlyContains(h, s)
  {
  }

  /** The new header overlaps something stored that it does not strictly contain. */
  ghost predicate Slips(ch: Channel, h: Header) {
    exists x :: x in ch.ring && !Apart(h, x) && !StrictlyContains(h, x)
  }

  /**
   * Where a header that is not found goes: behind everything, before everything, or between; and in between it is a
   * slip exactly when it overlaps something it does not strictly contain. So a header apart from everything stored is
   * never a slip.
   */
  lemma DecidedByPosition(ch: Channel, h: Header)
    requires WellKept(ch, h.name) && h.startTime <= h.endTime && Find(ch.ring, h) == Different
    ensures var front, back, o := ch.ring[0], ch.ring[|ch.ring| - 1], Decide(ch, h);
      && (o == Appended <==> back.endTime < h.startTime)
      && (o == Prepended <==> h.endTime < front.startTime && |ch.ring| < ch.capacity)
      && (o == TooOld <==> h.endTime < front.startTime && |ch.ring| == ch.capacity)
      && (o == Slip <==> h.startTime <= back.endTime && front.startTime <= h.endTime && Slips(ch, h))
      && (o == Backfilled <==> h.startTime <= back.endTime && front.startTime <= h.endTime && !Slips(ch, h))
  {
    var front, back := ch.ring[0], ch.ring[|ch.ring| - 1];
    assert front in ch.ring && back in ch.ring;
    assert front.startTime <= back.startTime;
    forall x | x in ch.ring
      ensures EndpointInside(h, x) <==> !Apart(h, x) && !StrictlyContains(h, x)
    {
      EndpointInsideExactly(h, x);
    }
  }

  /**
   * What the inner check answers with true, in full: nothing stored is taken for the header, and it comes behind
   * everything, or not before everything and overlapping nothing but what it strictly contains.
   */
  lemma AdmittedExactly(ch: Channel, h: Header)
    requires WellKept(ch, h.name) && h.startTime <= h.endTime
    ensures Decide(ch, h) in ADMITTED <==>
            && (forall x :: x in ch.ring ==> Compare(x, h) == Different)
            && (ch.ring[|ch.ring| - 1].endTime < h.startTime
                || (ch.ring[0].startTime <= h.endTime && !Slips(ch, h)))
  {
    FindDifferent(ch.ring, h);
    if Find(ch.ring, h) == Different {
      DecidedByPosition(ch, h);
    }
  }

  /** A header apart from everything stored, and taken for none of it, is admitted unless it ends before the front. */
  lemma ApartIsGenuine(ch: Channel, h: Header)
    requires WellKept(ch, h.name) && h.startTime <= h.endTime
    requires forall x :: x in ch.ring ==> Apart(h, x) && Compare(x, h) == Different
    ensures Decide(ch, h) in GENUINE
    ensures Decide(ch, h) in ADMITTED <==> ch.ring[0].startTime <= h.endTime
  {
    FindDifferent(ch.ring, h);
    DecidedByPosition(ch, h);
    assert ch.ring[0] in ch.ring && ch.ring[|ch.ring| - 1] in ch.ring;
  }

  /** One step: a recorded header is apart from everything stored exactly when it engulfs nothing. */
  lemma RecordedApartExactly(ch: Channel, h: Header)
    requires WellKept(ch, h.name) && RingApart(ch.ring) && h.startTime <= h.endTime
    requires Decide(ch, h) in RECORDED
    ensures Engulfs(ch, h) <==> exists x :: x in ch.ring && !Apart(h, x)
  {
    forall x | x in ch.ring
      ensures Apart(h, x) <==> !StrictlyContains(h, x)
    {
      EndsBeforeLast(ch.ring, x);
      if Decide(ch, h) == Backfilled {
        assert !EndpointInside(h, x);
      }
    }
    if Engulfs(ch, h) {
      var s :| s in ch.ring && StrictlyContains(h, s);
      assert !Apart(h, s);
    }
  }

  /** An earlier header is still stored, or it is older than everything in a ring that stays full. */
  ghost predicate Remembered(ch: Channel, x: Header) {
    x in ch.ring || (|ch.ring| == ch.capacity && x.endTime < ch.ring[0].startTime)
  }

  ghost predicate Memory(ch: Channel, recorded: seq<Header>) {
    && RingApart(ch.ring)
    && PairwiseApart(recorded)
    && (forall x :: x in recorded ==> Remembered(ch, x))
    && (forall x :: x in ch.ring ==> x in recorded)
  }

  /** A recorded header that engulfs nothing starts after everything that was forgotten. */
  lemma ApartFromForgotten(ch: Channel, h: Header, x: Header)
    requires WellKept(ch, h.name) && RingApart(ch.ring) && h.startTime <= h.endTime
    requires Decide(ch, h) in RECORDED && !Engulfs(ch, h)
    requires Remembered(ch, x)
    ensures Apart(h, x)
  {
    RecordedApartExactly(ch, h);
    assert ch.ring[0] in ch.ring && Apart(h, ch.ring[0]);
    EndsBeforeLast(ch.ring, ch.ring[0]);
  }

  /** The front of a full ring only moves forward. */
  lemma FrontMovesForward(ch: Channel, h: Header)
    requires WellKept(ch, h.name) && RingApart(ch.ring) && h.startTime <= h.endTime
    requires |ch.ring| == ch.capacity
    requires Decide(ch, h) in RECORDED ==> !Engulfs(ch, h)
    ensures |Next(ch, h).ring| == ch.capacity
    ensures ch.ring[0].startTime <= Next(ch, h).ring[0].startTime
    ensures Decide(ch, h) in RECORDED ==> ch.ring[0].endTime < Next(ch, h).ring[0].startTime
  {
    if Decide(ch, h) in RECORDED {
      ApartFromForgotten(ch, h, ch.ring[0]);
      StepKeeps(Settings(false, 1, 1, 0), Some(ch), h);
      NewFront(ch, h);
    }
  }

  /** The new front of a full ring is the second stored header or the new one. */
  lemma NewFront(ch: Channel, h: Header)
    requires WellKept(ch, h.name) && RingApart(ch.ring)
    requires |ch.ring| == ch.capacity && Decide(ch, h) in RECORDED
    requires ch.ring[0].endTime < h.startTime
    ensures |Next(ch, h).ring| == ch.capacity
    ensures ch.ring[0].endTime < Next(ch, h).ring[0].startTime
  {
    if Decide(ch, h) == Backfilled {
      BackfillInserts(ch, h);
      CircularBuffers.InsertMembers(Kept(ch), h);
    }
    var ring' := Next(ch, h).ring;
    var x := ring'[0];
    assert x in ring';
    assert x == h || x in ch.ring[1..];
    if x != h {
      assert x in ch.ring && ch.ring[0] in ch.ring;
      var i :| 0 <= i < |ch.ring[1..]| && ch.ring[1..][i] == x;
      assert ch.ring[i + 1] == x && ch.ring[0].startTime < x.startTime;
      assert ch.ring[0] != x;
      assert Apart(ch.ring[0], x);
    }
  }

  lemma KeptMembers(ch: Channel, x: Header)
    requires x in ch.ring && x !in Kept(ch)
    ensures |ch.ring| == ch.capacity && x == ch.ring[0]
  {
    assert ch.ring == [ch.ring[0]] + ch.ring[1..];
  }

  lemma KeptSurvives(ch: Channel, h: Header, x: Header)
    requires CircularBuffers.Sorted(ch.ring) && Decide(ch, h) in RECORDED && x in Kept(ch)
    ensures x in Next(ch, h).ring
  {
    if Decide(ch, h) == Backfilled {
      BackfillInserts(ch, h);
      CircularBuffers.InsertMembers(Kept(ch), h);
    }
  }

  /** What a step forgets is the old front of a full ring. */
  lemma OnlyFrontForgotten(ch: Channel, h: Header, x: Header)
    requires WellKept(ch, h.name) && x in ch.ring && x !in Next(ch, h).ring
    ensures |ch.ring| == ch.capacity && x == ch.ring[0] && Decide(ch, h) in RECORDED
  {
    if x in Kept(ch) && Decide(ch, h) in RECORDED {
      KeptSurvives(ch, h, x);
    }
    if x !in Kept(ch) {
      KeptMembers(ch, x);
    }
  }

  /** The run invariant is kept by every header that engulfs nothing. */
  lemma StepRemembers(ch: Channel, h: Header, recorded: seq<Header>)
    requires WellKept(ch, h.name) && h.startTime <= h.endTime && Memory(ch, recorded)
    requires Decide(ch, h) in RECORDED && !Engulfs(ch, h)
    ensures Memory(Next(ch, h), recorded + [h])
  {
    var next := Next(ch, h);
    StepMembers(ch, h);
    RecordedApartExactly(ch, h);
    forall x | x in recorded
      ensures Apart(h, x) && Remembered(next, x)
    {
      ApartFromForgotten(ch, h, x);
      if |ch.ring| == ch.capacity {
        FrontMovesForward(ch, h);
      }
      if x in ch.ring && x !in next.ring {
        OnlyFrontForgotten(ch, h, x);
      }
    }
    var all := recorded + [h];
    forall i, j | 0 <= i < j < |all|
      ensures Apart(all[i], all[j])
    {
      assert all[i] in recorded;
    }
    assert forall x :: x in all ==> x in recorded || x == h;
  }

  /** Soundness over runs: if nothing engulfs, memory is exact and the recorded headers are pairwise apart. */
  lemma {:induction false} RunRemembers(cfg: Config, hs: seq<Header>, name: string)
    requires OneChannel(hs, name) && NeverEngulfs(cfg, hs)
    ensures hs != [] ==> Memory(Run(cfg, hs).value, Chosen(cfg, hs, RECORDED))
    decreases |hs|
  {
    if hs == [] {
    } else {
      var before, h := hs[..|hs| - 1], hs[|hs| - 1];
      RunRemembers(cfg, before, name);
      RunKeeps(cfg, before, name);
      if before != [] && LastOutcome(cfg, hs) in RECORDED {
        StepRemembers(Run(cfg, before).value, h, Chosen(cfg, before, RECORDED));
      }
    }
  }

  /** Every stored header was recorded, in any run. */
  lemma {:induction false} RingWasRecorded(cfg: Config, hs: seq<Header>, name: string)
    requires OneChannel(hs, name) && hs != []
    ensures forall x :: x in Run(cfg, hs).value.ring ==> x in Chosen(cfg, hs, RECORDED)
    decreases |hs|
  {
    var before, h := hs[..|hs| - 1], hs[|hs| - 1];
    if before == [] {
    } else {
      RingWasRecorded(cfg, before, name);
      RunKeeps(cfg, before, name);
      StepMembers(Run(cfg, before).value, h);
    }
  }

  /** The first engulfing header puts an overlapping pair into the record. */
  lemma EngulfingOverlaps(cfg: Config, hs: seq<Header>, name: string)
    requires OneChannel(hs, name) && |hs| > 1 && LastOutcome(cfg, hs) in RECORDED
    requires Run(cfg, hs[..|hs| - 1]).Some? && Engulfs(Run(cfg, hs[..|hs| - 1]).value, hs[|hs| - 1])
    ensures !PairwiseApart(Chosen(cfg, hs, RECORDED))
  {
    var before, h := hs[..|hs| - 1], hs[|hs| - 1];
    var earlier, all := Chosen(cfg, before, RECORDED), Chosen(cfg, hs, RECORDED);
    RingWasRecorded(cfg, before, name);
    var s :| s in Run(cfg, before).value.ring && StrictlyContains(h, s);
    var i :| 0 <= i < |earlier| && earlier[i] == s;
    assert s in before by { ChosenWereOffered(cfg, before, RECORDED); }
    assert s.startTime <= s.endTime;
    assert all == earlier + [h];
    assert all[i] == s && all[|earlier|] == h;
    assert !Apart(all[i], all[|earlier|]);
  }

  /**
   * Main theorem: over any run of one channel, with any ring capacity and any evictions, the recorded packets
   * are pairwise disjoint in time exactly when none of them strictly contained a stored one.
   */
  lemma {:induction false} DisjointExactly(cfg: Config, hs: seq<Header>, name: string)
    requires OneChannel(hs, name)
    ensures PairwiseApart(Chosen(cfg, hs, RECORDED)) <==> NeverEngulfs(cfg, hs)
    decreases |hs|
  {
    if NeverEngulfs(cfg, hs) {
      RunRemembers(cfg, hs, name);
      assert hs == [] ==> Chosen(cfg, hs, RECORDED) == [];
    } else {
      var before := hs[..|hs| - 1];
      DisjointExactly(cfg, before, name);
      if NeverEngulfs(cfg, before) {
        EngulfingOverlaps(cfg, hs, name);
      } else {
        PrefixNotApart(Chosen(cfg, before, RECORDED), Chosen(cfg, hs, RECORDED));
      }
    }
  }

  lemma PrefixNotApart(xs: seq<Header>, ys: seq<Header>)
    requires xs <= ys && !PairwiseApart(xs)
    ensures !PairwiseApart(ys)
  {
    var i, j :| 0 <= i < j < |xs| && !Apart(xs[i], xs[j]);
    assert ys[i] == xs[i] && ys[j] == xs[j];
  }

  /* ---------- What is let through ---------- */

  /** Admitted headers form a subsequence of the recorded ones. */
  lemma {:induction false} ChosenSubsequence(cfg: Config, hs: seq<Header>, few: set<Outcome>, many: set<Outcome>)
    requires few <= many
    ensures Sequences.Subsequence(Chosen(cfg, hs, few), Chosen(cfg, hs, many))
    decreases |hs|
  {
    if hs == [] {
    } else {
      var before, last := hs[..|hs| - 1], hs[|hs| - 1..];
      ChosenSubsequence(cfg, before, few, many);
      var xs, ys := Chosen(cfg, before, few), Chosen(cfg, before, many);
      if LastOutcome(cfg, hs) in few {
        Sequences.SubsequenceAppend(xs, ys, last);
      } else if LastOutcome(cfg, hs) in many {
        Sequences.SubsequenceExtend(xs, ys, last[0]);
      }
      assert last == [hs[|hs| - 1]] && xs + [] == xs && ys + [] == ys;
    }
  }

  lemma SubsequenceApart(xs: seq<Header>, ys: seq<Header>)
    requires Sequences.Subsequence(xs, ys) && PairwiseApart(ys)
    ensures PairwiseApart(xs)
  {
    forall i, j | 0 <= i < j < |xs|
      ensures Apart(xs[i], xs[j])
    {
      var a, b := Sequences.SubsequencePair(xs, ys, i, j);
    }
  }

  /** An input-level hypothesis: no offered header strictly contains another offered one. */
  ghost predicate NoContainment(hs: seq<Header>) {
    forall x, y :: x in hs && y in hs ==> !StrictlyContains(x, y)
  }

  lemma {:induction false} NoContainmentSuffices(cfg: Config, hs: seq<Header>, name: string)
    requires OneChannel(hs, name) && NoContainment(hs)
    ensures NeverEngulfs(cfg, hs)
    decreases |hs|
  {
    if hs == [] {
    } else {
      var before := hs[..|hs| - 1];
      NoContainmentSuffices(cfg, before, name);
      if before != [] {
        RingWasRecorded(cfg, before, name);
        ChosenWereOffered(cfg, before, RECORDED);
        assert hs == before + [hs[|hs| - 1]];
      }
    }
  }

  lemma {:induction false} ChosenWereOffered(cfg: Config, hs: seq<Header>, kinds: set<Outcome>)
    ensures forall x :: x in Chosen(cfg, hs, kinds) ==> x in hs
    decreases |hs|
  {
    if hs == [] {
    } else {
      ChosenWereOffered(cfg, hs[..|hs| - 1], kinds);
      assert hs == hs[..|hs| - 1] + [hs[|hs| - 1]];
    }
  }

  /**
   * Whatever the capacity, the admitted packets of a run that never engulfs are pairwise disjoint. Packets that
   * arrive inside an earlier, longer one are allowed in such runs: the timing test rejects them. The condition is
   * exact for recorded packets (`DisjointExactly`) but only sufficient for admitted ones, as a prepended packet is
   * recorded without being admitted (`EngulfedButDisjoint`).
   */
  lemma AdmittedDisjoint(cfg: Config, hs: seq<Header>, name: string)
    requires OneChannel(hs, name) && NeverEngulfs(cfg, hs)
    ensures PairwiseApart(Chosen(cfg, hs, ADMITTED))
  {
    DisjointExactly(cfg, hs, name);
    ChosenSubsequence(cfg, hs, ADMITTED, RECORDED);
    SubsequenceApart(Chosen(cfg, hs, ADMITTED), Chosen(cfg, hs, RECORDED));
  }

  /** In particular for inputs in which no packet contains another. */
  lemma AdmittedDisjointWithoutContainment(cfg: Config, hs: seq<Header>, name: string)
    requires OneChannel(hs, name) && NoContainment(hs)
    ensures PairwiseApart(Chosen(cfg, hs, ADMITTED))
  {
    NoContainmentSuffices(cfg, hs, name);
    AdmittedDisjoint(cfg, hs, name);
  }

  /** Packets of one duration cannot contain each other. */
  lemma ConstantDurationSuffices(hs: seq<Header>, duration: int)
    requires forall x :: x in hs ==> x.endTime - x.startTime == duration
    ensures NoContainment(hs)
  {
    forall x, y | x in hs && y in hs
      ensures !StrictlyContains(x, y)
    {
      assert x.endTime - x.startTime == y.endTime - y.startTime;
    }
  }

  /** The hypothesis is needed: a long packet around a stored one is admitted and overlaps it. */
  lemma EngulfingAdmitted(cfg: Config)
    ensures var inner := Header("N.S.C", 1000000, 2000000, 100, 101);
            var outer := Header("N.S.C", 0, 3000000, 100, 301);
            Chosen(cfg, [inner, outer], ADMITTED) == [inner, outer] && !Apart(inner, outer)
  {
    var inner := Header("N.S.C", 1000000, 2000000, 100, 101);
    var outer := Header("N.S.C", 0, 3000000, 100, 301);
    var hs := [inner, outer];
    assert hs[..1] == [inner] && hs[..1][..0] == [];
    var ch := Buffer(Capacity(cfg, inner), [inner]);
    assert Run(cfg, [inner]) == Some(ch);
    assert Find(ch.ring, outer) == Different by {
      FindDifferent(ch.ring, outer);
    }
    assert LastOutcome(cfg, hs) == Backfilled;
    assert Chosen(cfg, [inner], ADMITTED) == [inner];
  }

  const THREE_SLOTS: Config := Settings(false, 3, 1, 0)
  const NEWEST := Header("N.S.C", 3000000, 4000000, 100, 101)
  const OLDER := Header("N.S.C", 1000000, 2000000, 100, 102)
  const AROUND := Header("N.S.C", 500000, 2500000, 100, 201)

  lemma OlderIsPrepended()
    ensures Run(THREE_SLOTS, [NEWEST, OLDER]) == Some(Buffer(3, [OLDER, NEWEST]))
    ensures Chosen(THREE_SLOTS, [NEWEST, OLDER], ADMITTED) == [NEWEST]
  {
    AdmitOne(THREE_SLOTS, [], NEWEST);
    assert [] + [NEWEST] == [NEWEST] && [NEWEST] + [OLDER] == [NEWEST, OLDER];
    FindDifferent([NEWEST], OLDER);
    assert Decide(Buffer(3, [NEWEST]), OLDER) == Prepended;
    assert [OLDER] + [NEWEST] == [OLDER, NEWEST];
    RunSnoc(THREE_SLOTS, [NEWEST], OLDER);
    ChosenSnoc(THREE_SLOTS, [NEWEST], OLDER, ADMITTED);
  }

  /** A run that engulfs a stored packet although its admitted packets are disjoint. */
  lemma EngulfedButDisjoint()
    ensures var hs := [NEWEST, OLDER, AROUND];
      && OneChannel(hs, "N.S.C") && !NeverEngulfs(THREE_SLOTS, hs)
      && PairwiseApart(Chosen(THREE_SLOTS, hs, ADMITTED))
  {
    var hs, ring := [NEWEST, OLDER, AROUND], [OLDER, NEWEST];
    OlderIsPrepended();
    assert hs[..2] == [NEWEST, OLDER];
    FindDifferent(ring, AROUND);
    assert LastOutcome(THREE_SLOTS, hs) == Backfilled;
    assert OLDER in ring && StrictlyContains(AROUND, OLDER);
    assert Chosen(THREE_SLOTS, hs, ADMITTED) == [NEWEST, AROUND];
  }

  /* ---------- Recorded packets offered again ---------- */

  /**
   * What any run keeps about an earlier header, engulfing or not: it is still stored, or the ring is full and
   * everything stored ends no earlier than it starts.
   */
  ghost predicate Recalled(ch: Channel, x: Header) {
    x in ch.ring || (|ch.ring| == ch.capacity && forall y :: y in ch.ring ==> x.startTime <= y.endTime)
  }

  /** A header that enters a full ring ends no earlier than the front of the ring. */
  lemma NewcomerEndsAfterFront(ch: Channel, h: Header)
    requires CircularBuffers.StrictlySorted(ch.ring) && Forward(ch.ring) && h.startTime <= h.endTime
    requires |ch.ring| == ch.capacity && Decide(ch, h) in RECORDED
    ensures h.endTime >= ch.ring[0].startTime
    ensures h.endTime > ch.ring[0].endTime || h.startTime > ch.ring[|ch.ring| - 1].endTime
  {
    var front, back := ch.ring[0], ch.ring[|ch.ring| - 1];
    assert front in ch.ring && back in ch.ring;
    assert front.startTime <= back.startTime <= back.endTime;
    if Decide(ch, h) == Backfilled {
      assert !EndpointInside(h, front);
    }
  }

  /** So it ends no earlier than anything recalled starts. */
  lemma NewcomerEndsLate(ch: Channel, h: Header, x: Header)
    requires WellKept(ch, h.name) && h.startTime <= h.endTime && Recalled(ch, x)
    requires |ch.ring| == ch.capacity && Decide(ch, h) in RECORDED
    ensures x.startTime <= h.endTime || x in Next(ch, h).ring
  {
    var front, back := ch.ring[0], ch.ring[|ch.ring| - 1];
    NewcomerEndsAfterFront(ch, h);
    if x in Kept(ch) {
      KeptSurvives(ch, h, x);
    } else if x in ch.ring {
      KeptMembers(ch, x);
    } else {
      assert front in ch.ring && back in ch.ring;
    }
  }

  lemma StepRecalls(ch: Channel, h: Header, x: Header)
    requires WellKept(ch, h.name) && h.startTime <= h.endTime && Recalled(ch, x)
    ensures Recalled(Next(ch, h), x)
  {
    var next := Next(ch, h);
    if Decide(ch, h) in RECORDED && x !in next.ring {
      if x in ch.ring {
        OnlyFrontForgotten(ch, h, x);
      }
      NewcomerEndsLate(ch, h, x);
      StepMembers(ch, h);
      FullStaysFull(ch, h);
      forall y | y in next.ring
        ensures x.startTime <= y.endTime
      {
        if y in ch.ring && x in ch.ring {
          StartsNoLaterThanFrontEnds(ch, x, y);
        }
      }
    }
  }

  lemma FullStaysFull(ch: Channel, h: Header)
    requires CircularBuffers.Sorted(ch.ring) && |ch.ring| == ch.capacity
    ensures |Next(ch, h).ring| == ch.capacity && Next(ch, h).capacity == ch.capacity
  {
  }

  /** The front starts before every stored header ends. */
  lemma StartsNoLaterThanFrontEnds(ch: Channel, x: Header, y: Header)
    requires CircularBuffers.StrictlySorted(ch.ring) && Forward(ch.ring) && x == ch.ring[0] && y in ch.ring
    ensures x.startTime <= y.endTime
  {
    var i :| 0 <= i < |ch.ring| && ch.ring[i] == y;
    assert x.startTime <= y.startTime;
  }

  /** Over every run, each recorded header is recalled. */
  lemma {:induction false} RunRecalls(cfg: Config, hs: seq<Header>, name: string, x: Header)
    requires OneChannel(hs, name) && x in Chosen(cfg, hs, RECORDED)
    ensures Run(cfg, hs).Some? && Recalled(Run(cfg, hs).value, x)
    decreases |hs|
  {
    var before, h := hs[..|hs| - 1], hs[|hs| - 1];
    if before == [] {
    } else {
      RunKeeps(cfg, before, name);
      var ch := Run(cfg, before).value;
      if x in Chosen(cfg, before, RECORDED) {
        RunRecalls(cfg, before, name, x);
        StepRecalls(ch, h, x);
      } else {
        StepMembers(ch, h);
      }
    }
  }

  /** The header passes both tests against the ring and strictly contains its oldest header. */
  ghost predicate EngulfsFrontUnseen(ch: Channel, x: Header) {
    && Find(ch.ring, x) == Different
    && StrictlyContains(x, ch.ring[0])
    && !Slips(ch, x)
  }

  lemma RecalledAdmittedExactly(ch: Channel, x: Header)
    requires WellKept(ch, x.name) && x.startTime <= x.endTime && Recalled(ch, x)
    ensures Decide(ch, x) in ADMITTED <==> EngulfsFrontUnseen(ch, x)
  {
    var front, back := ch.ring[0], ch.ring[|ch.ring| - 1];
    assert front in ch.ring && back in ch.ring;
    assert front.startTime <= back.startTime;
    AdmittedExactly(ch, x);
    FindDifferent(ch.ring, x);
    if Find(ch.ring, x) == Different {
      FoundDifferentIsNew(ch.ring, x);
      assert x.startTime <= back.endTime && x.startTime <= front.endTime;
    }
  }

  /** Everything ever recorded has the rate of the ring. */
  lemma {:induction false} RecordedRates(cfg: Config, hs: seq<Header>, name: string)
    requires OneChannel(hs, name) && hs != []
    ensures forall x :: x in Chosen(cfg, hs, RECORDED) ==> x.samplingRate == Run(cfg, hs).value.ring[0].samplingRate
    decreases |hs|
  {
    var before, h := hs[..|hs| - 1], hs[|hs| - 1];
    if before != [] {
      RecordedRates(cfg, before, name);
      RunKeeps(cfg, before, name);
      RunKeeps(cfg, hs, name);
      var ch, next := Run(cfg, before).value, Run(cfg, hs).value;
      StepMembers(ch, h);
      assert next.ring[0] in next.ring;
      if Decide(ch, h) in RECORDED {
        StoredRate(ch, h);
      }
    }
  }

  /**
   * When a recorded packet that is offered again is admitted a second time, in any run: exactly when it was
   * purged, strictly contains the front of the ring, and no stored interval sees one of its end points. Otherwise
   * it is refused, and below the rate limit never by an exception, although the class comment says that purged
   * packets will be allowed.
   */
  lemma AdmittedAgainExactly(cfg: Config, hs: seq<Header>, name: string, x: Header)
    requires OneChannel(hs, name) && x in Chosen(cfg, hs, RECORDED)
    ensures Run(cfg, hs).Some?
    ensures Verdict(Run(cfg, hs), x) in ADMITTED <==> EngulfsFrontUnseen(Run(cfg, hs).value, x)
    ensures Verdict(Run(cfg, hs), x) in ADMITTED ==> x !in Run(cfg, hs).value.ring
    ensures x.samplingRate < RATE_LIMIT ==> Verdict(Run(cfg, hs), x) != Raised
  {
    ChosenWereOffered(cfg, hs, RECORDED);
    RunRecalls(cfg, hs, name, x);
    RunKeeps(cfg, hs, name);
    RecordedRates(cfg, hs, name);
    var ch := Run(cfg, hs).value;
    RecalledAdmittedExactly(ch, x);
    RaisedExactly(cfg, ch, x);
    if Find(ch.ring, x) == Different {
      FoundDifferentIsNew(ch.ring, x);
    }
  }

  /** In runs that never engulf this never happens: nothing recorded is admitted twice. */
  lemma RecordedNeverAdmittedAgain(cfg: Config, hs: seq<Header>, name: string, x: Header)
    requires OneChannel(hs, name) && NeverEngulfs(cfg, hs) && x in Chosen(cfg, hs, RECORDED)
    ensures Verdict(Run(cfg, hs), x) !in ADMITTED
  {
    AdmittedAgainExactly(cfg, hs, name, x);
    ChosenWereOffered(cfg, hs, RECORDED);
    RunRemembers(cfg, hs, name);
    RunKeeps(cfg, hs, name);
    var ch := Run(cfg, hs).value;
    assert Remembered(ch, x);
    assert ch.ring[0] in ch.ring;
  }

  /** One more header of a concrete run in which everything so far was admitted. */
  lemma AdmitOne(cfg: Config, hs: seq<Header>, h: Header)
    requires Chosen(cfg, hs, ADMITTED) == hs && Verdict(Run(cfg, hs), h) in ADMITTED
    ensures Chosen(cfg, hs + [h], ADMITTED) == hs + [h]
    ensures Run(cfg, hs + [h]) == Some(Update(cfg, Run(cfg, hs), h))
  {
    assert (hs + [h])[..|hs|] == hs;
  }

  const TWO_SLOTS: Config := Settings(false, 2, 1, 0)
  const SHORT := Header("N.S.C", 3000000, 4000000, 100, 101)
  const LONG := Header("N.S.C", 500000, 5000000, 100, 451)
  const LATER := Header("N.S.C", 4100000, 4500000, 100, 41)

  lemma ShortThenLong()
    ensures Chosen(TWO_SLOTS, [SHORT, LONG], ADMITTED) == [SHORT, LONG]
    ensures Run(TWO_SLOTS, [SHORT, LONG]) == Some(Buffer(2, [LONG, SHORT]))
  {
    AdmitOne(TWO_SLOTS, [], SHORT);
    assert [] + [SHORT] == [SHORT];
    LongIsBackfilled([SHORT]);
    AdmitOne(TWO_SLOTS, [SHORT], LONG);
    assert [SHORT] + [LONG] == [SHORT, LONG];
  }

  lemma ThenLater()
    ensures Chosen(TWO_SLOTS, [SHORT, LONG, LATER], ADMITTED) == [SHORT, LONG, LATER]
    ensures Run(TWO_SLOTS, [SHORT, LONG, LATER]) == Some(Buffer(2, [SHORT, LATER]))
  {
    ShortThenLong();
    LaterIsAppended();
    AdmitOne(TWO_SLOTS, [SHORT, LONG], LATER);
    assert [SHORT, LONG] + [LATER] == [SHORT, LONG, LATER];
  }

  /** A purged packet that is admitted again: with room for two, a packet around a stored one comes back. */
  lemma PurgedPacketAdmittedAgain()
    ensures Chosen(TWO_SLOTS, [SHORT, LONG, LATER, LONG], ADMITTED) == [SHORT, LONG, LATER, LONG]
    ensures Run(TWO_SLOTS, [SHORT, LONG, LATER, LONG]) == Some(Buffer(2, [LONG, LATER]))
  {
    ThenLater();
    LongIsBackfilled([SHORT, LATER]);
    AdmitOne(TWO_SLOTS, [SHORT, LONG, LATER], LONG);
    assert [SHORT, LONG, LATER] + [LONG] == [SHORT, LONG, LATER, LONG];
  }

  lemma LongFits(ring: seq<Header>)
    requires ring == [SHORT] || ring == [SHORT, LATER]
    ensures Decide(Buffer(2, ring), LONG) == Backfilled
  {
    FindDifferent(ring, LONG);
    assert forall x :: x in ring ==> x == SHORT || x == LATER;
  }

  lemma InsertBefore(h: Header, x: Header)
    requires h.startTime < x.startTime
    ensures CircularBuffers.Insert([x], h) == [h, x]
  {
    assert [x][..0] == [];
  }

  lemma LongIsBackfilled(ring: seq<Header>)
    requires ring == [SHORT] || ring == [SHORT, LATER]
    ensures Decide(Buffer(2, ring), LONG) == Backfilled
    ensures Next(Buffer(2, ring), LONG) == Buffer(2, [LONG, if ring == [SHORT] then SHORT else LATER])
  {
    var last := if ring == [SHORT] then SHORT else LATER;
    LongFits(ring);
    BackfillInserts(Buffer(2, ring), LONG);
    assert Kept(Buffer(2, ring)) == [last];
    InsertBefore(LONG, last);
  }

  lemma LaterIsAppended()
    ensures Decide(Buffer(2, [LONG, SHORT]), LATER) == Appended
    ensures Next(Buffer(2, [LONG, SHORT]), LATER) == Buffer(2, [SHORT, LATER])
  {
    FindDifferent([LONG, SHORT], LATER);
    assert [LONG, SHORT][1..] == [SHORT];
  }
}
