/** The ring is a streaming selection of the latest-starting headers. */
module LatestHeaders {
  import opened CircularBuffers
  import opened Detector
  import Disjointness
  import opened Headers
  import opened Wrappers

  /** The last `k` elements, or all of them. */
  function Latest(s: seq<Header>, k: int): seq<Header>
    requires k >= 0
  {
    if |s| <= k then s else s[|s| - k..]
  }

  /** A header that goes to the end goes to the end of the selection. */
  lemma SelectThenAppend(s: seq<Header>, h: Header, k: int)
    requires k >= 0 && (s == [] || s[|s| - 1].startTime <= h.startTime)
    ensures Latest(Insert(s, h), k) == Latest(Insert(Latest(s, k), h), k)
  {
    var t := Latest(s, k);
    if t != [] {
      assert t[|t| - 1] == s[|s| - 1];
    }
    assert Insert(t, h) == t + [h];
  }

  /** Selecting before or after an insertion gives the same selection, so one pass with memory `k` suffices. */
  lemma {:induction false} StreamingSelection(s: seq<Header>, h: Header, k: int)
    requires k >= 0
    ensures Latest(Insert(s, h), k) == Latest(Insert(Latest(s, k), h), k)
    decreases |s|
  {
    if s == [] || s[|s| - 1].startTime <= h.startTime {
      SelectThenAppend(s, h, k);
    } else if k > 0 {
      var s', last := s[..|s| - 1], s[|s| - 1];
      var t := Latest(s, k);
      LatestInit(s, k);
      StreamingSelection(s', h, k - 1);
      LatestSnoc(Insert(s', h), last, k);
      LatestSnoc(Insert(Latest(s', k - 1), h), last, k);
      assert Insert(t, h) == Insert(Latest(s', k - 1), h) + [last];
    }
  }

  lemma LatestInit(s: seq<Header>, k: int)
    requires s != [] && k > 0
    ensures var t := Latest(s, k);
      t != [] && t[|t| - 1] == s[|s| - 1] && t[..|t| - 1] == Latest(s[..|s| - 1], k - 1)
  {
  }

  lemma LatestSnoc(s: seq<Header>, x: Header, k: int)
    requires k > 0
    ensures Latest(s + [x], k) == Latest(s, k - 1) + [x]
  {
  }

  /** The one step that breaks the selection: a full ring gives up its front for a header older than it. */
  ghost predicate DisplacesFront(ch: Channel, h: Header) {
    Decide(ch, h) == Backfilled && |ch.ring| == ch.capacity && h.startTime < ch.ring[0].startTime
  }

  lemma {:induction false} InsertInFront(s: seq<Header>, h: Header)
    requires Sorted(s)
    requires s != [] ==> h.startTime < s[0].startTime
    ensures Insert(s, h) == [h] + s
    decreases |s|
  {
    if s == [] {
    } else {
      InsertInFront(s[..|s| - 1], h);
      assert s == s[..|s| - 1] + [s[|s| - 1]];
    }
  }

  lemma {:induction false} InsertPastFront(s: seq<Header>, h: Header)
    requires s != [] && s[0].startTime <= h.startTime
    ensures Insert(s, h) == [s[0]] + Insert(s[1..], h)
    decreases |s|
  {
    if s[|s| - 1].startTime > h.startTime {
      InsertPastFront(s[..|s| - 1], h);
      assert s[..|s| - 1][1..] == s[1..][..|s| - 2];
    } else {
      assert s == [s[0]] + s[1..];
    }
  }

  lemma BackfillSelectsExactly(ch: Channel, h: Header)
    requires StrictlySorted(ch.ring) && Decide(ch, h) == Backfilled
    ensures Next(ch, h).ring == Latest(Insert(ch.ring, h), ch.capacity) <==> !DisplacesFront(ch, h)
  {
    BackfillInserts(ch, h);
    if |ch.ring| == ch.capacity {
      if h.startTime < ch.ring[0].startTime {
        InsertInFront(ch.ring, h);
        assert ([h] + ch.ring)[1..] == ch.ring;
        InsertMembers(Kept(ch), h);
        assert h !in ch.ring;
      } else {
        InsertPastFront(ch.ring, h);
      }
    }
  }

  lemma LatestOfAppend(s: seq<Header>, h: Header, k: int)
    requires 1 <= |s| <= k
    ensures Latest(s + [h], k) == PushedBack(s, k, h)
  {
    assert |s| == k ==> (s + [h])[1..] == s[1..] + [h];
  }

  lemma AppendSelects(ch: Channel, h: Header)
    requires ch.ring[|ch.ring| - 1].startTime <= h.startTime && Decide(ch, h) == Appended
    ensures Next(ch, h).ring == Latest(Insert(ch.ring, h), ch.capacity)
  {
    assert Insert(ch.ring, h) == ch.ring + [h];
    LatestOfAppend(ch.ring, h, ch.capacity);
  }

  lemma TooOldOrPrependSelects(ch: Channel, h: Header)
    requires Sorted(ch.ring) && h.startTime < ch.ring[0].startTime && Decide(ch, h) in {Prepended, TooOld}
    ensures Next(ch, h).ring == Latest(Insert(ch.ring, h), ch.capacity)
  {
    InsertInFront(ch.ring, h);
    assert ([h] + ch.ring)[1..] == ch.ring;
  }

  /** One step keeps the latest headers exactly unless it displaces the front. */
  lemma StepSelectsExactly(ch: Channel, h: Header)
    requires WellKept(ch, h.name) && h.startTime <= h.endTime && Decide(ch, h) in GENUINE
    ensures Next(ch, h).ring == Latest(Insert(ch.ring, h), ch.capacity) <==> !DisplacesFront(ch, h)
  {
    var first, last := ch.ring[0], ch.ring[|ch.ring| - 1];
    assert first in ch.ring && last in ch.ring;
    match Decide(ch, h)
    case Backfilled => BackfillSelectsExactly(ch, h);
    case Appended => AppendSelects(ch, h);
    case _ => TooOldOrPrependSelects(ch, h);
  }

  /** Without displacement a full ring stays full and its front only moves forward. */
  lemma FrontNeverDecreases(ch: Channel, h: Header)
    requires WellKept(ch, h.name) && h.startTime <= h.endTime
    requires |ch.ring| == ch.capacity && !DisplacesFront(ch, h)
    ensures |Next(ch, h).ring| == ch.capacity
    ensures ch.ring[0].startTime <= Next(ch, h).ring[0].startTime
    ensures ch.ring[0] !in Next(ch, h).ring ==> ch.ring[0].startTime < Next(ch, h).ring[0].startTime
  {
    if Decide(ch, h) in RECORDED {
      var x := Next(ch, h).ring[0];
      if Decide(ch, h) == Backfilled {
        BackfillInserts(ch, h);
        InsertMembers(Kept(ch), h);
        assert ch.ring[0] in ch.ring && !EndpointInside(h, ch.ring[0]);
        assert ch.ring[0].startTime <= ch.ring[0].endTime;
      } else {
        var last := ch.ring[|ch.ring| - 1];
        assert last in ch.ring && last.startTime <= last.endTime;
      }
      assert x in Next(ch, h).ring;
      assert x == h || x in ch.ring[1..];
    }
  }

  /** No header of the run displaces the front of a full ring. */
  ghost predicate NeverDisplaces(cfg: Config, hs: seq<Header>)
    decreases |hs|
  {
    hs == [] ||
    (var before := Run(cfg, hs[..|hs| - 1]);
     NeverDisplaces(cfg, hs[..|hs| - 1]) && (before.Some? ==> !DisplacesFront(before.value, hs[|hs| - 1])))
  }

  /** The ring is the selection of the sorted genuine headers. */
  ghost predicate Selects(ch: Channel, genuine: seq<Header>) {
    ch.ring == Latest(SortByStart(genuine), ch.capacity)
  }

  lemma SelectionStart(h: Header, capacity: int)
    requires capacity >= 1
    ensures Selects(Buffer(capacity, [h]), [h])
  {
    assert [h][..0] == [] && SortByStart([]) == [];
    assert SortByStart([h]) == Insert([], h) == [h];
  }

  lemma SortByStartSnoc(s: seq<Header>, h: Header)
    ensures SortByStart(s + [h]) == Insert(SortByStart(s), h)
  {
    assert (s + [h])[..|s|] == s;
  }

  lemma SelectionStep(ch: Channel, h: Header, genuine: seq<Header>)
    requires WellKept(ch, h.name) && h.startTime <= h.endTime && Decide(ch, h) in GENUINE
    requires Selects(ch, genuine)
    ensures Selects(Next(ch, h), genuine + [h]) <==> !DisplacesFront(ch, h)
  {
    StepSelectsExactly(ch, h);
    StreamingSelection(SortByStart(genuine), h, ch.capacity);
    SortByStartSnoc(genuine, h);
  }

  lemma NotGenuineKeeps(ch: Channel, h: Header)
    requires Decide(ch, h) !in GENUINE
    ensures Next(ch, h) == ch
  {
  }

  /** At every point of the run the ring is the selection of what came before. */
  ghost predicate SelectsThroughout(cfg: Config, hs: seq<Header>)
    decreases |hs|
  {
    hs == [] ||
    (SelectsThroughout(cfg, hs[..|hs| - 1]) && Selects(Run(cfg, hs).value, Chosen(cfg, hs, GENUINE)))
  }

  /** One more header on a ring that selects. */
  lemma SelectsOneMore(ch: Channel, h: Header, genuine: seq<Header>)
    requires WellKept(ch, h.name) && h.startTime <= h.endTime && Selects(ch, genuine)
    ensures Selects(Next(ch, h), genuine + (if Decide(ch, h) in GENUINE then [h] else [])) <==> !DisplacesFront(ch, h)
  {
    if Decide(ch, h) in GENUINE {
      SelectionStep(ch, h, genuine);
    } else {
      NotGenuineKeeps(ch, h);
      assert genuine + [] == genuine;
    }
  }

  lemma RunSelectsOneMore(cfg: Config, before: seq<Header>, name: string, h: Header)
    requires OneChannel(before + [h], name) && before != []
    requires Selects(Run(cfg, before).value, Chosen(cfg, before, GENUINE))
    ensures Selects(Run(cfg, before + [h]).value, Chosen(cfg, before + [h], GENUINE)) <==>
            !DisplacesFront(Run(cfg, before).value, h)
  {
    assert h in before + [h] && forall x :: x in before ==> x in before + [h];
    RunKeeps(cfg, before, name);
    RunSnoc(cfg, before, h);
    ChosenSnoc(cfg, before, h, GENUINE);
    SelectsOneMore(Run(cfg, before).value, h, Chosen(cfg, before, GENUINE));
  }

  lemma FirstSelects(cfg: Config, h: Header)
    ensures Selects(Run(cfg, [h]).value, Chosen(cfg, [h], GENUINE))
  {
    assert [] + [h] == [h];
    RunSnoc(cfg, [], h);
    ChosenSnoc(cfg, [], h, GENUINE);
    SelectionStart(h, Capacity(cfg, h));
  }

  /** What both conditions add for one more header. */
  lemma BothOneMore(cfg: Config, before: seq<Header>, h: Header)
    ensures SelectsThroughout(cfg, before + [h]) <==>
            SelectsThroughout(cfg, before) && Selects(Run(cfg, before + [h]).value, Chosen(cfg, before + [h], GENUINE))
    ensures NeverDisplaces(cfg, before + [h]) <==>
            NeverDisplaces(cfg, before) && (before != [] ==> !DisplacesFront(Run(cfg, before).value, h))
  {
    assert (before + [h])[..|before|] == before;
  }

  /**
   * The ring holds exactly the `capacity` latest-starting headers among all those offered that were neither duplicate
   * nor overlapping, in order: at every point of a run if and only if the run never displaces the front of a full ring.
   */
  lemma {:induction false} RingIsLatestExactly(cfg: Config, hs: seq<Header>, name: string)
    requires OneChannel(hs, name)
    ensures SelectsThroughout(cfg, hs) <==> NeverDisplaces(cfg, hs)
    decreases |hs|
  {
    if hs == [] {
    } else {
      var before, h := hs[..|hs| - 1], hs[|hs| - 1];
      RingIsLatestExactly(cfg, before, name);
      BothOneMore(cfg, before, h);
      assert hs == before + [h];
      if before == [] {
        FirstSelects(cfg, h);
      } else if SelectsThroughout(cfg, before) {
        RunSelectsOneMore(cfg, before, name, h);
      }
    }
  }

  /** In particular at the end of a run that never displaces. */
  lemma RingIsLatest(cfg: Config, hs: seq<Header>, name: string)
    requires OneChannel(hs, name) && hs != [] && NeverDisplaces(cfg, hs)
    ensures Selects(Run(cfg, hs).value, Chosen(cfg, hs, GENUINE))
  {
    RingIsLatestExactly(cfg, hs, name);
  }

  /** Up to its third header the run of a purged packet selects; the packet that comes back displaces the front. */
  lemma SelectsSoFar()
    ensures var hs := [Disjointness.SHORT, Disjointness.LONG, Disjointness.LATER];
      NeverDisplaces(Disjointness.TWO_SLOTS, hs)
  {
    var cfg, a, b, c := Disjointness.TWO_SLOTS, Disjointness.SHORT, Disjointness.LONG, Disjointness.LATER;
    Disjointness.ShortThenLong();
    Disjointness.LaterIsAppended();
    assert [a, b, c][..2] == [a, b] && [a, b][..1] == [a] && [a][..0] == [];
    assert NeverDisplaces(cfg, [a]);
    assert Run(cfg, [a]) == Some(Buffer(2, [a]));
    assert NeverDisplaces(cfg, [a, b]);
  }

  /** A run that displaces: with room for two, the ring keeps the oldest header and loses a later one. */
  lemma DisplacedRing()
    ensures var cfg := Disjointness.TWO_SLOTS;
            var hs := [Disjointness.SHORT, Disjointness.LONG, Disjointness.LATER, Disjointness.LONG];
      && Run(cfg, hs) == Some(Buffer(2, [Disjointness.LONG, Disjointness.LATER]))
      && !NeverDisplaces(cfg, hs) && !Selects(Run(cfg, hs).value, Chosen(cfg, hs, GENUINE))
  {
    var cfg, a, b, c := Disjointness.TWO_SLOTS, Disjointness.SHORT, Disjointness.LONG, Disjointness.LATER;
    var before, hs := [a, b, c], [a, b, c, b];
    Disjointness.ThenLater();
    Disjointness.PurgedPacketAdmittedAgain();
    Disjointness.LongIsBackfilled([a, c]);
    SelectsSoFar();
    assert hs[..3] == before;
    RingIsLatest(cfg, before, a.name);
    assert hs == before + [b];
    RunSelectsOneMore(cfg, before, a.name, b);
  }

  /** Runs that never engulf never displace, so inputs without containment are covered. */
  lemma {:induction false} NeverEngulfsNeverDisplaces(cfg: Config, hs: seq<Header>, name: string)
    requires OneChannel(hs, name) && Disjointness.NeverEngulfs(cfg, hs)
    ensures NeverDisplaces(cfg, hs)
    decreases |hs|
  {
    if hs == [] {
    } else {
      var before, h := hs[..|hs| - 1], hs[|hs| - 1];
      NeverEngulfsNeverDisplaces(cfg, before, name);
      if before != [] && Decide(Run(cfg, before).value, h) == Backfilled {
        var ch := Run(cfg, before).value;
        assert ch.ring[0] in ch.ring && !EndpointInside(h, ch.ring[0]);
        assert !Disjointness.StrictlyContains(h, ch.ring[0]);
      }
    }
  }

  /** Genuine headers that are no longer held start before everything that is, and the ring is then full. */
  lemma {:induction false} ForgottenStartEarlier(cfg: Config, hs: seq<Header>, name: string, x: Header)
    requires OneChannel(hs, name) && hs != [] && NeverDisplaces(cfg, hs)
    requires x in Chosen(cfg, hs, GENUINE) && x !in Run(cfg, hs).value.ring
    ensures var ch := Run(cfg, hs).value;
      |ch.ring| == ch.capacity && x.startTime < ch.ring[0].startTime
    decreases |hs|
  {
    var before, h := hs[..|hs| - 1], hs[|hs| - 1];
    if before == [] {
    } else {
      RunKeeps(cfg, before, name);
      var ch := Run(cfg, before).value;
      StepMembers(ch, h);
      if x in Chosen(cfg, before, GENUINE) {
        if x in ch.ring {
          Disjointness.OnlyFrontForgotten(ch, h, x);
        } else {
          ForgottenStartEarlier(cfg, before, name, x);
        }
        FrontNeverDecreases(ch, h);
      }
    }
  }
}
