/** The detector over many channels, and why each channel can be studied alone. */
module Channels {
  import opened Detector
  import opened Disjointness
  import opened Headers
  import Sequences
  import opened Wrappers

  type Rings = map<string, Channel>

  function Lookup(rings: Rings, name: string): Option<Channel> {
    if name in rings then Some(rings[name]) else None
  }

  function Offer(cfg: Config, rings: Rings, h: Header): Rings {
    rings[h.name := Update(cfg, Lookup(rings, h.name), h)]
  }

  /** The rings after a run of interleaved channels. */
  function RunAll(cfg: Config, hs: seq<Header>): Rings {
    if hs == [] then map[] else Offer(cfg, RunAll(cfg, hs[..|hs| - 1]), hs[|hs| - 1])
  }

  function OutcomeAfter(cfg: Config, hs: seq<Header>, h: Header): Outcome {
    Verdict(Lookup(RunAll(cfg, hs), h.name), h)
  }

  /** The headers of an interleaved run whose outcome is one of `kinds`. */
  function ChosenAll(cfg: Config, hs: seq<Header>, kinds: set<Outcome>): seq<Header> {
    if hs == [] then []
    else
      var before, h := hs[..|hs| - 1], hs[|hs| - 1];
      ChosenAll(cfg, before, kinds) + (if OutcomeAfter(cfg, before, h) in kinds then [h] else [])
  }

  lemma RunAllSnoc(cfg: Config, hs: seq<Header>, h: Header)
    ensures RunAll(cfg, hs + [h]) == Offer(cfg, RunAll(cfg, hs), h)
  {
    assert (hs + [h])[..|hs|] == hs;
  }

  lemma ChosenAllSnoc(cfg: Config, hs: seq<Header>, h: Header, kinds: set<Outcome>)
    ensures ChosenAll(cfg, hs + [h], kinds)
         == ChosenAll(cfg, hs, kinds) + (if OutcomeAfter(cfg, hs, h) in kinds then [h] else [])
  {
    assert (hs + [h])[..|hs|] == hs;
  }

  /** The headers of one channel, in order. */
  function Select(hs: seq<Header>, name: string): seq<Header> {
    if hs == [] then []
    else Select(hs[..|hs| - 1], name) + (if hs[|hs| - 1].name == name then [hs[|hs| - 1]] else [])
  }

  lemma SelectSnoc(hs: seq<Header>, h: Header, name: string)
    ensures Select(hs + [h], name) == Select(hs, name) + (if h.name == name then [h] else [])
  {
    assert (hs + [h])[..|hs|] == hs;
  }

  lemma {:induction false} RingsIndependent(cfg: Config, hs: seq<Header>, name: string)
    ensures Lookup(RunAll(cfg, hs), name) == Run(cfg, Select(hs, name))
    decreases |hs|
  {
    if hs == [] {
    } else {
      var before, h := hs[..|hs| - 1], hs[|hs| - 1];
      assert hs == before + [h];
      RingsIndependent(cfg, before, name);
      RunAllSnoc(cfg, before, h);
      SelectSnoc(before, h, name);
      if h.name == name {
        RunSnoc(cfg, Select(before, name), h);
      } else {
        assert Select(before, name) + [] == Select(before, name);
      }
    }
  }

  /**
   * Channel independence: after any interleaving, the ring of a channel and the headers of it chosen by any set
   * of outcomes are those of running the detector on that channel's headers alone.
   */
  lemma {:induction false} ChannelsIndependent(cfg: Config, hs: seq<Header>, name: string, kinds: set<Outcome>)
    ensures Lookup(RunAll(cfg, hs), name) == Run(cfg, Select(hs, name))
    ensures Select(ChosenAll(cfg, hs, kinds), name) == Chosen(cfg, Select(hs, name), kinds)
    decreases |hs|
  {
    RingsIndependent(cfg, hs, name);
    if hs == [] {
    } else {
      var before, h := hs[..|hs| - 1], hs[|hs| - 1];
      assert hs == before + [h];
      ChannelsIndependent(cfg, before, name, kinds);
      ChoiceStep(cfg, before, h, name, kinds);
    }
  }

  lemma ChoiceStep(cfg: Config, hs: seq<Header>, h: Header, name: string, kinds: set<Outcome>)
    requires Lookup(RunAll(cfg, hs), name) == Run(cfg, Select(hs, name))
    requires Select(ChosenAll(cfg, hs, kinds), name) == Chosen(cfg, Select(hs, name), kinds)
    ensures Select(ChosenAll(cfg, hs + [h], kinds), name) == Chosen(cfg, Select(hs + [h], name), kinds)
  {
    var chosen, mine := ChosenAll(cfg, hs, kinds), Select(hs, name);
    ChosenAllSnoc(cfg, hs, h, kinds);
    SelectSnoc(hs, h, name);
    SelectSnoc(chosen, h, name);
    ChosenSnoc(cfg, mine, h, kinds);
    assert chosen + [] == chosen && mine + [] == mine;
    assert Select(chosen, name) + [] == Select(chosen, name);
  }

  lemma {:induction false} SelectMembers(hs: seq<Header>, name: string)
    ensures forall x :: x in Select(hs, name) <==> x in hs && x.name == name
    decreases |hs|
  {
    if hs == [] {
    } else {
      SelectMembers(hs[..|hs| - 1], name);
      assert hs == hs[..|hs| - 1] + [hs[|hs| - 1]];
    }
  }

  /** Two positions holding headers of one channel stay in order under selection. */
  lemma {:induction false} SelectKeepsPair(hs: seq<Header>, i: nat, j: nat) returns (a: nat, b: nat)
    requires i < j < |hs| && hs[i].name == hs[j].name
    ensures var s := Select(hs, hs[i].name);
      a < b < |s| && s[a] == hs[i] && s[b] == hs[j]
    decreases |hs|
  {
    var before := hs[..|hs| - 1];
    var name := hs[i].name;
    if j < |before| {
      a, b := SelectKeepsPair(before, i, j);
    } else {
      SelectMembers(before, name);
      assert before[i] in before;
      a :| 0 <= a < |Select(before, name)| && Select(before, name)[a] == hs[i];
      b := |Select(before, name)|;
    }
  }

  /** No header strictly contains another of its channel. */
  ghost predicate NonContaining(hs: seq<Header>) {
    forall x, y :: x in hs && y in hs && x.name == y.name ==> !StrictlyContains(x, y)
  }

  ghost predicate Tame(hs: seq<Header>) {
    Forward(hs) && NonContaining(hs)
  }

  /** Every ring of every channel is well kept, whatever headers that run forward are offered. */
  lemma AllRingsWellKept(cfg: Config, hs: seq<Header>, name: string)
    requires Forward(hs)
    ensures name in RunAll(cfg, hs) <==> exists x :: x in hs && x.name == name
    ensures name in RunAll(cfg, hs) ==> WellKept(RunAll(cfg, hs)[name], name)
  {
    SelectMembers(hs, name);
    ChannelsIndependent(cfg, hs, name, {});
    var mine := Select(hs, name);
    RunKeeps(cfg, mine, name);
    if mine != [] {
      assert mine[0] in mine;
    }
  }

  /** In no channel did a recorded header strictly contain a stored one when it was offered. */
  ghost predicate NoChannelEngulfs(cfg: Config, hs: seq<Header>) {
    forall name :: NeverEngulfs(cfg, Select(hs, name))
  }

  lemma NonContainingSuffices(cfg: Config, hs: seq<Header>)
    requires Tame(hs)
    ensures NoChannelEngulfs(cfg, hs)
  {
    forall name
      ensures NeverEngulfs(cfg, Select(hs, name))
    {
      SelectMembers(hs, name);
      NoContainmentSuffices(cfg, Select(hs, name), name);
    }
  }

  /** Members of one channel at different positions are apart. */
  ghost predicate ApartPerChannel(hs: seq<Header>) {
    forall i, j :: 0 <= i < j < |hs| && hs[i].name == hs[j].name ==> Apart(hs[i], hs[j])
  }

  /** Looking at each channel alone loses nothing. */
  lemma ApartByChannel(hs: seq<Header>)
    requires forall name :: PairwiseApart(Select(hs, name))
    ensures ApartPerChannel(hs)
  {
    forall i, j | 0 <= i < j < |hs| && hs[i].name == hs[j].name
      ensures Apart(hs[i], hs[j])
    {
      var a, b := SelectKeepsPair(hs, i, j);
      assert PairwiseApart(Select(hs, hs[i].name));
    }
  }

  lemma {:induction false} SelectSubsequence(hs: seq<Header>, name: string)
    ensures Sequences.Subsequence(Select(hs, name), hs)
    decreases |hs|
  {
    if hs == [] {
    } else {
      var before, h := hs[..|hs| - 1], hs[|hs| - 1];
      SelectSubsequence(before, name);
      assert hs == before + [h];
      if h.name == name {
        Sequences.SubsequenceAppend(Select(before, name), before, [h]);
      } else {
        Sequences.SubsequenceExtend(Select(before, name), before, h);
        assert Select(before, name) + [] == Select(before, name);
      }
    }
  }

  lemma ChannelByApart(hs: seq<Header>, name: string)
    requires ApartPerChannel(hs)
    ensures PairwiseApart(Select(hs, name))
  {
    var mine := Select(hs, name);
    SelectSubsequence(hs, name);
    SelectMembers(hs, name);
    forall i, j | 0 <= i < j < |mine|
      ensures Apart(mine[i], mine[j])
    {
      var a, b := Sequences.SubsequencePair(mine, hs, i, j);
      assert mine[i] in mine && mine[j] in mine;
    }
  }

  /**
   * Over all channels and interleavings: the recorded packets of each channel are pairwise disjoint exactly when
   * none strictly contained a stored one when it was offered.
   */
  lemma RecordedDisjointExactly(cfg: Config, hs: seq<Header>)
    requires Forward(hs)
    ensures ApartPerChannel(ChosenAll(cfg, hs, RECORDED)) <==> NoChannelEngulfs(cfg, hs)
  {
    var recorded := ChosenAll(cfg, hs, RECORDED);
    forall name
      ensures PairwiseApart(Select(recorded, name)) <==> NeverEngulfs(cfg, Select(hs, name))
    {
      SelectMembers(hs, name);
      ChannelsIndependent(cfg, hs, name, RECORDED);
      DisjointExactly(cfg, Select(hs, name), name);
    }
    if ApartPerChannel(recorded) {
      forall name
        ensures NeverEngulfs(cfg, Select(hs, name))
      {
        ChannelByApart(recorded, name);
      }
    } else {
      if NoChannelEngulfs(cfg, hs) {
        ApartByChannel(recorded);
      }
    }
  }

  /** Then no two admitted packets of one channel overlap either. */
  lemma AdmittedDisjointPerChannel(cfg: Config, hs: seq<Header>)
    requires Forward(hs) && NoChannelEngulfs(cfg, hs)
    ensures ApartPerChannel(ChosenAll(cfg, hs, ADMITTED))
  {
    forall name
      ensures PairwiseApart(Select(ChosenAll(cfg, hs, ADMITTED), name))
    {
      SelectMembers(hs, name);
      ChannelsIndependent(cfg, hs, name, ADMITTED);
      AdmittedDisjoint(cfg, Select(hs, name), name);
    }
    ApartByChannel(ChosenAll(cfg, hs, ADMITTED));
  }

  /** Rates are uniform within each channel and below the limit. */
  ghost predicate Classified(hs: seq<Header>) {
    && (forall x :: x in hs ==> x.samplingRate < RATE_LIMIT)
    && (forall x, y :: x in hs && y in hs && x.name == y.name ==> x.samplingRate == y.samplingRate)
  }

  /** On classified headers no check throws, so nothing is let through unrecorded. */
  lemma ClassifiedNeverRaises(cfg: Config, hs: seq<Header>, h: Header)
    requires Forward(hs + [h]) && Classified(hs + [h])
    ensures OutcomeAfter(cfg, hs, h) != Raised
  {
    SelectMembers(hs, h.name);
    ChannelsIndependent(cfg, hs, h.name, ADMITTED);
    var mine := Select(hs, h.name);
    assert h in hs + [h];
    assert forall x :: x in mine ==> x in hs + [h];
    if mine != [] {
      RunKeeps(cfg, mine, h.name);
      RingWasRecorded(cfg, mine, h.name);
      ChosenWereOffered(cfg, mine, RECORDED);
      var ch := Run(cfg, mine).value;
      assert ch.ring[0] in ch.ring;
      RaisedExactly(cfg, ch, h);
    }
  }

  lemma {:induction false} ClassifiedRaisesNone(cfg: Config, hs: seq<Header>)
    requires Forward(hs) && Classified(hs)
    ensures ChosenAll(cfg, hs, {Raised}) == []
    decreases |hs|
  {
    if hs == [] {
    } else {
      var before, h := hs[..|hs| - 1], hs[|hs| - 1];
      assert hs == before + [h];
      assert forall x :: x in before ==> x in hs;
      ClassifiedRaisesNone(cfg, before);
      ClassifiedNeverRaises(cfg, before, h);
    }
  }

  /** Without exceptions, what is let through is what is admitted. */
  lemma {:induction false} NoRaiseInChoice(cfg: Config, hs: seq<Header>)
    requires ChosenAll(cfg, hs, {Raised}) == []
    ensures ChosenAll(cfg, hs, ADMITTED + {Raised}) == ChosenAll(cfg, hs, ADMITTED)
    decreases |hs|
  {
    if hs == [] {
    } else {
      var before, h := hs[..|hs| - 1], hs[|hs| - 1];
      assert hs == before + [h];
      ChosenAllSnoc(cfg, before, h, {Raised});
      NoRaiseInChoice(cfg, before);
    }
  }
}
