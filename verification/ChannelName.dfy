/** The channel key NETWORK.STATION.CHANNEL[.LOCATION] and how to take it apart again. */
module ChannelName {

  datatype Codes = Codes(network: string, station: string, channel: string, locationCode: string)

  function ToName(c: Codes): string {
    var name := c.network + "." + c.station + "." + c.channel;
    if c.locationCode == "" then name else name + "." + c.locationCode
  }

  /** The codes that appear in the name. */
  function Parts(c: Codes): seq<string> {
    if c.locationCode == "" then [c.network, c.station, c.channel]
    else [c.network, c.station, c.channel, c.locationCode]
  }

  /** The pieces of a string between its dots. */
  function Split(s: string): (pieces: seq<string>)
    ensures |pieces| >= 1
  {
    if s == "" then [""]
    else
      var rest := Split(s[1..]);
      if s[0] == '.' then [""] + rest else [[s[0]] + rest[0]] + rest[1..]
  }

  function Dots(s: string): nat {
    if s == "" then 0 else (if s[0] == '.' then 1 else 0) + Dots(s[1..])
  }

  lemma {:induction false} SplitCount(s: string)
    ensures |Split(s)| == Dots(s) + 1
  {
    if s == "" {
    } else {
      SplitCount(s[1..]);
    }
  }

  lemma {:induction false} DotsConcat(s: string, t: string)
    ensures Dots(s + t) == Dots(s) + Dots(t)
  {
    if s == "" {
      assert s + t == t;
    } else {
      DotsConcat(s[1..], t);
      assert (s + t)[1..] == s[1..] + t;
    }
  }

  lemma {:induction false} SplitPlain(s: string)
    requires Dots(s) == 0
    ensures Split(s) == [s]
  {
    if s == "" {
    } else {
      SplitPlain(s[1..]);
      assert [s[0]] + s[1..] == s;
    }
  }

  /** A dot-free piece followed by a dot splits off whole. */
  lemma {:induction false} SplitFirst(s: string, t: string)
    requires Dots(s) == 0
    ensures Split(s + "." + t) == [s] + Split(t)
  {
    if s == "" {
      assert (s + "." + t)[1..] == t;
    } else {
      SplitFirst(s[1..], t);
      assert (s + "." + t)[1..] == s[1..] + "." + t;
      assert [s[0]] + s[1..] == s;
      assert ([s[1..]] + Split(t))[1..] == Split(t);
    }
  }

  predicate DotFree(c: Codes) {
    Dots(c.network) == Dots(c.station) == Dots(c.channel) == Dots(c.locationCode) == 0
  }

  lemma DotsJoin(s: string, t: string)
    ensures Dots(s + "." + t) == Dots(s) + 1 + Dots(t)
  {
    DotsConcat(s + ".", t);
    DotsConcat(s, ".");
  }

  lemma DotsOfName(c: Codes)
    ensures Dots(ToName(c))
         == |Parts(c)| - 1 + Dots(c.network) + Dots(c.station) + Dots(c.channel) + Dots(c.locationCode)
  {
    var three := c.network + "." + c.station + "." + c.channel;
    DotsJoin(c.network, c.station);
    DotsJoin(c.network + "." + c.station, c.channel);
    if c.locationCode != "" {
      DotsJoin(three, c.locationCode);
    }
  }

  /** Splitting a name recovers the codes exactly when none of them contains a dot. */
  lemma SplitRecoversIffDotFree(c: Codes)
    ensures Split(ToName(c)) == Parts(c) <==> DotFree(c)
  {
    if DotFree(c) {
      var tail := if c.locationCode == "" then c.channel else c.channel + "." + c.locationCode;
      assert ToName(c) == c.network + "." + (c.station + "." + tail);
      SplitFirst(c.network, c.station + "." + tail);
      SplitFirst(c.station, tail);
      if c.locationCode == "" {
        SplitPlain(c.channel);
      } else {
        SplitFirst(c.channel, c.locationCode);
        SplitPlain(c.locationCode);
      }
    } else {
      SplitCount(ToName(c));
      DotsOfName(c);
    }
  }

  /** On dot-free codes the key determines the channel. */
  lemma NameInjective(a: Codes, b: Codes)
    requires DotFree(a) && DotFree(b)
    requires ToName(a) == ToName(b)
    ensures a == b
  {
    SplitRecoversIffDotFree(a);
    SplitRecoversIffDotFree(b);
    var pieces := Parts(a);
    assert Parts(b) == pieces;
    assert |pieces| == 3 <==> a.locationCode == "";
    assert |pieces| == 3 <==> b.locationCode == "";
    assert pieces[0] == a.network == b.network;
    assert pieces[1] == a.station == b.station;
    assert pieces[2] == a.channel == b.channel;
  }

  /** With a dot inside a code two different channels can share a key. */
  lemma DotsCollide()
    ensures var a, b := Codes("A", "B.C", "D", ""), Codes("A.B", "C", "D", "");
            a != b && ToName(a) == ToName(b)
  {
    assert "A" + "." + "B.C" + "." + "D" == "A.B" + "." + "C" + "." + "D";
  }
}
