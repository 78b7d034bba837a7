/**
 * The data packet: four optional codes, a start time, a sampling rate and one of four sample
 * vectors. Times are microseconds since the epoch.
 */
module Packets {
  import ChannelName
  import Rounding

  /* ---------- Code normalisation ---------- */

  /** `std::isspace` in the C locale. */
  predicate IsSpace(c: char) {
    c == ' ' || '\t' <= c <= '\r'
  }

  /** `::toupper` in the C locale. */
  function ToUpper(c: char): char {
    if 'a' <= c <= 'z' then c - 'a' + 'A' else c
  }

  /** True for the empty string and for strings of white space only. */
  predicate IsEmpty(s: string) {
    forall i :: 0 <= i < |s| ==> IsSpace(s[i])
  }

  /** Removes every blank (but no other white space) and converts to upper case. */
  function ConvertString(s: string): string {
    if s == "" then ""
    else if s[0] == ' ' then ConvertString(s[1..])
    else [ToUpper(s[0])] + ConvertString(s[1..])
  }

  /** What a stored code looks like: untouched by another conversion, and never one a setter refuses. */
  ghost predicate Normalised(s: string) {
    ConvertString(s) == s && (s == "" || !IsEmpty(s))
  }

  lemma {:induction false} ConvertIdempotent(s: string)
    ensures ConvertString(ConvertString(s)) == ConvertString(s)
  {
    if s == "" {
    } else {
      ConvertIdempotent(s[1..]);
      if s[0] != ' ' {
        assert ConvertString(s)[1..] == ConvertString(s[1..]);
      }
    }
  }

  /** A converted code is refused by a setter exactly when the original is. */
  lemma {:induction false} ConvertEmpty(s: string)
    ensures IsEmpty(ConvertString(s)) <==> IsEmpty(s)
  {
    if s == "" {
    } else {
      var t := ConvertString(s[1..]);
      ConvertEmpty(s[1..]);
      assert IsEmpty(s) <==> IsSpace(s[0]) && IsEmpty(s[1..]) by {
        assert forall i :: 0 <= i < |s[1..]| ==> s[1..][i] == s[i + 1];
        assert forall i :: 0 < i < |s| ==> s[i] == s[1..][i - 1];
      }
      if s[0] != ' ' {
        var u := [ToUpper(s[0])] + t;
        assert forall i :: 0 <= i < |t| ==> t[i] == u[i + 1];
        assert IsEmpty(u) <==> IsSpace(u[0]) && IsEmpty(t);
      }
    }
  }

  /** What is refused: nothing but blanks, tabs, line feeds, vertical tabs, form feeds and carriage returns. */
  lemma IsEmptyExactly(s: string)
    ensures IsEmpty(s) <==> forall c :: c in s ==> c as int == 32 || c as int in {9, 10, 11, 12, 13}
  {
    assert forall c: char :: IsSpace(c) <==> c as int == 32 || c as int in {9, 10, 11, 12, 13};
    if IsEmpty(s) {
      forall c | c in s
        ensures IsSpace(c)
      {
        var i :| 0 <= i < |s| && s[i] == c;
      }
    } else {
      var i :| 0 <= i < |s| && !IsSpace(s[i]);
      assert s[i] in s;
    }
  }

  /** A blank anywhere makes no difference. */
  lemma {:induction false} ConvertDropsBlanks(s: string, t: string)
    ensures ConvertString(s + " " + t) == ConvertString(s + t)
  {
    if s == "" {
      assert s + " " + t == [' '] + t && s + t == t;
    } else {
      ConvertDropsBlanks(s[1..], t);
      assert (s + " " + t)[1..] == s[1..] + " " + t && (s + t)[1..] == s[1..] + t;
    }
  }

  /** Everything else stays in place, with small letters made capital. */
  lemma {:induction false} ConvertCapitalises(s: string, i: nat)
    requires ' ' !in s && i < |s|
    ensures |ConvertString(s)| == |s|
    ensures ConvertString(s)[i] as int == s[i] as int - (if 97 <= s[i] as int <= 122 then 32 else 0)
  {
    assert s[0] in s && forall c :: c in s[1..] ==> c in s;
    if |s| > 1 {
      ConvertCapitalises(s[1..], if i == 0 then 0 else i - 1);
    }
  }

  /** Every code a setter accepts is stored normalised and non-empty. */
  lemma ConvertNormalises(s: string)
    requires !IsEmpty(s)
    ensures Normalised(ConvertString(s)) && ConvertString(s) != ""
  {
    ConvertIdempotent(s);
    ConvertEmpty(s);
  }

  /* ---------- Packet values ---------- */

  datatype DataType = Integer32 | Integer64 | Float | Double | Unknown

  /** The four sample vectors and the tag that says which one is in use. */
  datatype Samples = Samples(integer32: seq<int>, integer64: seq<int>, floats: seq<real>, doubles: seq<real>,
                             dataType: DataType)

  /** The fields of one packet; a rate of 0 means not set. */
  datatype Packet = Packet(codes: ChannelName.Codes, samples: Samples, startTime: int, endTime: int, samplingRate: real)

  const NO_SAMPLES := Samples([], [], [], [], Unknown)
  const EMPTY_PACKET := Packet(ChannelName.Codes("", "", "", ""), NO_SAMPLES, 0, 0, 0.0)

  /** The number of samples in the vector that the type tag names. */
  function SampleCount(s: Samples): nat {
    match s.dataType
    case Unknown => 0
    case Integer32 => |s.integer32|
    case Float => |s.floats|
    case Double => |s.doubles|
    case Integer64 => |s.integer64|
  }

  function Size(p: Packet): nat {
    SampleCount(p.samples)
  }

  /** Of a well-formed packet the size is the length of whichever sample vector is in use. */
  lemma SizeOfSamples(p: Packet)
    requires TagMatches(p.samples)
    ensures Size(p) == |p.samples.integer32| + |p.samples.integer64| + |p.samples.floats| + |p.samples.doubles|
    ensures Size(p) == 0 <==> p.samples == NO_SAMPLES
  {
  }

  /** Microseconds from the first to the last of `n` samples. */
  function TraceDuration(n: int, samplingRate: real): int
    requires samplingRate > 0.0
  {
    Rounding.Round((n - 1) as real / samplingRate * 1000000.0)
  }

  function EndTimeOf(startTime: int, n: nat, samplingRate: real): int {
    if n > 0 && samplingRate > 0.0 then startTime + TraceDuration(n, samplingRate) else startTime
  }

  /** The public mutators; `SetStartSeconds` is the overload taking seconds as a double. */
  datatype Operation =
    | SetNetwork(code: string)
    | SetStation(code: string)
    | SetChannel(code: string)
    | SetLocationCode(code: string)
    | SetSamplingRate(rate: real)
    | SetStartTime(time: int)
    | SetStartSeconds(seconds: real)
    | SetInteger32(ints: seq<int>)
    | SetInteger64(ints: seq<int>)
    | SetFloats(reals: seq<real>)
    | SetDoubles(reals: seq<real>)
    | Clear

  /** The operation throws `std::invalid_argument`. */
  predicate Refused(op: Operation) {
    match op
    case SetNetwork(s) => IsEmpty(s)
    case SetStation(s) => IsEmpty(s)
    case SetChannel(s) => IsEmpty(s)
    case SetLocationCode(s) => IsEmpty(s)
    case SetSamplingRate(r) => r <= 0.0
    case _ => false
  }

  function Timed(p: Packet): Packet {
    p.(endTime := EndTimeOf(p.startTime, Size(p), p.samplingRate))
  }

  /** The effect of one mutator; one that throws changes nothing, and empty sample vectors are ignored. */
  function Apply(p: Packet, op: Operation): Packet {
    if Refused(op) then p
    else match op
      case SetNetwork(s) => p.(codes := p.codes.(network := ConvertString(s)))
      case SetStation(s) => p.(codes := p.codes.(station := ConvertString(s)))
      case SetChannel(s) => p.(codes := p.codes.(channel := ConvertString(s)))
      case SetLocationCode(s) => p.(codes := p.codes.(locationCode := ConvertString(s)))
      case SetSamplingRate(r) => Timed(p.(samplingRate := r))
      case SetStartTime(t) => Timed(p.(startTime := t))
      case SetStartSeconds(s) => Timed(p.(startTime := Rounding.Round(s * 1000000.0)))
      case SetInteger32(xs) => Timed(if xs == [] then p else p.(samples := Samples(xs, [], [], [], Integer32)))
      case SetInteger64(xs) => Timed(if xs == [] then p else p.(samples := Samples([], xs, [], [], Integer64)))
      case SetFloats(xs) => Timed(if xs == [] then p else p.(samples := Samples([], [], xs, [], Float)))
      case SetDoubles(xs) => Timed(if xs == [] then p else p.(samples := Samples([], [], [], xs, Double)))
      case Clear => EMPTY_PACKET
  }

  function ApplyAll(p: Packet, ops: seq<Operation>): Packet
    decreases |ops|
  {
    if ops == [] then p else ApplyAll(Apply(p, ops[0]), ops[1..])
  }

  /** The tag names the only non-empty sample vector; it is `Unknown` just when all four are empty. */
  ghost predicate TagMatches(s: Samples) {
    && (s.integer32 != [] <==> s.dataType == Integer32)
    && (s.integer64 != [] <==> s.dataType == Integer64)
    && (s.floats != [] <==> s.dataType == Float)
    && (s.doubles != [] <==> s.dataType == Double)
  }

  /** The end time is the time of the last sample, to the nearest microsecond. */
  ghost predicate EndTimeInStep(p: Packet) {
    if Size(p) > 0 && p.samplingRate > 0.0 then
      -0.5 <= (p.endTime - p.startTime) as real - (Size(p) - 1) as real / p.samplingRate * 1000000.0 <= 0.5
    else p.endTime == p.startTime
  }

  ghost predicate CodesNormalised(c: ChannelName.Codes) {
    Normalised(c.network) && Normalised(c.station) && Normalised(c.channel) && Normalised(c.locationCode)
  }

  ghost predicate WellFormed(p: Packet) {
    && TagMatches(p.samples)
    && p.endTime == EndTimeOf(p.startTime, Size(p), p.samplingRate)
    && p.samplingRate >= 0.0
    && CodesNormalised(p.codes)
  }

  lemma ApplyKeepsWellFormed(p: Packet, op: Operation)
    requires WellFormed(p)
    ensures WellFormed(Apply(p, op))
  {
    if !Refused(op) {
      match op {
        case SetNetwork(s) => ConvertNormalises(s);
        case SetStation(s) => ConvertNormalises(s);
        case SetChannel(s) => ConvertNormalises(s);
        case SetLocationCode(s) => ConvertNormalises(s);
        case _ =>
      }
    }
  }

  lemma NonNegativeProduct(n: int, rate: real)
    requires n >= 0 && rate > 0.0
    ensures n as real / rate * 1000000.0 >= 0.0
  {
    assert n as real / rate >= 0.0;
  }

  /** What well-formedness says about time: the last sample, to half a microsecond, never before the first. */
  lemma WellFormedTimes(p: Packet)
    requires WellFormed(p)
    ensures EndTimeInStep(p)
    ensures p.startTime <= p.endTime
  {
    if Size(p) > 0 && p.samplingRate > 0.0 {
      var d := (Size(p) - 1) as real / p.samplingRate * 1000000.0;
      Rounding.RoundIsNearest(d);
      NonNegativeProduct(Size(p) - 1, p.samplingRate);
      Rounding.RoundAtLeast(d, 0);
    }
  }

  /** The class invariant over every sequence of mutator calls on a fresh packet. */
  lemma {:induction false} EveryHistoryWellFormed(p: Packet, ops: seq<Operation>)
    requires WellFormed(p)
    ensures WellFormed(ApplyAll(p, ops))
    ensures TagMatches(ApplyAll(p, ops).samples) && EndTimeInStep(ApplyAll(p, ops))
    ensures ApplyAll(p, ops).startTime <= ApplyAll(p, ops).endTime
    decreases |ops|
  {
    if ops == [] {
      WellFormedTimes(p);
    } else {
      ApplyKeepsWellFormed(p, ops[0]);
      EveryHistoryWellFormed(Apply(p, ops[0]), ops[1..]);
    }
  }

  /** What a mutator sets; the end time is always in step and counts as no part of its own. */
  datatype Part = InNetwork | InStation | InChannel | InLocation | InRate | InStart | InSamples

  /** The parts that a mutator overwrites; one that is refused, or is given no samples, overwrites nothing. */
  function Overwrites(op: Operation): set<Part> {
    match op
    case SetNetwork(s) => if IsEmpty(s) then {} else {InNetwork}
    case SetStation(s) => if IsEmpty(s) then {} else {InStation}
    case SetChannel(s) => if IsEmpty(s) then {} else {InChannel}
    case SetLocationCode(s) => if IsEmpty(s) then {} else {InLocation}
    case SetSamplingRate(r) => if r <= 0.0 then {} else {InRate}
    case SetStartTime(_) => {InStart}
    case SetStartSeconds(_) => {InStart}
    case SetInteger32(xs) => if xs == [] then {} else {InSamples}
    case SetInteger64(xs) => if xs == [] then {} else {InSamples}
    case SetFloats(xs) => if xs == [] then {} else {InSamples}
    case SetDoubles(xs) => if xs == [] then {} else {InSamples}
    case Clear => {InNetwork, InStation, InChannel, InLocation, InRate, InStart, InSamples}
  }

  predicate SamePart(p: Packet, q: Packet, part: Part) {
    match part
    case InNetwork => p.codes.network == q.codes.network
    case InStation => p.codes.station == q.codes.station
    case InChannel => p.codes.channel == q.codes.channel
    case InLocation => p.codes.locationCode == q.codes.locationCode
    case InRate => p.samplingRate == q.samplingRate
    case InStart => p.startTime == q.startTime
    case InSamples => p.samples == q.samples
  }

  /** What an accepted mutator leaves in the part it overwrites. */
  predicate Stored(op: Operation, q: Packet) {
    match op
    case SetNetwork(s) => q.codes.network == ConvertString(s)
    case SetStation(s) => q.codes.station == ConvertString(s)
    case SetChannel(s) => q.codes.channel == ConvertString(s)
    case SetLocationCode(s) => q.codes.locationCode == ConvertString(s)
    case SetSamplingRate(r) => q.samplingRate == r
    case SetStartTime(t) => q.startTime == t
    case SetStartSeconds(s) => -0.5 <= q.startTime as real - 1000000.0 * s <= 0.5
    case SetInteger32(xs) => q.samples.integer32 == xs
    case SetInteger64(xs) => q.samples.integer64 == xs
    case SetFloats(xs) => q.samples.floats == xs
    case SetDoubles(xs) => q.samples.doubles == xs
    case Clear => q == Packet(ChannelName.Codes("", "", "", ""), NO_SAMPLES, 0, 0, 0.0)
  }

  lemma ApplyStores(p: Packet, op: Operation)
    ensures Overwrites(op) != {} ==> Stored(op, Apply(p, op))
    ensures forall part :: part !in Overwrites(op) ==> SamePart(p, Apply(p, op), part)
  {
    if op.SetStartSeconds? {
      Rounding.RoundIsNearest(op.seconds * 1000000.0);
    }
  }

  lemma {:induction false} UntouchedKept(p: Packet, ops: seq<Operation>, part: Part)
    requires forall op :: op in ops ==> part !in Overwrites(op)
    ensures SamePart(p, ApplyAll(p, ops), part)
    decreases |ops|
  {
    if ops == [] {
    } else {
      assert ops[0] in ops && forall op :: op in ops[1..] ==> op in ops;
      ApplyStores(p, ops[0]);
      UntouchedKept(Apply(p, ops[0]), ops[1..], part);
    }
  }

  lemma {:induction false} ApplyAllConcat(p: Packet, a: seq<Operation>, b: seq<Operation>)
    ensures ApplyAll(p, a + b) == ApplyAll(ApplyAll(p, a), b)
    decreases |a|
  {
    if a == [] {
      assert a + b == b;
    } else {
      assert (a + b)[1..] == a[1..] + b;
      ApplyAllConcat(Apply(p, a[0]), a[1..], b);
    }
  }

  /** The last write wins: in every history a getter returns what the last accepted mutator of its part was given. */
  lemma LastWriteWins(p: Packet, before: seq<Operation>, op: Operation, after: seq<Operation>, part: Part)
    requires Overwrites(op) == {part} && forall later :: later in after ==> part !in Overwrites(later)
    ensures Stored(op, ApplyAll(p, before + [op] + after))
  {
    var q := ApplyAll(p, before);
    ApplyAllConcat(p, before + [op], after);
    ApplyAllConcat(p, before, [op]);
    assert ApplyAll(q, [op]) == Apply(q, op);
    ApplyStores(q, op);
    UntouchedKept(Apply(q, op), after, part);
  }

  /** Setting an empty vector of any type leaves a well-formed packet untouched: the old samples stay. */
  lemma EmptySamplesIgnored(p: Packet)
    requires WellFormed(p)
    ensures Apply(p, SetInteger32([])) == Apply(p, SetInteger64([])) == p
    ensures Apply(p, SetFloats([])) == Apply(p, SetDoubles([])) == p
  {
  }

  /* ---------- The mutable class ---------- */

  class DataPacket {
    var mNetwork: string
    var mStation: string
    var mChannel: string
    var mLocationCode: string
    var mInteger32Data: seq<int>
    var mInteger64Data: seq<int>
    var mFloatData: seq<real>
    var mDoubleData: seq<real>
    var mStartTimeMicroSeconds: int
    var mEndTimeMicroSeconds: int
    var mSamplingRate: real
    var mDataType: DataType

    function View(): Packet
      reads this
    {
      Packet(ChannelName.Codes(mNetwork, mStation, mChannel, mLocationCode),
             Samples(mInteger32Data, mInteger64Data, mFloatData, mDoubleData, mDataType),
             mStartTimeMicroSeconds, mEndTimeMicroSeconds, mSamplingRate)
    }

    ghost predicate Valid()
      reads this
    {
      WellFormed(View())
    }

    constructor ()
      ensures Valid() && View() == EMPTY_PACKET
    {
      mNetwork, mStation, mChannel, mLocationCode := "", "", "", "";
      mInteger32Data, mInteger64Data, mFloatData, mDoubleData := [], [], [], [];
      mStartTimeMicroSeconds, mEndTimeMicroSeconds := 0, 0;
      mSamplingRate := 0.0;
      mDataType := Unknown;
    }

    method ClearData()
      modifies this
      ensures View() == old(View()).(samples := NO_SAMPLES)
    {
      mInteger32Data := [];
      mInteger64Data := [];
      mFloatData := [];
      mDoubleData := [];
      mDataType := Unknown;
    }

    method UpdateEndTime()
      modifies this
      ensures View() == Timed(old(View()))
    {
      mEndTimeMicroSeconds := mStartTimeMicroSeconds;
      var nSamples := Size(View());
      if nSamples > 0 && mSamplingRate > 0.0 {
        var traceDuration := Rounding.Round((nSamples - 1) as real / mSamplingRate * 1000000.0);
        mEndTimeMicroSeconds := mStartTimeMicroSeconds + traceDuration;
      }
    }

    method SetNetwork(network: string) returns (ok: bool)
      requires Valid()
      modifies this
      ensures Valid() && View() == Apply(old(View()), Operation.SetNetwork(network))
      ensures ok <==> !IsEmpty(network)
    {
      if IsEmpty(network) { return false; }
      mNetwork := ConvertString(network);
      ok := true;
      ApplyKeepsWellFormed(old(View()), Operation.SetNetwork(network));
    }

    method SetStation(station: string) returns (ok: bool)
      requires Valid()
      modifies this
      ensures Valid() && View() == Apply(old(View()), Operation.SetStation(station))
      ensures ok <==> !IsEmpty(station)
    {
      if IsEmpty(station) { return false; }
      mStation := ConvertString(station);
      ok := true;
      ApplyKeepsWellFormed(old(View()), Operation.SetStation(station));
    }

    method SetChannel(channel: string) returns (ok: bool)
      requires Valid()
      modifies this
      ensures Valid() && View() == Apply(old(View()), Operation.SetChannel(channel))
      ensures ok <==> !IsEmpty(channel)
    {
      if IsEmpty(channel) { return false; }
      mChannel := ConvertString(channel);
      ok := true;
      ApplyKeepsWellFormed(old(View()), Operation.SetChannel(channel));
    }

    method SetLocationCode(location: string) returns (ok: bool)
      requires Valid()
      modifies this
      ensures Valid() && View() == Apply(old(View()), Operation.SetLocationCode(location))
      ensures ok <==> !IsEmpty(location)
    {
      if IsEmpty(location) { return false; }
      mLocationCode := ConvertString(location);
      ok := true;
      ApplyKeepsWellFormed(old(View()), Operation.SetLocationCode(location));
    }

    method SetSamplingRate(samplingRate: real) returns (ok: bool)
      requires Valid()
      modifies this
      ensures Valid() && View() == Apply(old(View()), Operation.SetSamplingRate(samplingRate))
      ensures ok <==> samplingRate > 0.0
    {
      if samplingRate <= 0.0 { return false; }
      mSamplingRate := samplingRate;
      UpdateEndTime();
      ok := true;
      ApplyKeepsWellFormed(old(View()), Operation.SetSamplingRate(samplingRate));
    }

    method SetStartTime(startTime: int)
      requires Valid()
      modifies this
      ensures Valid() && View() == Apply(old(View()), Operation.SetStartTime(startTime))
    {
      mStartTimeMicroSeconds := startTime;
      UpdateEndTime();
      ApplyKeepsWellFormed(old(View()), Operation.SetStartTime(startTime));
    }

    method SetStartSeconds(startTime: real)
      requires Valid()
      modifies this
      ensures Valid() && View() == Apply(old(View()), Operation.SetStartSeconds(startTime))
    {
      SetStartTime(Rounding.Round(startTime * 1000000.0));
      ApplyKeepsWellFormed(old(View()), Operation.SetStartSeconds(startTime));
    }

    method SetInteger32(data: seq<int>)
      requires Valid()
      modifies this
      ensures Valid() && View() == Apply(old(View()), Operation.SetInteger32(data))
    {
      if data != [] {
        ClearData();
        mInteger32Data := data;
        mDataType := Integer32;
      }
      UpdateEndTime();
      ApplyKeepsWellFormed(old(View()), Operation.SetInteger32(data));
    }

    method SetInteger64(data: seq<int>)
      requires Valid()
      modifies this
      ensures Valid() && View() == Apply(old(View()), Operation.SetInteger64(data))
    {
      if data != [] {
        ClearData();
        mInteger64Data := data;
        mDataType := Integer64;
      }
      UpdateEndTime();
      ApplyKeepsWellFormed(old(View()), Operation.SetInteger64(data));
    }

    method SetFloats(data: seq<real>)
      requires Valid()
      modifies this
      ensures Valid() && View() == Apply(old(View()), Operation.SetFloats(data))
    {
      if data != [] {
        ClearData();
        mFloatData := data;
        mDataType := Float;
      }
      UpdateEndTime();
      ApplyKeepsWellFormed(old(View()), Operation.SetFloats(data));
    }

    method SetDoubles(data: seq<real>)
      requires Valid()
      modifies this
      ensures Valid() && View() == Apply(old(View()), Operation.SetDoubles(data))
    {
      if data != [] {
        ClearData();
        mDoubleData := data;
        mDataType := Double;
      }
      UpdateEndTime();
      ApplyKeepsWellFormed(old(View()), Operation.SetDoubles(data));
    }

    method Clear()
      modifies this
      ensures Valid() && View() == Apply(old(View()), Operation.Clear)
    {
      ClearData();
      mNetwork, mStation, mChannel, mLocationCode := "", "", "", "";
      mStartTimeMicroSeconds, mEndTimeMicroSeconds := 0, 0;
      mSamplingRate := 0.0;
    }
  }
}
