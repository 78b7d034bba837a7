/** The JSON object a packet is written to and read from; the CBOR bytes around it are not modelled. */
module PacketJson {
  import ChannelName
  import opened Packets
  import Rounding
  import opened Wrappers

  datatype Number = Whole(i: int) | Fraction(x: real)

  datatype Json = JText(text: string) | JNumber(number: Number) | JNumbers(numbers: seq<Number>)

  /** The member names in use. */
  datatype Member =
    | MessageType | MessageVersion | NetworkCode | StationName | ChannelCode | Location
    | StartTime | SamplingRate | EndTime | TypeName | SampleData

  type JsonObject = map<Member, Json>

  const MESSAGE_TYPE := "US8::MessageFormats::Broadcasts::DataPacket"
  const MESSAGE_VERSION := "1.0.0"

  function AsReal(n: Number): real {
    match n
    case Whole(i) => i as real
    case Fraction(x) => x
  }

  function AsReals(ns: seq<Number>): (rs: seq<real>)
    ensures |rs| == |ns|
  {
    seq(|ns|, i requires 0 <= i < |ns| => AsReal(ns[i]))
  }

  function Wholes(xs: seq<int>): seq<Number> {
    seq(|xs|, i requires 0 <= i < |xs| => Whole(xs[i]))
  }

  function Fractions(xs: seq<real>): seq<Number> {
    seq(|xs|, i requires 0 <= i < |xs| => Fraction(xs[i]))
  }

  /** The samples as they are written. */
  function SampleNumbers(p: Packet): seq<Number> {
    match p.samples.dataType
    case Integer32 => Wholes(p.samples.integer32)
    case Integer64 => Wholes(p.samples.integer64)
    case Float => Fractions(p.samples.floats)
    case Double => Fractions(p.samples.doubles)
    case Unknown => []
  }

  function DataTypeName(t: DataType): string {
    match t
    case Integer32 => "integer32"
    case Integer64 => "integer64"
    case Float => "float"
    case Double => "double"
    case Unknown => ""
  }

  /** Writes a packet; every getter of an unset required field throws. */
  function ToJson(p: Packet): Result<JsonObject> {
    if p.codes.network == "" then Failure("Network not set yet")
    else if p.codes.station == "" then Failure("Station not set yet")
    else if p.codes.channel == "" then Failure("Channel not set yet")
    else if p.codes.locationCode == "" then Failure("Location code not set yet")
    else if p.samplingRate <= 0.0 then Failure("Sampling rate not set")
    else
      var header := map[
        MessageType := JText(MESSAGE_TYPE),
        MessageVersion := JText(MESSAGE_VERSION),
        NetworkCode := JText(p.codes.network),
        StationName := JText(p.codes.station),
        ChannelCode := JText(p.codes.channel),
        Location := JText(p.codes.locationCode),
        StartTime := JNumber(Whole(p.startTime)),
        SamplingRate := JNumber(Fraction(p.samplingRate))];
      if Size(p) == 0 then Success(header)
      else Success(header[EndTime := JNumber(Whole(p.endTime))]
                         [TypeName := JText(DataTypeName(p.samples.dataType))]
                         [SampleData := JNumbers(SampleNumbers(p))])
  }

  predicate HasText(obj: JsonObject, key: Member) {
    key in obj && obj[key].JText?
  }

  /** The members that reading looks at are present with the types it asks for; TypeName and EndTime are not read. */
  predicate Readable(obj: JsonObject) {
    && HasText(obj, NetworkCode) && HasText(obj, StationName) && HasText(obj, ChannelCode) && HasText(obj, Location)
    && SamplingRate in obj && obj[SamplingRate].JNumber?
    && StartTime in obj && obj[StartTime].JNumber?
    && SampleData in obj && obj[SampleData].JNumbers?
  }

  /** One setter call of a read: an exception of an earlier call or of this one ends the read. */
  function Attempt(r: Result<Packet>, op: Operation): Result<Packet> {
    match r
    case Failure(_) => r
    case Success(p) => if Refused(op) then Failure("Refused by a setter") else Success(Apply(p, op))
  }

  /** The setter calls of a read, on a fresh packet. */
  function Rebuild(network: string, station: string, channel: string, location: string,
                   rate: real, start: int, samples: seq<real>): Result<Packet> {
    var codes := Attempt(Attempt(Attempt(Attempt(Success(EMPTY_PACKET),
      Operation.SetNetwork(network)), Operation.SetStation(station)),
      Operation.SetChannel(channel)), Operation.SetLocationCode(location));
    var timed := Attempt(Attempt(codes, Operation.SetSamplingRate(rate)), Operation.SetStartTime(start));
    Attempt(timed, Operation.SetDoubles(samples))
  }

  /** Reads a packet: samples always become doubles, whatever the type name says. */
  function FromJson(obj: JsonObject): Result<Packet> {
    if MessageType !in obj || obj[MessageType] != JText(MESSAGE_TYPE) then
      Failure("Message has invalid message type")
    else if !Readable(obj) then Failure("Missing or mistyped member")
    else Rebuild(obj[NetworkCode].text, obj[StationName].text, obj[ChannelCode].text, obj[Location].text,
                 AsReal(obj[SamplingRate].number), Rounding.Truncate(AsReal(obj[StartTime].number)),
                 AsReals(obj[SampleData].numbers))
  }

  /** All required fields are set. */
  predicate Complete(p: Packet) {
    && p.codes.network != "" && p.codes.station != "" && p.codes.channel != "" && p.codes.locationCode != ""
    && p.samplingRate > 0.0
  }

  /** The same packet with its samples held as doubles. */
  function AsDoublePacket(p: Packet): Packet {
    p.(samples := Samples.Samples([], [], [], AsReals(SampleNumbers(p)), Double))
  }

  lemma SerialisesIffComplete(p: Packet)
    requires WellFormed(p)
    ensures ToJson(p).Success? <==> Complete(p)
  {
  }

  /** Replaying the setters on stored codes rebuilds the packet, because stored codes are normalised. */
  lemma RebuildStored(p: Packet)
    requires WellFormed(p) && Complete(p) && Size(p) > 0
    ensures Rebuild(p.codes.network, p.codes.station, p.codes.channel, p.codes.locationCode,
                    p.samplingRate, p.startTime, AsReals(SampleNumbers(p))) == Success(AsDoublePacket(p))
    ensures WellFormed(AsDoublePacket(p)) && Size(AsDoublePacket(p)) == Size(p)
  {
    var samples := AsReals(SampleNumbers(p));
    assert |samples| == Size(p);
    var codes := EMPTY_PACKET.(codes := p.codes);
    var timed := codes.(samplingRate := p.samplingRate, startTime := p.startTime, endTime := p.startTime);
    assert Attempt(Attempt(Success(codes), Operation.SetSamplingRate(p.samplingRate)),
                   Operation.SetStartTime(p.startTime)) == Success(timed);
    assert Attempt(Success(timed), Operation.SetDoubles(samples)) == Success(AsDoublePacket(p));
  }

  /** What a read finds in the object of a complete packet. */
  lemma WrittenMembers(p: Packet)
    requires Complete(p) && Size(p) > 0
    ensures ToJson(p).Success?
    ensures var obj := ToJson(p).value;
      && Readable(obj)
      && MessageType in obj && obj[MessageType] == JText(MESSAGE_TYPE)
      && obj[NetworkCode].text == p.codes.network && obj[StationName].text == p.codes.station
      && obj[ChannelCode].text == p.codes.channel && obj[Location].text == p.codes.locationCode
      && AsReal(obj[SamplingRate].number) == p.samplingRate
      && Rounding.Truncate(AsReal(obj[StartTime].number)) == p.startTime
      && obj[SampleData].numbers == SampleNumbers(p)
  {
    assert Rounding.Truncate(p.startTime as real) == p.startTime;
  }

  /**
   * Writing and reading a complete packet with samples keeps the codes, both times and the rate, and
   * turns the samples into doubles.
   */
  lemma RoundTrip(p: Packet)
    requires WellFormed(p) && Complete(p) && Size(p) > 0
    ensures ToJson(p).Success?
    ensures FromJson(ToJson(p).value) == Success(AsDoublePacket(p))
    ensures WellFormed(AsDoublePacket(p)) && Size(AsDoublePacket(p)) == Size(p)
  {
    WrittenMembers(p);
    var obj := ToJson(p).value;
    assert FromJson(obj) == Rebuild(p.codes.network, p.codes.station, p.codes.channel, p.codes.locationCode,
                                    p.samplingRate, p.startTime, AsReals(SampleNumbers(p)));
    RebuildStored(p);
  }

  /** Position by position the doubles of `q` are the numbers that `p` holds, whatever their type. */
  ghost predicate SameNumbers(p: Packet, q: Packet) {
    var s, r := p.samples, q.samples.doubles;
    match s.dataType
    case Integer32 => |r| == |s.integer32| && forall i :: 0 <= i < |r| ==> r[i] == s.integer32[i] as real
    case Integer64 => |r| == |s.integer64| && forall i :: 0 <= i < |r| ==> r[i] == s.integer64[i] as real
    case Float => r == s.floats
    case Double => r == s.doubles
    case Unknown => r == []
  }

  /** Sample by sample, a receiver reads the number that the sender held. */
  lemma SamplesSurvive(p: Packet)
    requires WellFormed(p) && Complete(p) && Size(p) > 0
    ensures ToJson(p).Success? && FromJson(ToJson(p).value).Success?
    ensures var q := FromJson(ToJson(p).value).value;
      SameNumbers(p, q) && |q.samples.doubles| == Size(p) && q.samples.dataType == Double
  {
    RoundTrip(p);
    NumbersRead(p);
  }

  lemma NumbersRead(p: Packet)
    requires WellFormed(p) && Size(p) > 0
    ensures SameNumbers(p, AsDoublePacket(p)) && |AsDoublePacket(p).samples.doubles| == Size(p)
  {
    assert AsReals(Fractions(p.samples.floats)) == p.samples.floats;
    assert AsReals(Fractions(p.samples.doubles)) == p.samples.doubles;
  }

  /** So do the codes, both times and the rate. */
  lemma FieldsSurvive(p: Packet)
    requires WellFormed(p) && Complete(p) && Size(p) > 0
    ensures ToJson(p).Success? && FromJson(ToJson(p).value).Success?
    ensures var q := FromJson(ToJson(p).value).value;
      q.codes == p.codes && q.startTime == p.startTime && q.endTime == p.endTime && q.samplingRate == p.samplingRate
  {
    RoundTrip(p);
  }

  /** The members that are written for readers other than this one. */
  lemma WrittenForOthers(p: Packet)
    requires Complete(p)
    ensures var obj := ToJson(p).value;
      && (Size(p) == 0 ==> EndTime !in obj && TypeName !in obj && SampleData !in obj)
      && (Size(p) > 0 ==> EndTime in obj && obj[EndTime] == JNumber(Whole(p.endTime)))
      && (Size(p) > 0 ==> TypeName in obj && obj[TypeName].JText?)
      && (Size(p) > 0 ==>
            (obj[TypeName].text == "integer32" <==> p.samples.dataType == Integer32) &&
            (obj[TypeName].text == "integer64" <==> p.samples.dataType == Integer64) &&
            (obj[TypeName].text == "float" <==> p.samples.dataType == Float) &&
            (obj[TypeName].text == "double" <==> p.samples.dataType == Double))
  {
    assert "integer32"[7] != "integer64"[7];
  }

  /** Reading back succeeds exactly for packets that have samples: without them Samples is never written. */
  lemma ReadsBackIffSampled(p: Packet)
    requires WellFormed(p) && Complete(p)
    ensures FromJson(ToJson(p).value).Success? <==> Size(p) > 0
  {
    if Size(p) > 0 {
      RoundTrip(p);
    } else {
      assert SampleData !in ToJson(p).value;
      assert !Readable(ToJson(p).value);
    }
  }

  /** Double packets come back unchanged, so a second pass changes nothing for any packet. */
  lemma SecondPassIdentity(p: Packet)
    requires WellFormed(p) && Complete(p) && Size(p) > 0
    ensures p.samples.dataType == Double ==> FromJson(ToJson(p).value) == Success(p)
    ensures var q := AsDoublePacket(p);
            Complete(q) && FromJson(ToJson(q).value) == Success(q)
  {
    RoundTrip(p);
    var q := AsDoublePacket(p);
    RoundTrip(q);
    assert forall xs: seq<real> :: AsReals(Fractions(xs)) == xs;
    assert AsDoublePacket(q) == q;
    if p.samples.dataType == Double {
      assert AsDoublePacket(p) == p;
    }
  }

  /** The seven members that are read, and what they say. */
  datatype Reading = Reading(codes: ChannelName.Codes, rate: Number, start: Number, samples: seq<Number>)

  ghost predicate Says(obj: JsonObject, r: Reading) {
    && MessageType in obj && obj[MessageType] == JText("US8::MessageFormats::Broadcasts::DataPacket")
    && NetworkCode in obj && obj[NetworkCode] == JText(r.codes.network)
    && StationName in obj && obj[StationName] == JText(r.codes.station)
    && ChannelCode in obj && obj[ChannelCode] == JText(r.codes.channel)
    && Location in obj && obj[Location] == JText(r.codes.locationCode)
    && SamplingRate in obj && obj[SamplingRate] == JNumber(r.rate)
    && StartTime in obj && obj[StartTime] == JNumber(r.start)
    && SampleData in obj && obj[SampleData] == JNumbers(r.samples)
  }

  /**
   * What an object is read as, whatever else is in it: the read succeeds exactly when no code is blank and the rate is
   * positive; the packet then has the codes converted, the numbers as they are, and the start time as a whole number.
   */
  lemma ReadYields(obj: JsonObject, r: Reading)
    requires Says(obj, r)
    ensures FromJson(obj).Success? <==>
            && !IsEmpty(r.codes.network) && !IsEmpty(r.codes.station) && !IsEmpty(r.codes.channel)
            && !IsEmpty(r.codes.locationCode) && AsReal(r.rate) > 0.0
    ensures FromJson(obj).Success? ==>
              var p := FromJson(obj).value;
              && p.codes == ChannelName.Codes(ConvertString(r.codes.network), ConvertString(r.codes.station),
                                              ConvertString(r.codes.channel), ConvertString(r.codes.locationCode))
              && p.samplingRate == AsReal(r.rate) && p.startTime == Rounding.Truncate(AsReal(r.start))
              && p.samples.doubles == AsReals(r.samples)
  {
    CodesRead(r.codes.network, r.codes.station, r.codes.channel, r.codes.locationCode);
  }

  /** And nothing else can be read. */
  lemma OnlySuchAreRead(obj: JsonObject)
    requires FromJson(obj).Success?
    ensures exists r :: Says(obj, r)
  {
    var codes := ChannelName.Codes(obj[NetworkCode].text, obj[StationName].text,
                                   obj[ChannelCode].text, obj[Location].text);
    assert Says(obj, Reading(codes, obj[SamplingRate].number, obj[StartTime].number, obj[SampleData].numbers));
  }

  lemma CodesRead(network: string, station: string, channel: string, location: string)
    ensures var codes := Attempt(Attempt(Attempt(Attempt(Success(EMPTY_PACKET),
              Operation.SetNetwork(network)), Operation.SetStation(station)),
              Operation.SetChannel(channel)), Operation.SetLocationCode(location));
      && (codes.Success? <==> !IsEmpty(network) && !IsEmpty(station) && !IsEmpty(channel) && !IsEmpty(location))
      && (codes.Success? ==> codes.value == EMPTY_PACKET.(codes := ChannelName.Codes(
            ConvertString(network), ConvertString(station), ConvertString(channel), ConvertString(location))))
  {
    var a := Attempt(Success(EMPTY_PACKET), Operation.SetNetwork(network));
    var b := Attempt(a, Operation.SetStation(station));
    var c := Attempt(b, Operation.SetChannel(channel));
    AttemptExactly(Success(EMPTY_PACKET), Operation.SetNetwork(network));
    AttemptExactly(a, Operation.SetStation(station));
    AttemptExactly(b, Operation.SetChannel(channel));
    AttemptExactly(c, Operation.SetLocationCode(location));
  }

  /** A code that is set, if nothing threw before and it is not blank. */
  lemma AttemptExactly(r: Result<Packet>, op: Operation)
    requires op.SetNetwork? || op.SetStation? || op.SetChannel? || op.SetLocationCode?
    ensures Attempt(r, op).Success? <==> r.Success? && !IsEmpty(op.code)
    ensures Attempt(r, op).Success? ==>
              var c, code := r.value.codes, ConvertString(op.code);
              Attempt(r, op).value == r.value.(codes :=
                if op.SetNetwork? then c.(network := code) else if op.SetStation? then c.(station := code)
                else if op.SetChannel? then c.(channel := code) else c.(locationCode := code))
  {
  }

  lemma AttemptKeeps(r: Result<Packet>, op: Operation)
    requires r.Success? ==> WellFormed(r.value)
    ensures Attempt(r, op).Success? ==> WellFormed(Attempt(r, op).value)
  {
    if r.Success? {
      ApplyKeepsWellFormed(r.value, op);
    }
  }

  /** Whatever object is read, a packet that comes out satisfies the class invariant. */
  lemma ReadPacketsWellFormed(obj: JsonObject)
    requires FromJson(obj).Success?
    ensures WellFormed(FromJson(obj).value)
  {
    var a := Attempt(Success(EMPTY_PACKET), Operation.SetNetwork(obj[NetworkCode].text));
    AttemptKeeps(Success(EMPTY_PACKET), Operation.SetNetwork(obj[NetworkCode].text));
    var b := Attempt(a, Operation.SetStation(obj[StationName].text));
    AttemptKeeps(a, Operation.SetStation(obj[StationName].text));
    var c := Attempt(b, Operation.SetChannel(obj[ChannelCode].text));
    AttemptKeeps(b, Operation.SetChannel(obj[ChannelCode].text));
    var d := Attempt(c, Operation.SetLocationCode(obj[Location].text));
    AttemptKeeps(c, Operation.SetLocationCode(obj[Location].text));
    var rate := Operation.SetSamplingRate(AsReal(obj[SamplingRate].number));
    AttemptKeeps(d, rate);
    var start := Operation.SetStartTime(Rounding.Truncate(AsReal(obj[StartTime].number)));
    AttemptKeeps(Attempt(d, rate), start);
    AttemptKeeps(Attempt(Attempt(d, rate), start), Operation.SetDoubles(AsReals(obj[SampleData].numbers)));
  }
}
