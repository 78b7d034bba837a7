/** The testers for packets that end in the future or start too long ago. */
module WindowTesters {
  import ChannelName
  import opened FlagLog
  import Headers
  import Packets
  import Rounding
  import opened Wrappers

  /** The channel key, when the codes it needs are set. */
  function NameOf(p: Packets.Packet): Option<string> {
    if p.codes.network == "" || p.codes.station == "" || p.codes.channel == "" then None
    else Some(ChannelName.ToName(p.codes))
  }

  /** The end time can be asked for without an exception. */
  predicate HasEndTime(p: Packets.Packet) {
    p.samplingRate > 0.0 && Packets.Size(p) >= 1
  }

  /** A packet is named exactly when the codes of the key are set, and a dot-free name splits into its codes. */
  lemma NamedExactly(p: Packets.Packet)
    ensures NameOf(p).Some? <==> p.codes.network != "" && p.codes.station != "" && p.codes.channel != ""
    ensures NameOf(p).Some? && ChannelName.DotFree(p.codes) ==>
              ChannelName.Split(NameOf(p).value) == ChannelName.Parts(p.codes)
  {
    ChannelName.SplitRecoversIffDotFree(p.codes);
  }

  /** The three testers speak of a packet by the same name. */
  lemma NamesAgree(p: Packets.Packet)
    requires Headers.FromPacket(p).Success?
    ensures NameOf(p) == Some(Headers.FromPacket(p).value.name) && HasEndTime(p)
  {
  }

  /** The end time can be asked for exactly when the rate is set and some sample vector is not empty. */
  lemma EndTimeExactly(p: Packets.Packet)
    requires Packets.WellFormed(p)
    ensures HasEndTime(p) <==> p.samplingRate != 0.0 && p.samples != Packets.NO_SAMPLES
  {
    Packets.SizeOfSamples(p);
  }

  class TestFutureDataPacket {
    const mMaxFutureTime: int
    const log: ChannelLog

    ghost predicate Valid() {
      log.Valid() && log.kind == FutureData
    }

    constructor (maxFutureTime: int, logBadDataInterval: int)
      ensures Valid() && fresh(log) && log.View() == EMPTY_LOG
      ensures mMaxFutureTime == maxFutureTime && log.mLogBadDataInterval == logBadDataInterval
    {
      mMaxFutureTime := maxFutureTime;
      log := new ChannelLog(FutureData, logBadDataInterval);
    }

    /** Fails, leaving the log alone, when the packet has no end time. */
    method Allow(p: Packets.Packet, now: int) returns (r: Result<bool>)
      requires Valid()
      modifies log
      ensures r.Success? <==> HasEndTime(p)
      ensures r.Success? ==> (r.value <==> p.endTime <= now + mMaxFutureTime)
      ensures r.Failure? ==> log.View() == old(log.View())
      ensures r.Success? ==>
        log.View() == Record(log.mLogBadDataInterval, old(log.View()),
                             if r.value || NameOf(p).None? then None else Some(Flag(FutureData, NameOf(p).value)),
                             Rounding.TruncatingDivide(now, MICROSECONDS))
    {
      if !HasEndTime(p) { return Failure("No end time"); }
      var latestTime := now + mMaxFutureTime;
      var allow := p.endTime <= latestTime;
      log.LogBadData(if allow then None else NameOf(p), now);
      r := Success(allow);
    }
  }

  class TestExpiredDataPacket {
    const mMaxExpiredTime: int
    const log: ChannelLog

    ghost predicate Valid() {
      log.Valid() && log.kind == ExpiredData && mMaxExpiredTime > 0
    }

    /** The source refuses a maximum that is not positive. */
    constructor (maxExpiredTime: int, logBadDataInterval: int)
      requires maxExpiredTime > 0
      ensures Valid() && fresh(log) && log.View() == EMPTY_LOG
      ensures mMaxExpiredTime == maxExpiredTime && log.mLogBadDataInterval == logBadDataInterval
    {
      mMaxExpiredTime := maxExpiredTime;
      log := new ChannelLog(ExpiredData, logBadDataInterval);
    }

    method Allow(p: Packets.Packet, now: int) returns (allow: bool)
      requires Valid()
      modifies log
      ensures allow <==> p.startTime >= now - mMaxExpiredTime
      ensures log.View() == Record(log.mLogBadDataInterval, old(log.View()),
                                   if allow || NameOf(p).None? then None else Some(Flag(ExpiredData, NameOf(p).value)),
                                   Rounding.TruncatingDivide(now, MICROSECONDS))
    {
      var earliestTime := now - mMaxExpiredTime;
      allow := p.startTime >= earliestTime;
      log.LogBadData(if allow then None else NameOf(p), now);
    }
  }
}
