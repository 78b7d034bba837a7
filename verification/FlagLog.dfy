/** The accounting of flagged channels that all three testers share: collect names, report them at intervals. */
module FlagLog {
  import Rounding
  import opened Wrappers

  datatype Kind = FutureData | ExpiredData | DuplicateData | BadTiming

  datatype Flag = Flag(kind: Kind, name: string)

  datatype Report = Report(time: int, flags: set<Flag>)

  /** Times in seconds; `reports` is the history of everything written to the log. */
  datatype Log = Log(pending: set<Flag>, lastLogTime: int, reports: seq<Report>)

  const EMPTY_LOG := Log({}, 0, [])

  const MICROSECONDS := 1000000

  function Gather(log: Log, flag: Option<Flag>): Log {
    log.(pending := log.pending + (if flag.Some? then {flag.value} else {}))
  }

  function Flush(interval: int, log: Log, now: int): Log {
    if now >= log.lastLogTime + interval && log.pending != {} then
      Log({}, now, log.reports + [Report(now, log.pending)])
    else log
  }

  /** One call of `logBadData`; a negative interval switches logging off. */
  function Record(interval: int, log: Log, flag: Option<Flag>, now: int): Log {
    if interval < 0 then log else Flush(interval, Gather(log, flag), now)
  }

  datatype Call = Call(flag: Option<Flag>, now: int)

  function RunLog(interval: int, calls: seq<Call>): Log {
    if calls == [] then EMPTY_LOG
    else Record(interval, RunLog(interval, calls[..|calls| - 1]), calls[|calls| - 1].flag, calls[|calls| - 1].now)
  }

  /** The flags gathered between two reports: those of report `j`, or the pending ones after the last report. */
  function Batch(log: Log, j: nat): set<Flag>
    requires j <= |log.reports|
  {
    if j < |log.reports| then log.reports[j].flags else log.pending
  }

  /** The number of reports made before call `k`. */
  function ReportsBefore(interval: int, calls: seq<Call>, k: nat): nat
    requires k <= |calls|
  {
    |RunLog(interval, calls[..k]).reports|
  }

  ghost predicate FlaggedInBatch(interval: int, calls: seq<Call>, f: Flag, j: nat) {
    exists k :: 0 <= k < |calls| && calls[k].flag == Some(f) && ReportsBefore(interval, calls, k) == j
  }

  lemma FlaggedPrefix(interval: int, calls: seq<Call>, f: Flag, j: nat)
    requires calls != []
    ensures var before, last := calls[..|calls| - 1], calls[|calls| - 1];
      FlaggedInBatch(interval, calls, f, j) <==>
        || FlaggedInBatch(interval, before, f, j)
        || (last.flag == Some(f) && |RunLog(interval, before).reports| == j)
  {
    var before := calls[..|calls| - 1];
    if FlaggedInBatch(interval, calls, f, j) {
      var k :| 0 <= k < |calls| && calls[k].flag == Some(f) && ReportsBefore(interval, calls, k) == j;
      if k < |before| {
        assert before[..k] == calls[..k];
        assert before[k] == calls[k] && ReportsBefore(interval, before, k) == j;
      }
    }
    if FlaggedInBatch(interval, before, f, j) {
      var k :| 0 <= k < |before| && before[k].flag == Some(f) && ReportsBefore(interval, before, k) == j;
      assert before[..k] == calls[..k];
      assert calls[k] == before[k] && ReportsBefore(interval, calls, k) == j;
    }
    if calls[|calls| - 1].flag == Some(f) && |RunLog(interval, before).reports| == j {
      assert ReportsBefore(interval, calls, |calls| - 1) == j;
    }
  }

  /**
   * Exact accounting over every run: a flag is in a report, or pending, exactly when a call raised it after the
   * previous report. So every flagged channel is pending or in a report made since, and nothing else is reported.
   */
  lemma {:induction false} FlagsAccounted(interval: int, calls: seq<Call>, f: Flag, j: nat)
    requires interval >= 0
    requires j <= |RunLog(interval, calls).reports|
    ensures f in Batch(RunLog(interval, calls), j) <==> FlaggedInBatch(interval, calls, f, j)
    decreases |calls|
  {
    if calls == [] {
    } else {
      var before := RunLog(interval, calls[..|calls| - 1]);
      FlaggedPrefix(interval, calls, f, j);
      if j <= |before.reports| {
        FlagsAccounted(interval, calls[..|calls| - 1], f, j);
      } else {
        NothingFlaggedLater(interval, calls[..|calls| - 1], f, j);
      }
    }
  }

  lemma {:induction false} ReportsGrow(interval: int, calls: seq<Call>, k: nat)
    requires k <= |calls|
    ensures ReportsBefore(interval, calls, k) <= |RunLog(interval, calls).reports|
    decreases |calls|
  {
    if k < |calls| {
      ReportsGrow(interval, calls[..|calls| - 1], k);
      assert calls[..|calls| - 1][..k] == calls[..k];
    } else {
      assert calls[..k] == calls;
    }
  }

  lemma NothingFlaggedLater(interval: int, calls: seq<Call>, f: Flag, j: nat)
    requires j > |RunLog(interval, calls).reports|
    ensures !FlaggedInBatch(interval, calls, f, j)
  {
    forall k | 0 <= k < |calls|
      ensures ReportsBefore(interval, calls, k) < j
    {
      ReportsGrow(interval, calls, k);
    }
  }

  /** Report times are at least the interval apart, counting from time 0, whatever the clock does. */
  lemma {:induction false} ReportsSpaced(interval: int, calls: seq<Call>)
    requires interval >= 0
    ensures var log := RunLog(interval, calls);
      && log.lastLogTime == (if log.reports == [] then 0 else log.reports[|log.reports| - 1].time)
      && (log.reports != [] ==> log.reports[0].time >= interval)
      && (forall i :: 0 < i < |log.reports| ==> log.reports[i].time >= log.reports[i - 1].time + interval)
    decreases |calls|
  {
    if calls == [] {
    } else {
      ReportsSpaced(interval, calls[..|calls| - 1]);
    }
  }

  /** The time of the last report; the clock starts at 0. */
  function LastReport(reports: seq<Report>): int {
    if reports == [] then 0 else reports[|reports| - 1].time
  }

  /**
   * When a report is made: the interval has passed since the last one and something was flagged since, this call
   * included. Then it carries this call's time and nothing stays behind.
   */
  lemma ReportedExactly(interval: int, calls: seq<Call>)
    requires interval >= 0 && calls != []
    ensures var call, before, after :=
              calls[|calls| - 1], RunLog(interval, calls[..|calls| - 1]), RunLog(interval, calls);
            var due := call.now - LastReport(before.reports) >= interval;
      && (due && (before.pending != {} || call.flag != None) <==> after.reports != before.reports)
      && (after.reports != before.reports ==>
            |after.reports| == |before.reports| + 1 && before.reports <= after.reports
            && LastReport(after.reports) == call.now)
      && (due ==> after.pending == {})
      && (!due ==> before.pending <= after.pending)
  {
    var call, before := calls[|calls| - 1], RunLog(interval, calls[..|calls| - 1]);
    ReportsSpaced(interval, calls[..|calls| - 1]);
    if call.flag.Some? {
      assert call.flag.value in Gather(before, call.flag).pending;
    }
  }

  /** A negative interval switches all of it off. */
  lemma {:induction false} SilentWhenOff(interval: int, calls: seq<Call>)
    requires interval < 0
    ensures RunLog(interval, calls) == EMPTY_LOG
    decreases |calls|
  {
    if calls == [] {
    } else {
      SilentWhenOff(interval, calls[..|calls| - 1]);
    }
  }

  /** The clock of the log counts whole seconds of microseconds. */
  lemma WholeSeconds(nowMicroSeconds: int)
    requires nowMicroSeconds >= 0
    ensures var s := Rounding.TruncatingDivide(nowMicroSeconds, MICROSECONDS);
      1000000 * s <= nowMicroSeconds < 1000000 * (s + 1)
  {
    Rounding.TruncatingDivideExactly(nowMicroSeconds, MICROSECONDS);
  }

  /** The log of a tester that raises flags of one kind. */
  class ChannelLog {
    const kind: Kind
    const mLogBadDataInterval: int
    const mLogBadData: bool
    var mChannels: set<string>
    var mLastLogTime: int
    ghost var reports: seq<Report>

    ghost predicate Valid() {
      mLogBadData <==> mLogBadDataInterval >= 0
    }

    constructor (kind: Kind, logBadDataInterval: int)
      ensures Valid() && View() == EMPTY_LOG
      ensures this.kind == kind && mLogBadDataInterval == logBadDataInterval
    {
      this.kind := kind;
      mLogBadDataInterval := logBadDataInterval;
      mLogBadData := logBadDataInterval >= 0;
      mChannels := {};
      mLastLogTime := 0;
      reports := [];
    }

    ghost function View(): Log
      reads this
    {
      Log(set n | n in mChannels :: Flag(kind, n), mLastLogTime, reports)
    }

    /** `name` is present when the packet was refused and its channel key could be built. */
    method LogBadData(name: Option<string>, nowMicroSeconds: int)
      requires Valid()
      modifies this
      ensures View() == Record(mLogBadDataInterval, old(View()),
                               if name.Some? then Some(Flag(kind, name.value)) else None,
                               Rounding.TruncatingDivide(nowMicroSeconds, MICROSECONDS))
    {
      if !mLogBadData { return; }
      var nowSeconds := Rounding.TruncatingDivide(nowMicroSeconds, MICROSECONDS);
      ghost var gathered := Gather(View(), if name.Some? then Some(Flag(kind, name.value)) else None);
      if name.Some? && name.value !in mChannels {
        mChannels := mChannels + {name.value};
      }
      assert View() == gathered;
      if nowSeconds >= mLastLogTime + mLogBadDataInterval {
        if mChannels != {} {
          assert View().pending != {} by {
            var n :| n in mChannels;
            assert Flag(kind, n) in View().pending;
          }
          reports := reports + [Report(nowSeconds, View().pending)];
          mChannels := {};
          mLastLogTime := nowSeconds;
        }
      }
    }
  }
}
