/** Starting and stopping the authentication service: a calling thread and the service thread. */
module ZapService {

  /** Where the calling thread is in `start` or `stop`. */
  datatype MainAt = Idle | CheckStarted | SendTerminate | ClearStarted | ClearRunning | Joining | SetRunning | Spawn

  /** Where the service thread is; `Finished` threads wait to be joined. */
  datatype ThreadAt =
    | NoThread | Connect | SetStarted | SendReady | CheckRunning | Polling
    | HandleRunning | HandleStarted | Close | Finished

  /** `pending` counts the TERMINATE messages in the pipe; they belong to one connection and go with it. */
  datatype State = State(main: MainAt, restarting: bool, thread: ThreadAt,
                         apiStarted: bool, keepRunning: bool, connected: bool, pending: nat)

  const CONSTRUCTED := State(Idle, false, NoThread, false, true, false, 0)

  /** `zap` says whether an authentication request is waiting when the thread polls. */
  datatype Event = CallStart | CallStop | Main | Thread(zap: bool)

  predicate MainBlocked(s: State) {
    || s.main == Idle
    || (s.main == SendTerminate && !s.connected)
    || (s.main == Joining && s.thread != NoThread && s.thread != Finished)
  }

  predicate ThreadBlocked(s: State, zap: bool) {
    || s.thread == NoThread || s.thread == Finished
    || (s.thread == Polling && s.pending == 0 && !zap)
  }

  function MainStep(s: State): State
    requires !MainBlocked(s)
  {
    match s.main
    case CheckStarted => s.(main := if s.apiStarted then SendTerminate else ClearRunning)
    case SendTerminate => s.(main := ClearStarted, pending := s.pending + 1)
    case ClearStarted => s.(main := ClearRunning, apiStarted := false)
    case ClearRunning => s.(main := Joining, keepRunning := false)
    case Joining => s.(main := if s.restarting then SetRunning else Idle, thread := NoThread)
    case SetRunning => s.(main := Spawn, keepRunning := true)
    case Spawn => s.(main := Idle, thread := Connect)
  }

  /** The poll looks at the pipe before the authentication socket. */
  function ThreadStep(s: State, zap: bool): State
    requires !ThreadBlocked(s, zap)
  {
    match s.thread
    case Connect => s.(thread := SetStarted, connected := true, pending := 0)
    case SetStarted => s.(thread := SendReady, apiStarted := true)
    case SendReady => s.(thread := CheckRunning)
    case CheckRunning => s.(thread := if s.keepRunning then Polling else Close)
    case Polling =>
      if s.pending > 0 then s.(thread := HandleRunning, pending := s.pending - 1) else s.(thread := CheckRunning)
    case HandleRunning => s.(thread := HandleStarted, keepRunning := false)
    case HandleStarted => s.(thread := CheckRunning, apiStarted := false)
    case Close => s.(thread := Finished, connected := false, pending := 0)
  }

  function Step(s: State, e: Event): State {
    match e
    case CallStart => if s.main == Idle then s.(main := CheckStarted, restarting := true) else s
    case CallStop => if s.main == Idle then s.(main := CheckStarted, restarting := false) else s
    case Main => if MainBlocked(s) then s else MainStep(s)
    case Thread(zap) => if ThreadBlocked(s, zap) then s else ThreadStep(s, zap)
  }

  function After(s: State, events: seq<Event>): State
    decreases |events|
  {
    if events == [] then s else After(Step(s, events[0]), events[1..])
  }

  /** The thread, if any, has set `mAPIStarted`. */
  predicate Ready(s: State) {
    s.thread != Connect && s.thread != SetStarted
  }

  /** Every call, and so every stop, is made when the thread is ready. */
  ghost predicate CallsWhenReady(s: State, events: seq<Event>)
    decreases |events|
  {
    events == [] ||
    ((events[0].CallStart? || events[0].CallStop? ==> Ready(s)) &&
     CallsWhenReady(Step(s, events[0]), events[1..]))
  }

  /** The caller joins a thread that sleeps in a poll nothing will end. */
  predicate Hung(s: State) {
    s.main == Joining && s.thread == Polling && s.pending == 0
  }

  /** The caller sends TERMINATE on a pipe that has no peer and will get none. */
  predicate NoPeer(s: State) {
    s.main == SendTerminate && !s.connected && s.thread in {NoThread, Finished}
  }

  /** A call that only an authentication request, or nothing at all, can end. */
  predicate Stuck(s: State) {
    Hung(s) || NoPeer(s)
  }

  /* ---------- Calls made when ready ---------- */

  /** No thread, nothing left over from the last one. */
  predicate Gone(s: State) {
    s.thread == NoThread && !s.apiStarted && !s.connected && s.pending == 0
  }

  /** The thread is starting up or serving, and nobody has asked it to stop. */
  predicate Serving(s: State) {
    && s.thread in {Connect, SetStarted, SendReady, CheckRunning, Polling}
    && s.keepRunning && s.pending == 0
    && (s.apiStarted <==> Ready(s)) && (s.connected <==> s.thread != Connect)
  }

  /** TERMINATE was sent: it is still pending, or the thread is on its way out. */
  predicate Terminating(s: State) {
    match s.thread
    case SendReady => s.pending == 1
    case CheckRunning => s.pending == 1 || (s.pending == 0 && !s.keepRunning)
    case Polling => s.pending == 1
    case HandleRunning => s.pending == 0
    case HandleStarted => s.pending == 0 && !s.keepRunning
    case Close => s.pending <= 1 && !s.keepRunning
    case Finished => s.pending == 0 && !s.connected && !s.keepRunning
    case _ => false
  }

  ghost predicate Lifecycle(s: State) {
    match s.main
    case Idle => Gone(s) || Serving(s)
    case CheckStarted => Gone(s) || (Serving(s) && Ready(s))
    case SendTerminate => Serving(s) && Ready(s)
    case ClearStarted => Terminating(s)
    case ClearRunning => !s.apiStarted && (Gone(s) || Terminating(s))
    case Joining => !s.apiStarted && !s.keepRunning && (Gone(s) || Terminating(s))
    case SetRunning => Gone(s) && !s.keepRunning
    case Spawn => Gone(s) && s.keepRunning
  }

  lemma MainKeepsLifecycle(s: State)
    requires Lifecycle(s) && !MainBlocked(s)
    ensures Lifecycle(MainStep(s))
  {
  }

  /** The service thread keeps the lifecycle wherever the caller is. */
  lemma ThreadKeepsLifecycle(s: State, zap: bool)
    requires Lifecycle(s) && !ThreadBlocked(s, zap)
    ensures Lifecycle(ThreadStep(s, zap))
  {
    var t := ThreadStep(s, zap);
    assert t.main == s.main;
    if Serving(s) && s.main in {Idle, CheckStarted, SendTerminate} {
      assert Serving(t);
    } else {
      assert Terminating(s) && Terminating(t);
    }
  }

  lemma StepKeepsLifecycle(s: State, e: Event)
    requires Lifecycle(s)
    requires e.CallStart? || e.CallStop? ==> Ready(s)
    ensures Lifecycle(Step(s, e))
  {
    match e
    case Main => if !MainBlocked(s) { MainKeepsLifecycle(s); }
    case Thread(zap) => if !ThreadBlocked(s, zap) { ThreadKeepsLifecycle(s, zap); }
    case _ =>
  }

  /** Over any number of cycles of calls made when ready, no interleaving leaves the lifecycle. */
  lemma {:induction false} LifecycleHolds(s: State, events: seq<Event>)
    requires Lifecycle(s) && CallsWhenReady(s, events)
    ensures Lifecycle(After(s, events))
    decreases |events|
  {
    if events == [] {
    } else {
      StepKeepsLifecycle(s, events[0]);
      LifecycleHolds(Step(s, events[0]), events[1..]);
    }
  }

  /**
   * Safety of shutdown: with calls made when ready the caller never joins a sleeping thread, sending TERMINATE
   * never waits for a peer, and once a stop has returned both flags are down until the next start.
   */
  lemma ShutdownSafe(events: seq<Event>)
    requires CallsWhenReady(CONSTRUCTED, events)
    ensures var s := After(CONSTRUCTED, events);
      && !Hung(s)
      && (s.main == SendTerminate ==> s.connected)
      && (s.main == SetRunning ==> !s.apiStarted && !s.keepRunning)
      && (s.main == Joining && s.thread in {NoThread, Finished} ==>
            var t := MainStep(s); !t.apiStarted && !t.keepRunning && t.thread == NoThread)
  {
    LifecycleHolds(CONSTRUCTED, events);
  }

  /* ---------- Calls made at any time ---------- */

  /** No thread; the flag may have been left up. */
  predicate Vacant(s: State) {
    s.thread == NoThread && !s.connected && s.pending == 0
  }

  /** The thread is starting up or serving, and nobody has asked it to stop. The flag may be up before it is ready. */
  predicate Alive(s: State) {
    && s.thread in {Connect, SetStarted, SendReady, CheckRunning, Polling}
    && s.keepRunning && s.pending == 0
    && (Ready(s) ==> s.apiStarted) && (s.connected <==> s.thread != Connect)
  }

  /** TERMINATE was sent, possibly before the thread raised its flag. */
  predicate Told(s: State) {
    Terminating(s) || (s.thread == SetStarted && s.pending == 1)
  }

  /** The thread was told nothing, but will see `mKeepRunning` down unless it sleeps. It leaves its flag up. */
  predicate Abandoned(s: State) {
    && s.thread in {Connect, SetStarted, SendReady, CheckRunning, Polling, Close, Finished}
    && s.pending == 0 && (s.connected <==> s.thread != Connect && s.thread != Finished)
    && (Ready(s) ==> s.apiStarted)
  }

  /** What holds in every run, whenever calls are made. */
  ghost predicate Consistent(s: State) {
    match s.main
    case Idle => Vacant(s) || Alive(s)
    case CheckStarted => Vacant(s) || Alive(s)
    case SendTerminate => s.apiStarted && (Vacant(s) || Alive(s))
    case ClearStarted => Told(s)
    case ClearRunning => Vacant(s) || Alive(s) || Told(s)
    case Joining => !s.keepRunning && (Vacant(s) || Told(s) || Abandoned(s))
    case SetRunning => Vacant(s)
    case Spawn => Vacant(s) && s.keepRunning
  }

  lemma MainKeepsConsistent(s: State)
    requires Consistent(s) && !MainBlocked(s)
    ensures Consistent(MainStep(s))
  {
  }

  lemma AliveGoesOn(s: State, zap: bool)
    requires Alive(s) && !ThreadBlocked(s, zap)
    ensures Alive(ThreadStep(s, zap))
  {
  }

  lemma ToldGoesOn(s: State, zap: bool)
    requires Told(s) && !ThreadBlocked(s, zap)
    ensures Told(ThreadStep(s, zap))
  {
  }

  lemma AbandonedGoesOn(s: State, zap: bool)
    requires Abandoned(s) && !s.keepRunning && !ThreadBlocked(s, zap)
    ensures Abandoned(ThreadStep(s, zap)) && !ThreadStep(s, zap).keepRunning
  {
  }

  lemma ThreadTouches(s: State, zap: bool)
    requires !ThreadBlocked(s, zap)
    ensures ThreadStep(s, zap).main == s.main && (!s.keepRunning ==> !ThreadStep(s, zap).keepRunning)
    ensures ThreadStep(s, zap).apiStarted == s.apiStarted || s.thread in {SetStarted, HandleStarted}
  {
  }

  lemma ThreadKeepsConsistent(s: State, zap: bool)
    requires Consistent(s) && !ThreadBlocked(s, zap)
    ensures Consistent(ThreadStep(s, zap))
  {
    ThreadTouches(s, zap);
    if Told(s) && s.main in {ClearStarted, ClearRunning, Joining} {
      ToldGoesOn(s, zap);
    } else if s.main == Joining {
      AbandonedGoesOn(s, zap);
    } else {
      AliveGoesOn(s, zap);
    }
  }

  lemma StepKeepsConsistent(s: State, e: Event)
    requires Consistent(s)
    ensures Consistent(Step(s, e))
  {
    match e
    case Main => if !MainBlocked(s) { MainKeepsConsistent(s); }
    case Thread(zap) => if !ThreadBlocked(s, zap) { ThreadKeepsConsistent(s, zap); }
    case _ =>
  }

  /** Over every run, with calls made at any time. */
  lemma {:induction false} ConsistentHolds(s: State, events: seq<Event>)
    requires Consistent(s)
    ensures Consistent(After(s, events))
    decreases |events|
  {
    if events == [] {
    } else {
      StepKeepsConsistent(s, events[0]);
      ConsistentHolds(Step(s, events[0]), events[1..]);
    }
  }

  /* ---------- When a stop gets stuck ---------- */

  /** `mAPIStarted` is up exactly when there is a thread. */
  predicate FlagTells(s: State) {
    s.apiStarted <==> s.thread != NoThread
  }

  /** What a stop keeps that was called when the flag was right: TERMINATE goes out exactly if there is a thread. */
  ghost predicate Orderly(s: State) {
    match s.main
    case CheckStarted => (Vacant(s) || Alive(s)) && FlagTells(s)
    case SendTerminate => Alive(s)
    case ClearStarted => Told(s)
    case ClearRunning => Vacant(s) || Told(s)
    case Joining => Vacant(s) || Told(s)
    case _ => true
  }

  lemma OrderlyIsNotStuck(s: State)
    requires Orderly(s)
    ensures !Stuck(s)
  {
  }

  lemma MainKeepsOrderly(s: State)
    requires Orderly(s) && !MainBlocked(s)
    ensures Orderly(MainStep(s))
  {
  }

  lemma ThreadKeepsOrderly(s: State, zap: bool)
    requires Orderly(s) && !ThreadBlocked(s, zap)
    ensures Orderly(ThreadStep(s, zap))
  {
    ThreadTouches(s, zap);
    if s.main in {CheckStarted, SendTerminate} {
      AliveGoesOn(s, zap);
    } else if s.main in {ClearStarted, ClearRunning, Joining} {
      ToldGoesOn(s, zap);
    }
  }

  /** The actions of both threads keep the stop orderly. */
  lemma QuietKeepsOrderly(s: State, e: Event)
    requires Orderly(s) && (e.Main? || e.Thread?)
    ensures Orderly(Step(s, e))
  {
    match e
    case Main => if !MainBlocked(s) { MainKeepsOrderly(s); }
    case Thread(zap) => if !ThreadBlocked(s, zap) { ThreadKeepsOrderly(s, zap); }
  }

  /** A schedule without further calls. */
  predicate Quiet(events: seq<Event>) {
    forall e :: e in events ==> e.Main? || e.Thread?
  }

  lemma {:induction false} OrderlyNeverStuck(s: State, events: seq<Event>)
    requires Orderly(s) && Quiet(events)
    ensures !Stuck(After(s, events))
    decreases |events|
  {
    if events == [] {
      OrderlyIsNotStuck(s);
    } else {
      assert events[0] in events;
      assert forall e :: e in events[1..] ==> e in events;
      QuietKeepsOrderly(s, events[0]);
      OrderlyNeverStuck(Step(s, events[0]), events[1..]);
    }
  }

  /** The rest of the race: the thread polls, then the caller clears the flag nobody will look at. */
  const LATE := [Thread(false), Thread(false), Thread(false), Main]

  /** The race: the caller reads the flag before the thread raises it. */
  function Race(s: State, call: Event): seq<Event> {
    [call, Main] + ((if s.thread == Connect then [Thread(false)] else []) + LATE)
  }

  lemma AfterCons(s: State, a: Event, es: seq<Event>)
    ensures After(s, [a] + es) == After(Step(s, a), es)
  {
    assert ([a] + es)[1..] == es;
  }

  /** A thread that is about to look at the flag sees it up, and the caller then joins. */
  lemma LookHangs(s: State)
    requires s.main == ClearRunning && s.thread == CheckRunning && s.keepRunning && s.pending == 0
    ensures Hung(After(s, [Thread(false), Main]))
  {
    var t := s.(thread := Polling);
    AfterCons(s, Thread(false), [Main]);
    AfterCons(t, Main, []);
    assert [Thread(false), Main] == [Thread(false)] + [Main] && [Main] == [Main] + [];
  }

  lemma LateHangs(s: State)
    requires s.main == ClearRunning && s.thread == SetStarted && s.keepRunning && s.pending == 0
    ensures Hung(After(s, LATE))
  {
    var t := s.(thread := SendReady, apiStarted := true);
    var u := t.(thread := CheckRunning);
    var tail := [Thread(false), Main];
    AfterCons(s, Thread(false), [Thread(false)] + tail);
    AfterCons(t, Thread(false), tail);
    LookHangs(u);
    assert LATE == [Thread(false)] + ([Thread(false)] + tail);
  }

  lemma RaceHangs(s: State, call: Event)
    requires s.main == Idle && Alive(s) && !s.apiStarted && (call == CallStart || call == CallStop)
    ensures Hung(After(s, Race(s, call)))
  {
    var rest := (if s.thread == Connect then [Thread(false)] else []) + LATE;
    var t := s.(main := CheckStarted, restarting := call == CallStart);
    var u := t.(main := ClearRunning);
    assert Race(s, call) == [call] + ([Main] + rest);
    AfterCons(s, call, [Main] + rest);
    AfterCons(t, Main, rest);
    if s.thread == Connect {
      AfterCons(u, Thread(false), LATE);
      LateHangs(Step(u, Thread(false)));
    } else {
      assert rest == LATE;
      LateHangs(u);
    }
  }

  /** With the flag up and no thread, the first thing a stop does is to wait for a peer. */
  lemma StaleFlagBlocks(s: State, call: Event)
    requires s.main == Idle && Vacant(s) && s.apiStarted && (call == CallStart || call == CallStop)
    ensures NoPeer(After(s, [call] + [Main]))
  {
    AfterCons(s, call, [Main]);
    AfterCons(Step(s, call), Main, []);
    assert [Main] == [Main] + [];
  }

  /** Some schedule of the call, with no other call in between, gets stuck. */
  ghost predicate CanStick(s: State, call: Event) {
    exists events :: Quiet(events) && Stuck(After(s, [call] + events))
  }

  /**
   * The stop that `stop` makes and `start` begins with: after any history, with calls made at any time, it can get
   * stuck exactly when `mAPIStarted` does not tell whether there is a thread.
   */
  lemma StopSticksExactly(before: seq<Event>, call: Event)
    requires After(CONSTRUCTED, before).main == Idle && (call == CallStart || call == CallStop)
    ensures CanStick(After(CONSTRUCTED, before), call) <==> !FlagTells(After(CONSTRUCTED, before))
  {
    var s := After(CONSTRUCTED, before);
    ConsistentHolds(CONSTRUCTED, before);
    if FlagTells(s) {
      forall events | Quiet(events)
        ensures !Stuck(After(s, [call] + events))
      {
        AfterCons(s, call, events);
        OrderlyNeverStuck(Step(s, call), events);
      }
    } else if s.thread == NoThread {
      StaleFlagBlocks(s, call);
      assert Quiet([Main]);
    } else {
      RaceHangs(s, call);
      var events := Race(s, call)[1..];
      assert Race(s, call) == [call] + events;
      assert Quiet(events);
    }
  }

  /** When all earlier calls were made when ready, that is exactly when this one is not. */
  lemma ReadyStopSticksExactly(before: seq<Event>, call: Event)
    requires After(CONSTRUCTED, before).main == Idle && (call == CallStart || call == CallStop)
    requires CallsWhenReady(CONSTRUCTED, before)
    ensures CanStick(After(CONSTRUCTED, before), call) <==> !Ready(After(CONSTRUCTED, before))
  {
    LifecycleHolds(CONSTRUCTED, before);
    StopSticksExactly(before, call);
  }

  lemma {:induction false} AfterConcat(s: State, a: seq<Event>, b: seq<Event>)
    ensures After(s, a + b) == After(After(s, a), b)
    decreases |a|
  {
    if a == [] {
      assert a + b == b;
    } else {
      assert (a + b)[1..] == a[1..] + b;
      AfterConcat(Step(s, a[0]), a[1..], b);
    }
  }

  const START_UP := [CallStart, Main, Main, Main, Main, Main]
  const STOP_TOO_EARLY := [CallStop, Main, Main]
  const THREAD_ENDS := [Thread(false), Thread(false), Thread(false), Thread(false), Thread(false), Main]

  const SPAWNED := State(Idle, true, Connect, false, true, false, 0)
  const JOINING := State(Joining, false, Connect, false, false, false, 0)
  /** Idle, without a thread, the flag up. */
  const STALE := State(Idle, false, NoThread, true, false, false, 0)

  lemma StartUp()
    ensures After(CONSTRUCTED, START_UP) == SPAWNED
  {
    var tail := [Main, Main, Main];
    AfterConcat(CONSTRUCTED, [CallStart, Main, Main], tail);
    assert START_UP == [CallStart, Main, Main] + tail;
    assert After(CONSTRUCTED, [CallStart, Main, Main])
        == CONSTRUCTED.(main := Joining, restarting := true, keepRunning := false);
  }

  lemma StopTooEarly()
    ensures After(SPAWNED, STOP_TOO_EARLY) == JOINING
  {
  }

  lemma ThreadEnds()
    ensures After(JOINING, THREAD_ENDS) == STALE
  {
    var a, b := [Thread(false), Thread(false), Thread(false)], [Thread(false), Thread(false), Main];
    AfterConcat(JOINING, a, b);
    assert THREAD_ENDS == a + b;
    assert After(JOINING, a) == JOINING.(thread := CheckRunning, apiStarted := true, connected := true);
  }

  /** A stop made too early can return and leave the flag up; the next call, at whatever time, then never returns. */
  lemma EarlyStopLeavesFlagUp()
    ensures After(CONSTRUCTED, START_UP + STOP_TOO_EARLY + THREAD_ENDS) == STALE
    ensures Ready(STALE) && !FlagTells(STALE)
  {
    StartUp();
    StopTooEarly();
    ThreadEnds();
    AfterConcat(CONSTRUCTED, START_UP, STOP_TOO_EARLY);
    AfterConcat(CONSTRUCTED, START_UP + STOP_TOO_EARLY, THREAD_ENDS);
  }

  /** A call that waits for a peer waits for ever, whatever is requested or called. */
  lemma {:induction false} NoPeerIsPermanent(s: State, events: seq<Event>)
    requires NoPeer(s)
    ensures After(s, events) == s
    decreases |events|
  {
    if events == [] {
    } else {
      NoPeerIsPermanent(s, events[1..]);
    }
  }

  /** Without an authentication request a hung join never ends. */
  lemma {:induction false} HangIsPermanent(s: State, events: seq<Event>)
    requires Hung(s) && forall e :: e in events ==> e != Thread(true)
    ensures After(s, events) == s
    decreases |events|
  {
    if events == [] {
    } else {
      assert events[0] in events;
      assert forall e :: e in events[1..] ==> e in events;
      HangIsPermanent(s, events[1..]);
    }
  }

  /** With one it does, but the flag stays up although the thread is gone. */
  lemma RequestEndsHang(s: State)
    requires Consistent(s) && Hung(s)
    ensures var t := After(s, [Thread(true), Thread(false), Thread(false), Main]);
      t.main != Joining && Vacant(t) && t.apiStarted && !FlagTells(t)
  {
    var t := s.(thread := CheckRunning);
    var rest := [Thread(false), Thread(false), Main];
    AfterCons(s, Thread(true), rest);
    assert [Thread(true), Thread(false), Thread(false), Main] == [Thread(true)] + rest;
    assert Step(s, Thread(true)) == t;
  }

  /* ---------- Every orderly join returns ---------- */

  /** Steps the thread may still take before it ends, or before a waiting send finds its peer. */
  function StepsLeft(s: State): nat {
    match s.thread
    case Connect => 9
    case SetStarted => 8
    case SendReady => 7
    case CheckRunning => if s.pending > 0 then 6 else 2
    case Polling => 5
    case HandleRunning => 4
    case HandleStarted => 3
    case Close => 1
    case _ => 0
  }

  function ThreadSteps(zaps: seq<bool>): seq<Event> {
    seq(|zaps|, i requires 0 <= i < |zaps| => Thread(zaps[i]))
  }

  /** While an orderly caller waits, the thread can go on, and each action brings it closer to what is waited for. */
  lemma BlockedOnThread(s: State)
    requires Orderly(s) && s.main != Idle && MainBlocked(s)
    ensures !ThreadBlocked(s, false)
    ensures forall zap :: StepsLeft(ThreadStep(s, zap)) < StepsLeft(s)
  {
  }

  lemma JoinBound(s: State)
    requires Orderly(s) && s.main == Joining
    ensures StepsLeft(s) <= 8 && (Lifecycle(s) ==> StepsLeft(s) <= 7)
    ensures !MainBlocked(s) <==> StepsLeft(s) == 0
  {
  }

  /** However requests arrive meanwhile, eight steps of the service thread end every join of an orderly stop. */
  lemma {:induction false} JoinReturns(s: State, zaps: seq<bool>)
    requires Orderly(s) && s.main == Joining && |zaps| >= StepsLeft(s)
    ensures StepsLeft(s) <= 8 && (Lifecycle(s) ==> StepsLeft(s) <= 7)
    ensures !MainBlocked(After(s, ThreadSteps(zaps)))
    decreases |zaps|
  {
    JoinBound(s);
    if zaps == [] {
    } else {
      assert ThreadSteps(zaps)[1..] == ThreadSteps(zaps[1..]);
      if MainBlocked(s) {
        BlockedOnThread(s);
        ThreadTouches(s, zaps[0]);
        ThreadKeepsOrderly(s, zaps[0]);
      }
      JoinReturns(Step(s, Thread(zaps[0])), zaps[1..]);
    }
  }

  lemma ReadsTerminate(s: State, a: bool)
    requires s.thread == Polling && s.pending > 0
    ensures Step(s, Thread(a)) == s.(thread := HandleRunning, pending := s.pending - 1)
  {
  }

  lemma LowersFlags(s: State, b: bool, c: bool)
    requires s.thread == HandleRunning
    ensures After(s, [Thread(b), Thread(c)]) == s.(thread := CheckRunning, apiStarted := false, keepRunning := false)
  {
    AfterCons(s, Thread(b), [Thread(c)]);
    AfterCons(s.(thread := HandleStarted, keepRunning := false), Thread(c), []);
    assert [Thread(b), Thread(c)] == [Thread(b)] + [Thread(c)] && [Thread(c)] == [Thread(c)] + [];
  }

  lemma HandlesTerminate(s: State, a: bool, b: bool, c: bool)
    requires s.thread == Polling && s.pending > 0
    ensures After(s, [Thread(a), Thread(b), Thread(c)])
         == s.(thread := CheckRunning, apiStarted := false, keepRunning := false, pending := s.pending - 1)
  {
    ReadsTerminate(s, a);
    AfterCons(s, Thread(a), [Thread(b), Thread(c)]);
    LowersFlags(Step(s, Thread(a)), b, c);
    assert [Thread(a), Thread(b), Thread(c)] == [Thread(a)] + [Thread(b), Thread(c)];
  }

  lemma ClosesDown(s: State, d: bool, e: bool)
    requires s.thread == CheckRunning && !s.keepRunning
    ensures After(s, [Thread(d), Thread(e)]) == s.(thread := Finished, connected := false, pending := 0)
  {
    AfterCons(s, Thread(d), [Thread(e)]);
    AfterCons(s.(thread := Close), Thread(e), []);
    assert [Thread(d), Thread(e)] == [Thread(d)] + [Thread(e)] && [Thread(e)] == [Thread(e)] + [];
  }

  /** A thread that finds TERMINATE ends in five steps of its own, whatever is requested, with both flags down. */
  lemma TerminateEndsThread(s: State, a: bool, b: bool, c: bool, d: bool, e: bool)
    requires s.thread == Polling && s.pending > 0
    ensures After(s, [Thread(a), Thread(b), Thread(c)] + [Thread(d), Thread(e)])
         == s.(thread := Finished, apiStarted := false, keepRunning := false, connected := false, pending := 0)
  {
    AfterConcat(s, [Thread(a), Thread(b), Thread(c)], [Thread(d), Thread(e)]);
    HandlesTerminate(s, a, b, c);
    ClosesDown(After(s, [Thread(a), Thread(b), Thread(c)]), d, e);
  }

  /* ---------- The service object ---------- */

  /** Actions left to the caller before its stop returns. */
  function CallerLeft(main: MainAt): nat {
    match main
    case CheckStarted => 5
    case SendTerminate => 4
    case ClearStarted => 3
    case ClearRunning => 2
    case Joining => 1
    case _ => 0
  }

  /** A stop under way, or returned with the thread gone. */
  predicate Stopping(s: State) {
    && !s.restarting && s.main != SetRunning && s.main != Spawn
    && (s.main == Idle ==> Vacant(s) && !s.keepRunning)
  }

  /** What one action of the caller achieves. */
  lemma CallerAchieves(s: State)
    requires Consistent(s) && !MainBlocked(s)
    ensures var t := MainStep(s);
      && Consistent(t)
      && (s.main == Joining ==> Vacant(t) && !t.keepRunning)
      && (Orderly(s) ==> Orderly(t) && !Stuck(t))
      && (Stopping(s) ==> Stopping(t) && CallerLeft(t.main) < CallerLeft(s.main))
      && (Lifecycle(s) ==> Lifecycle(t))
  {
    MainKeepsConsistent(s);
    if Orderly(s) {
      MainKeepsOrderly(s);
      OrderlyIsNotStuck(MainStep(s));
    }
    if Lifecycle(s) {
      MainKeepsLifecycle(s);
    }
  }

  /** What one action of the service thread achieves. */
  lemma ThreadAchieves(s: State, zap: bool)
    requires Consistent(s) && !ThreadBlocked(s, zap)
    ensures var t := ThreadStep(s, zap);
      && Consistent(t) && t.main == s.main
      && (Orderly(s) ==> Orderly(t) && !Stuck(t))
      && (Stopping(s) ==> Stopping(t))
      && (Lifecycle(s) ==> Lifecycle(t))
  {
    ThreadKeepsConsistent(s, zap);
    ThreadTouches(s, zap);
    if Orderly(s) {
      ThreadKeepsOrderly(s, zap);
      OrderlyIsNotStuck(ThreadStep(s, zap));
    }
    if Lifecycle(s) {
      ThreadKeepsLifecycle(s, zap);
    }
  }

  /** Whose action comes next. */
  datatype Turn = Caller | ServiceThread(zap: bool)

  class Service {
    var mAPIStarted: bool
    var mKeepRunning: bool
    /** The pipe and the positions of the two threads. */
    var connected: bool
    var pending: nat
    var main: MainAt
    var restarting: bool
    var thread: ThreadAt

    function View(): State
      reads this
    {
      State(main, restarting, thread, mAPIStarted, mKeepRunning, connected, pending)
    }

    /** Whatever was called before, and whenever. */
    ghost predicate Valid()
      reads this
    {
      Consistent(View())
    }

    constructor ()
      ensures Valid() && View() == CONSTRUCTED
    {
      mAPIStarted, mKeepRunning := false, true;
      connected, pending := false, 0;
      main, restarting, thread := Idle, false, NoThread;
    }

    /** Entry of `start` (which stops first) or `stop`. */
    method Call(start: bool)
      requires Valid() && main == Idle
      modifies this
      ensures Valid() && View() == Step(old(View()), if start then CallStart else CallStop)
      ensures old(FlagTells(View())) ==> Orderly(View())
      ensures old(Lifecycle(View()) && Ready(View())) ==> Lifecycle(View())
    {
      main := CheckStarted;
      restarting := start;
    }

    /** One atomic action of the calling thread; a join that returns finds the thread gone. */
    method Advance()
      requires Valid() && !MainBlocked(View())
      modifies this
      ensures Valid() && View() == MainStep(old(View()))
      ensures old(main) == Joining ==> Vacant(View()) && !mKeepRunning
      ensures old(Orderly(View())) ==> Orderly(View()) && !Stuck(View())
      ensures old(Stopping(View())) ==> Stopping(View()) && CallerLeft(main) < CallerLeft(old(main))
      ensures old(Lifecycle(View())) ==> Lifecycle(View())
    {
      CallerAchieves(View());
      CallerAction();
    }

    /** The assignments of one action of `stop` or `start`. */
    method CallerAction()
      requires !MainBlocked(View())
      modifies this
      ensures View() == MainStep(old(View()))
    {
      match main {
        case CheckStarted => main := if mAPIStarted then SendTerminate else ClearRunning;
        case SendTerminate => pending := pending + 1; main := ClearStarted;
        case ClearStarted => mAPIStarted := false; main := ClearRunning;
        case ClearRunning => mKeepRunning := false; main := Joining;
        case Joining => thread := NoThread; main := if restarting then SetRunning else Idle;
        case SetRunning => mKeepRunning := true; main := Spawn;
        case Spawn => thread := Connect; main := Idle;
      }
    }

    /** The assignments of one action of `runZAPThread`. */
    method ThreadAction(zap: bool)
      requires !ThreadBlocked(View(), zap)
      modifies this
      ensures View() == ThreadStep(old(View()), zap)
    {
      match thread {
        case Connect => connected := true; pending := 0; thread := SetStarted;
        case SetStarted => mAPIStarted := true; thread := SendReady;
        case SendReady => thread := CheckRunning;
        case CheckRunning => thread := if mKeepRunning then Polling else Close;
        case Polling =>
          if pending > 0 {
            pending := pending - 1;
            thread := HandleRunning;
          } else {
            thread := CheckRunning;
          }
        case HandleRunning => mKeepRunning := false; thread := HandleStarted;
        case HandleStarted => mAPIStarted := false; thread := CheckRunning;
        case Close => connected := false; pending := 0; thread := Finished;
      }
    }

    /** One atomic action of `runZAPThread`; while an orderly caller waits, each brings the wait closer to its end. */
    method RunZAPThread(zap: bool)
      requires Valid() && !ThreadBlocked(View(), zap)
      modifies this
      ensures Valid() && View() == ThreadStep(old(View()), zap) && main == old(main)
      ensures old(Orderly(View())) ==> Orderly(View()) && !Stuck(View())
      ensures old(Orderly(View()) && main != Idle && MainBlocked(View())) ==>
                StepsLeft(View()) < StepsLeft(old(View()))
      ensures old(Stopping(View())) ==> Stopping(View())
      ensures old(Lifecycle(View())) ==> Lifecycle(View())
    {
      ThreadAchieves(View(), zap);
      if Orderly(View()) && main != Idle && MainBlocked(View()) {
        BlockedOnThread(View());
      }
      ThreadAction(zap);
    }

    /** One turn; a thread that is blocked lets it pass. */
    method TakeTurn(turn: Turn)
      requires Valid() && Orderly(View()) && Stopping(View())
      modifies this
      ensures Valid() && Orderly(View()) && Stopping(View())
      ensures old(Lifecycle(View())) ==> Lifecycle(View())
    {
      match turn
      case Caller => if !MainBlocked(View()) { Advance(); }
      case ServiceThread(zap) => if !ThreadBlocked(View(), zap) { RunZAPThread(zap); }
    }

    /**
     * The whole of a `stop` called when the flag is right, in any interleaving: it returns and the thread is gone. If
     * the thread was ready the flag is down again.
     */
    method Stop(turns: seq<Turn>)
      requires Valid() && main == Idle && FlagTells(View())
      modifies this
      ensures Valid() && main == Idle && thread == NoThread && !mKeepRunning
      ensures old(Ready(View())) ==> Gone(View())
    {
      ghost var ready := Ready(View());
      Call(false);
      for i := 0 to |turns|
        invariant Valid() && Orderly(View()) && Stopping(View())
        invariant ready ==> Lifecycle(View())
      {
        TakeTurn(turns[i]);
      }
      while main != Idle
        invariant Valid() && Orderly(View()) && Stopping(View())
        invariant ready ==> Lifecycle(View())
        decreases CallerLeft(main), StepsLeft(View())
      {
        if MainBlocked(View()) {
          BlockedOnThread(View());
          RunZAPThread(false);
        } else {
          Advance();
        }
      }
    }
  }
}
