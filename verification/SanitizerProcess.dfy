/** The sanitizer process with its queues, testers and the loops of its threads. */
module SanitizerProcess {
  import DuplicateTester
  import Packets
  import opened Sanitizer
  import WindowTesters
  import opened Wrappers

  class Process {
    const options: Options
    const mFutureDataPacketTester: WindowTesters.TestFutureDataPacket?
    const mExpiredDataPacketTester: WindowTesters.TestExpiredDataPacket?
    const mDuplicateDataPacketTester: DuplicateTester.TestDuplicateDataPacket?
    var mPacketsToCheckQueue: seq<Packets.Packet>
    var mMessagesToPublishQueue: seq<Packets.Packet>
    /** The packet held by the tester thread, and whether the publisher is between peek and pop. */
    var packet: Option<Packets.Packet>
    var peeked: bool
    ghost var state: State

    /** The real fields are the state of the step system. */
    ghost predicate Mirrors()
      reads this, mDuplicateDataPacketTester
    {
      && state.toCheck == mPacketsToCheckQueue && state.toPublish == mMessagesToPublishQueue
      && state.inHand == packet && state.sending == peeked && (peeked ==> mMessagesToPublishQueue != [])
      && state.rings == (if mDuplicateDataPacketTester == null then map[] else mDuplicateDataPacketTester.rings)
    }

    /** A tester exists exactly when its option asks for it. */
    ghost predicate TestersMatch() {
      && (mFutureDataPacketTester != null <==> TestsFuture(options))
      && (mExpiredDataPacketTester != null <==> TestsExpired(options))
      && (mDuplicateDataPacketTester != null <==> TestsDuplicates(options))
      && (mFutureDataPacketTester != null ==>
            mFutureDataPacketTester.Valid() && mFutureDataPacketTester.mMaxFutureTime == MaxFuture(options))
      && (mExpiredDataPacketTester != null ==>
            mExpiredDataPacketTester.Valid() && mExpiredDataPacketTester.mMaxExpiredTime == MaxExpired(options))
      && (mDuplicateDataPacketTester != null ==> mDuplicateDataPacketTester.config == DetectorConfig(options))
    }

    /** The duplicate tester owns neither the process nor the logs of the other testers. */
    ghost predicate Separate()
      reads this, mDuplicateDataPacketTester
    {
      mDuplicateDataPacketTester != null ==>
        && this !in mDuplicateDataPacketTester.owned
        && (mFutureDataPacketTester != null ==> mFutureDataPacketTester.log !in mDuplicateDataPacketTester.owned)
        && (mExpiredDataPacketTester != null ==> mExpiredDataPacketTester.log !in mDuplicateDataPacketTester.owned)
    }

    ghost predicate Valid()
      reads this, mDuplicateDataPacketTester,
            if mDuplicateDataPacketTester == null then {} else mDuplicateDataPacketTester.owned
    {
      && Mirrors() && TestersMatch() && Separate()
      && (mDuplicateDataPacketTester != null ==> mDuplicateDataPacketTester.Valid())
    }

    constructor (options: Options, logBadDataInterval: int)
      ensures Valid() && this.options == options && state == START
    {
      this.options := options;
      if options.maximumFutureTime >= 0 {
        mFutureDataPacketTester := new WindowTesters.TestFutureDataPacket(MaxFuture(options), logBadDataInterval);
      } else {
        mFutureDataPacketTester := null;
      }
      if options.maximumLatency > 0 {
        mExpiredDataPacketTester := new WindowTesters.TestExpiredDataPacket(MaxExpired(options), logBadDataInterval);
      } else {
        mExpiredDataPacketTester := null;
      }
      if options.circularBufferDuration > 0 {
        mDuplicateDataPacketTester :=
          new DuplicateTester.TestDuplicateDataPacket(DetectorConfig(options), logBadDataInterval);
      } else {
        mDuplicateDataPacketTester := null;
      }
      mPacketsToCheckQueue, mMessagesToPublishQueue := [], [];
      packet, peeked := None, false;
      state := START;
    }

    /** The subscriber's callback; a full queue refuses the packet and nobody looks at the result. */
    method InputPacketsToQueueCallback(p: Packets.Packet, room: bool)
      requires Valid()
      modifies this
      ensures Valid() && state == Step(options, old(state), Receive(p, room))
    {
      if room {
        mPacketsToCheckQueue := mPacketsToCheckQueue + [p];
      }
      state := Step(options, state, Receive(p, room));
    }

    /** One round of the tester thread's overflow loop. */
    method PopOverfullInput()
      requires Valid() && packet.None? && |mPacketsToCheckQueue| > MAX_QUEUE_SIZE
      modifies this
      ensures Valid() && state == Step(options, old(state), TrimInput)
    {
      mPacketsToCheckQueue := mPacketsToCheckQueue[1..];
      state := Step(options, state, TrimInput);
    }

    /** The overflow loop of the tester thread while nobody enqueues: it ends with the newest packets that fit. */
    method DrainInput() returns (nDeleted: nat)
      requires Valid() && packet.None?
      modifies this
      ensures Valid() && packet.None?
      ensures nDeleted == if |old(mPacketsToCheckQueue)| > 256 then |old(mPacketsToCheckQueue)| - 256 else 0
      ensures mPacketsToCheckQueue == old(mPacketsToCheckQueue)[nDeleted..]
      ensures state.skipped == old(state).skipped + old(mPacketsToCheckQueue)[..nDeleted]
      ensures state == old(state).(toCheck := state.toCheck, skipped := state.skipped)
    {
      nDeleted := 0;
      while |mPacketsToCheckQueue| > MAX_QUEUE_SIZE
        invariant Valid() && packet.None? && nDeleted <= |old(mPacketsToCheckQueue)|
        invariant mPacketsToCheckQueue == old(mPacketsToCheckQueue)[nDeleted..]
        invariant nDeleted > 0 ==> |mPacketsToCheckQueue| >= MAX_QUEUE_SIZE
        invariant state.skipped == old(state).skipped + old(mPacketsToCheckQueue)[..nDeleted]
        invariant state == old(state).(toCheck := state.toCheck, skipped := state.skipped)
      {
        PopOverfullInput();
        nDeleted := nDeleted + 1;
      }
    }

    method TryDequeue() returns (found: bool)
      requires Valid() && packet.None?
      modifies this
      ensures Valid() && state == Step(options, old(state), Take)
      ensures found <==> old(mPacketsToCheckQueue) != []
    {
      found := mPacketsToCheckQueue != [];
      if found {
        packet := Some(mPacketsToCheckQueue[0]);
        mPacketsToCheckQueue := mPacketsToCheckQueue[1..];
      }
      state := Step(options, state, Take);
    }

    /** The three tests in order; `None` is an exception. */
    method Test(p: Packets.Packet, nowFuture: int, nowExpired: int, nowDuplicate: int) returns (allow: Option<bool>)
      requires Valid()
      modifies if mFutureDataPacketTester == null then {} else {mFutureDataPacketTester.log}
      modifies if mExpiredDataPacketTester == null then {} else {mExpiredDataPacketTester.log}
      modifies if mDuplicateDataPacketTester == null then {}
               else {mDuplicateDataPacketTester} + mDuplicateDataPacketTester.owned
      ensures TestersMatch() && Separate()
      ensures mDuplicateDataPacketTester != null ==> mDuplicateDataPacketTester.Valid()
      ensures var j := Judge(options, old(state).rings, p, nowFuture, nowExpired);
        allow == if j == Threw then None else Some(j == Pass)
      ensures mDuplicateDataPacketTester != null ==>
        mDuplicateDataPacketTester.rings == RingsAfter(options, old(state).rings, p, nowFuture, nowExpired)
    {
      var admitted := false;
      if mFutureDataPacketTester != null {
        var r := mFutureDataPacketTester.Allow(p, nowFuture);
        if r.Failure? { return None; }
        admitted := r.value;
      }
      if admitted && mExpiredDataPacketTester != null {
        admitted := mExpiredDataPacketTester.Allow(p, nowExpired);
      }
      if admitted && mDuplicateDataPacketTester != null {
        admitted := mDuplicateDataPacketTester.Allow(p, nowDuplicate);
      }
      allow := Some(admitted);
    }

    /** The rest of one tester round: test the packet in hand and pass it on. */
    method CheckPacket(nowFuture: int, nowExpired: int, nowDuplicate: int, room: bool)
      requires Valid() && packet.Some?
      modifies this
      modifies if mFutureDataPacketTester == null then {} else {mFutureDataPacketTester.log}
      modifies if mExpiredDataPacketTester == null then {} else {mExpiredDataPacketTester.log}
      modifies if mDuplicateDataPacketTester == null then {}
               else {mDuplicateDataPacketTester} + mDuplicateDataPacketTester.owned
      ensures Valid() && state == Step(options, old(state), Inspect(nowFuture, nowExpired, room))
    {
      var p := packet.value;
      ghost var c := Inspecting(options, state, nowFuture, nowExpired);
      ghost var next := Step(options, state, Inspect(nowFuture, nowExpired, room));
      assert next == Book(state, c, RingsAfter(options, state.rings, p, nowFuture, nowExpired), room);
      var allow := Test(p, nowFuture, nowExpired, nowDuplicate);
      if allow == Some(true) && room {
        mMessagesToPublishQueue := mMessagesToPublishQueue + [p];
      }
      packet := None;
      state := next;
    }

    /** One round of the publisher's overflow loop. */
    method PopOverfullOutput()
      requires Valid() && !peeked && |mMessagesToPublishQueue| > MAX_QUEUE_SIZE
      modifies this
      ensures Valid() && state == Step(options, old(state), TrimOutput)
    {
      mMessagesToPublishQueue := mMessagesToPublishQueue[1..];
      state := Step(options, state, TrimOutput);
    }

    /** The overflow loop of the publisher while nobody enqueues. */
    method DrainOutput() returns (nDeleted: nat)
      requires Valid() && !peeked
      modifies this
      ensures Valid() && !peeked
      ensures nDeleted == if |old(mMessagesToPublishQueue)| > 256 then |old(mMessagesToPublishQueue)| - 256 else 0
      ensures mMessagesToPublishQueue == old(mMessagesToPublishQueue)[nDeleted..]
      ensures state.skippedLater == old(state).skippedLater + old(mMessagesToPublishQueue)[..nDeleted]
      ensures state == old(state).(toPublish := state.toPublish, skippedLater := state.skippedLater)
    {
      nDeleted := 0;
      while |mMessagesToPublishQueue| > MAX_QUEUE_SIZE
        invariant Valid() && !peeked && nDeleted <= |old(mMessagesToPublishQueue)|
        invariant mMessagesToPublishQueue == old(mMessagesToPublishQueue)[nDeleted..]
        invariant nDeleted > 0 ==> |mMessagesToPublishQueue| >= MAX_QUEUE_SIZE
        invariant state.skippedLater == old(state).skippedLater + old(mMessagesToPublishQueue)[..nDeleted]
        invariant state == old(state).(toPublish := state.toPublish, skippedLater := state.skippedLater)
      {
        PopOverfullOutput();
        nDeleted := nDeleted + 1;
      }
    }

    /** Peek and send; `ok` is false when the send throws. */
    method PeekAndSend(ok: bool) returns (p: Option<Packets.Packet>)
      requires Valid() && !peeked
      modifies this
      ensures Valid() && state == Step(options, old(state), Send(ok))
      ensures p == if old(mMessagesToPublishQueue) == [] then None else Some(old(mMessagesToPublishQueue)[0])
    {
      p := if mMessagesToPublishQueue == [] then None else Some(mMessagesToPublishQueue[0]);
      peeked := p.Some?;
      state := Step(options, state, Send(ok));
    }

    /** The queue cannot be empty here: only the publisher removes packets. */
    method PopSent()
      requires Valid() && peeked
      modifies this
      ensures Valid() && state == Step(options, old(state), Pop)
    {
      mMessagesToPublishQueue := mMessagesToPublishQueue[1..];
      peeked := false;
      state := Step(options, state, Pop);
    }
  }
}
