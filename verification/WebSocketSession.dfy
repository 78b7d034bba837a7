/**
 * The write side of a web socket session. Handlers run one at a time: reads post their reply, posted replies
 * are queued, and each completed write starts the next.
 */
module WebSocketSession {
  import opened Wrappers

  /** What the callback made of a request. */
  datatype CallbackResult = Response(text: string) | NullMessage | Exception

  datatype ReadResult = Closed | ReadError | Message(result: CallbackResult)

  const SERVER_ERROR := "server error - unhandled exception"

  /** One reply for each request: the response, or the error message. */
  function ReplyTo(r: CallbackResult): string {
    match r
    case Response(text) => text
    case NullMessage => SERVER_ERROR
    case Exception => SERVER_ERROR
  }

  /**
   * `posted` holds the replies whose `queueSend` handler has not run, `writing` the outstanding write. History:
   * `replies` are all replies in request order, `written` the completed writes, `failed` that a write failed.
   */
  datatype State = State(reading: bool, posted: seq<string>, queue: seq<string>, writing: Option<string>,
                         replies: seq<string>, written: seq<string>, failed: bool)

  const OPEN := State(true, [], [], None, [], [], false)

  datatype Event = OnRead(result: ReadResult) | QueueSend | OnWrite(ok: bool)

  /** A handler runs when its operation is outstanding. */
  predicate Enabled(s: State, e: Event) {
    match e
    case OnRead(_) => s.reading
    case QueueSend => s.posted != []
    case OnWrite(_) => s.writing.Some?
  }

  function Step(s: State, e: Event): State {
    if !Enabled(s, e) then s
    else match e
      case OnRead(Message(r)) => s.(posted := s.posted + [ReplyTo(r)], replies := s.replies + [ReplyTo(r)])
      case OnRead(_) => s.(reading := false)
      case QueueSend =>
        var s' := s.(posted := s.posted[1..], queue := s.queue + [s.posted[0]]);
        if |s'.queue| > 1 then s' else s'.(writing := Some(s'.queue[0]))
      case OnWrite(false) => s.(writing := None, failed := true)
      case OnWrite(true) =>
        if s.queue == [] then s.(writing := None)
        else
          var s' := s.(queue := s.queue[1..], written := s.written + [s.writing.value], writing := None);
          if s'.queue == [] then s' else s'.(writing := Some(s'.queue[0]))
  }

  function After(s: State, events: seq<Event>): State
    decreases |events|
  {
    if events == [] then s else After(Step(s, events[0]), events[1..])
  }

  /** The protocol invariant. */
  ghost predicate Protocol(s: State) {
    && (s.writing.Some? ==> s.queue != [] && s.writing.value == s.queue[0])
    && (!s.failed ==> (s.writing.Some? <==> s.queue != []))
    && (s.failed ==> s.writing.None? && s.queue != [])
    && s.written + s.queue + s.posted == s.replies
  }

  lemma StepKeepsProtocol(s: State, e: Event)
    requires Protocol(s)
    ensures Protocol(Step(s, e))
  {
    var t := Step(s, e);
    if Enabled(s, e) {
      match e
      case OnRead(Message(r)) =>
        assert t.written + t.queue + t.posted == (s.written + s.queue + s.posted) + [ReplyTo(r)];
      case OnRead(_) =>
      case QueueSend =>
        assert t.written + t.queue + t.posted == s.written + s.queue + s.posted;
      case OnWrite(ok) =>
        if ok {
          assert t.written + t.queue + t.posted == s.written + s.queue + s.posted;
        }
    }
  }

  /**
   * In every handler order: an outstanding write is of the queue front, which stays queued; without failure a
   * write is outstanding exactly when the queue is non-empty; and completed, queued and posted replies are
   * together all replies, in request order.
   */
  lemma {:induction false} ProtocolHolds(s: State, events: seq<Event>)
    requires Protocol(s)
    ensures Protocol(After(s, events))
    decreases |events|
  {
    if events == [] {
    } else {
      StepKeepsProtocol(s, events[0]);
      ProtocolHolds(Step(s, events[0]), events[1..]);
    }
  }

  /** From the opening of the session, what the client has received is a prefix of the replies. */
  lemma RepliesInOrder(events: seq<Event>)
    ensures var s := After(OPEN, events);
      && s.written <= s.replies
      && (s.queue == s.posted == [] ==> s.written == s.replies && !s.failed)
      && (!s.failed && s.posted == [] && s.writing.None? ==> s.written == s.replies)
  {
    ProtocolHolds(OPEN, events);
    var s := After(OPEN, events);
    assert s.replies == s.written + (s.queue + s.posted);
  }

  /* ---------- Requests and answers ---------- */

  /** The requests of a run: the messages that arrive before a read fails or finds the socket closed. */
  function Requests(events: seq<Event>): seq<CallbackResult>
    decreases |events|
  {
    if events == [] || events[0] == OnRead(Closed) || events[0] == OnRead(ReadError) then []
    else (if events[0].OnRead? then [events[0].result.result] else []) + Requests(events[1..])
  }

  /** The text answers the request: it is the callback's response or, if there is none, the error message. */
  predicate Answers(r: CallbackResult, text: string) {
    if r.Response? then text == r.text else text == "server error - unhandled exception"
  }

  lemma {:induction false} SilentAfterReading(s: State, events: seq<Event>)
    requires !s.reading
    ensures !After(s, events).reading && After(s, events).replies == s.replies
    decreases |events|
  {
    if events == [] {
    } else {
      SilentAfterReading(Step(s, events[0]), events[1..]);
    }
  }

  /** Reading goes on, whatever is sent or fails to be sent, until a read fails or finds the socket closed. */
  lemma {:induction false} ReadsUntilFailure(s: State, events: seq<Event>)
    requires s.reading
    ensures After(s, events).reading <==> forall e :: e in events ==> e != OnRead(Closed) && e != OnRead(ReadError)
    decreases |events|
  {
    if events == [] {
    } else {
      var e := events[0];
      assert forall x :: x in events <==> x == e || x in events[1..];
      if e == OnRead(Closed) || e == OnRead(ReadError) {
        assert e in events;
        SilentAfterReading(Step(s, e), events[1..]);
      } else {
        assert Step(s, e).reading;
        ReadsUntilFailure(Step(s, e), events[1..]);
      }
    }
  }

  /** From position `base` on there is one reply for each request, in order. */
  ghost predicate AnsweredFrom(replies: seq<string>, base: nat, requests: seq<CallbackResult>) {
    |replies| == base + |requests| && forall i :: 0 <= i < |requests| ==> Answers(requests[i], replies[base + i])
  }

  lemma StepReplies(s: State, e: Event)
    requires s.reading && e != OnRead(Closed) && e != OnRead(ReadError)
    ensures var t := Step(s, e);
      && t.reading && s.replies <= t.replies
      && AnsweredFrom(t.replies, |s.replies|, if e.OnRead? then [e.result.result] else [])
  {
  }

  lemma AnsweredConcat(replies: seq<string>, more: seq<string>, base: nat,
                       a: seq<CallbackResult>, b: seq<CallbackResult>)
    requires AnsweredFrom(replies, base, a) && AnsweredFrom(more, |replies|, b) && replies <= more
    ensures AnsweredFrom(more, base, a + b)
  {
    forall i | 0 <= i < |a + b|
      ensures Answers((a + b)[i], more[base + i])
    {
      if i < |a| {
        assert more[base + i] == replies[base + i];
      } else {
        assert more[base + i] == more[|replies| + (i - |a|)] && (a + b)[i] == b[i - |a|];
      }
    }
  }

  /** One reply for each request, in order. */
  lemma {:induction false} RepliesAnswer(s: State, events: seq<Event>)
    requires s.reading
    ensures s.replies <= After(s, events).replies
    ensures AnsweredFrom(After(s, events).replies, |s.replies|, Requests(events))
    decreases |events|
  {
    if events == [] {
    } else {
      var e := events[0];
      if e == OnRead(Closed) || e == OnRead(ReadError) {
        SilentAfterReading(Step(s, e), events[1..]);
      } else {
        StepReplies(s, e);
        RepliesAnswer(Step(s, e), events[1..]);
        AnsweredConcat(Step(s, e).replies, After(s, events).replies, |s.replies|,
                       if e.OnRead? then [e.result.result] else [], Requests(events[1..]));
      }
    }
  }

  /** What the client has received answers its requests one by one, from the first on, whatever fails meanwhile. */
  lemma RequestsAnswered(events: seq<Event>)
    ensures var written, requests := After(OPEN, events).written, Requests(events);
      |written| <= |requests| && forall i :: 0 <= i < |written| ==> Answers(requests[i], written[i])
  {
    RepliesAnswer(OPEN, events);
    RepliesInOrder(events);
  }

  /** A write has failed exactly when the completion of some outstanding write reported it. */
  lemma {:induction false} FailedExactly(s: State, events: seq<Event>)
    requires Protocol(s) && !s.failed
    ensures After(s, events).failed <==>
            exists k :: 0 <= k < |events| && events[k] == OnWrite(false) && After(s, events[..k]).writing.Some?
    decreases |events|
  {
    if events == [] {
    } else {
      var e, rest := events[0], events[1..];
      var t := Step(s, e);
      StepKeepsProtocol(s, e);
      assert events[..0] == [];
      if t.failed {
        FailureIsFinal(t, rest);
        assert events[0] == OnWrite(false) && After(s, events[..0]).writing.Some?;
      } else {
        FailedExactly(t, rest);
        PrefixesShift(s, events);
      }
    }
  }

  lemma PrefixesShift(s: State, events: seq<Event>)
    requires events != []
    ensures forall k :: 0 <= k < |events[1..]| ==>
                          After(s, events[..k + 1]) == After(Step(s, events[0]), events[1..][..k])
  {
    forall k | 0 <= k < |events[1..]|
      ensures After(s, events[..k + 1]) == After(Step(s, events[0]), events[1..][..k])
    {
      assert events[..k + 1][0] == events[0] && events[..k + 1][1..] == events[1..][..k];
    }
  }

  /** After a failed write nothing is ever written again, though replies keep piling up behind the front. */
  lemma {:induction false} FailureIsFinal(s: State, events: seq<Event>)
    requires Protocol(s) && s.failed
    ensures var t := After(s, events);
      t.failed && t.writing.None? && t.written == s.written && s.queue <= t.queue
    decreases |events|
  {
    if events == [] {
    } else {
      StepKeepsProtocol(s, events[0]);
      FailureIsFinal(Step(s, events[0]), events[1..]);
    }
  }

  /** Without failure, running the posted handlers and completing writes sends every reply. */
  lemma {:induction false} DrainsCompletely(s: State) returns (events: seq<Event>)
    requires Protocol(s) && !s.failed
    ensures forall e :: e in events ==> e == QueueSend || e == OnWrite(true)
    ensures After(s, events).written == s.replies
    decreases |s.posted|, |s.queue|
  {
    if s.posted != [] {
      StepKeepsProtocol(s, QueueSend);
      var rest := DrainsCompletely(Step(s, QueueSend));
      events := [QueueSend] + rest;
      assert events[1..] == rest;
    } else if s.queue != [] {
      StepKeepsProtocol(s, OnWrite(true));
      var rest := DrainsCompletely(Step(s, OnWrite(true)));
      events := [OnWrite(true)] + rest;
      assert events[1..] == rest;
    } else {
      events := [];
      assert s.written + s.queue + s.posted == s.written;
    }
  }

  /* ---------- The session ---------- */

  class Session {
    var mResponseQueue: seq<string>
    /** The operations the session has started and the handlers it has posted. */
    var reading: bool
    var writing: Option<string>
    var posted: seq<string>
    ghost var replies: seq<string>
    ghost var written: seq<string>
    ghost var failed: bool

    ghost function View(): State
      reads this
    {
      State(reading, posted, mResponseQueue, writing, replies, written, failed)
    }

    ghost predicate Valid()
      reads this
    {
      Protocol(View())
    }

    constructor ()
      ensures Valid() && View() == OPEN
    {
      mResponseQueue, posted, replies, written := [], [], [], [];
      reading, writing, failed := true, None, false;
    }

    /** The stream allows one write at a time. */
    method AsyncWrite(text: string)
      requires writing.None?
      modifies this`writing
      ensures writing == Some(text)
    {
      writing := Some(text);
    }

    method Reply(text: string)
      modifies this`posted, this`replies
      ensures posted == old(posted) + [text] && replies == old(replies) + [text]
    {
      posted := posted + [text];
      replies := replies + [text];
    }

    method OnReadHandler(result: ReadResult)
      requires Valid() && Enabled(View(), OnRead(result))
      modifies this
      ensures Valid() && View() == Step(old(View()), OnRead(result))
      ensures reading <==> result.Message?
      ensures result.Message? ==>
        |posted| == |old(posted)| + 1 && old(posted) < posted && Answers(result.result, posted[|old(posted)|])
    {
      StepKeepsProtocol(View(), OnRead(result));
      match result
      case Closed => reading := false;
      case ReadError => reading := false;
      case Message(r) => Reply(ReplyTo(r));
    }

    method QueueSendHandler()
      requires Valid() && Enabled(View(), QueueSend)
      modifies this
      ensures Valid() && View() == Step(old(View()), QueueSend)
    {
      StepKeepsProtocol(View(), QueueSend);
      var response := posted[0];
      posted := posted[1..];
      mResponseQueue := mResponseQueue + [response];
      if |mResponseQueue| > 1 { return; }
      if mResponseQueue != [] {
        AsyncWrite(mResponseQueue[0]);
      }
    }

    method OnWriteHandler(ok: bool)
      requires Valid() && Enabled(View(), OnWrite(ok))
      modifies this
      ensures Valid() && View() == Step(old(View()), OnWrite(ok))
    {
      StepKeepsProtocol(View(), OnWrite(ok));
      ghost var text := writing.value;
      writing := None;
      if !ok {
        failed := true;
        return;
      }
      mResponseQueue := mResponseQueue[1..];
      written := written + [text];
      if mResponseQueue != [] {
        AsyncWrite(mResponseQueue[0]);
      }
    }
  }
}
