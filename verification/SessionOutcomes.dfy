/** What one write, one batch of events and one posted task do to a session, told from the
    script, the queue and the bytes: how many bytes go out, which frames finish, what is
    delivered, when the session closes, and what it says when it does. */
module SessionOutcomes {
  import opened Bits
  import opened Codec
  import opened Framing
  import opened SessionModel
  import opened SessionTheorems
  import opened Wrappers

  /** A session that has been started and neither closed nor failed. */
  predicate Running(s: State) { s.open && s.registered && s.fd != -1 && s.failure == None }

  // ------------------------------------------------------- a queue as bytes to send

  function Remaining(f: OutgoingFrame): positive { |f.bytes| - f.written }

  /** The bytes of a queue the kernel has not taken. */
  function Unwritten(q: seq<OutgoingFrame>): seq<byte>
  {
    if q == [] then [] else q[0].bytes[q[0].written..] + Unwritten(q[1..])
  }

  /** The queue when `n` more of its bytes are out. */
  function After(q: seq<OutgoingFrame>, n: nat): seq<OutgoingFrame>
  {
    if q == [] then []
    else if n < Remaining(q[0]) then [q[0].(written := q[0].written + n)] + q[1..]
    else After(q[1..], n - Remaining(q[0]))
  }

  /** How many bytes the kernel takes before it would block, or fails, or nothing is left. */
  function Taken(q: seq<OutgoingFrame>, script: seq<SendResult>): nat
    decreases |script|
  {
    if q == [] || script == [] then 0
    else
      match script[0]
      case Accepts(k) =>
        var n := if k < Remaining(q[0]) then k else Remaining(q[0]);
        n + Taken(After(q, n), script[1..])
      case SendInterrupted => Taken(q, script[1..])
      case SendAgain => 0
      case SendError(_) => 0
  }

  /** The error met while bytes remain, if one comes before the first would-block. */
  function ErrorMet(q: seq<OutgoingFrame>, script: seq<SendResult>): Option<positive>
    decreases |script|
  {
    if q == [] || script == [] then None
    else
      match script[0]
      case Accepts(k) => ErrorMet(After(q, if k < Remaining(q[0]) then k else Remaining(q[0])), script[1..])
      case SendInterrupted => ErrorMet(q, script[1..])
      case SendAgain => None
      case SendError(e) => Some(e)
  }

  /** The write handlers of the frames, in order, each called with `code`. */
  function Completions(q: seq<OutgoingFrame>, code: ErrorCode): (log: seq<Effect>)
    ensures |log| == |q|
  {
    seq(|q|, i requires 0 <= i < |q| => Complete(q[i].token, code))
  }

  /** The frames of a queue that are finished when only `left` remain of it. */
  function Finished(q: seq<OutgoingFrame>, left: seq<OutgoingFrame>): seq<OutgoingFrame>
  {
    if |left| <= |q| then q[..|q| - |left|] else []
  }

  /** What a closing session says: its failure, if any, goes to the frames in the queue
      before the descriptor is given up; without one they learn after it that the session
      is not connected. */
  function Farewell(fd: int, q: seq<OutgoingFrame>, failure: Option<ErrorCode>): seq<Effect>
  {
    match failure
    case Some(code) => Completions(q, code) + [Deregister(fd), CloseFd(fd), CloseHandler]
    case None => [Deregister(fd), CloseFd(fd)] + Completions(q, NotConnected) + [CloseHandler]
  }

  /** The session closed, with or without a failure. */
  function Closed(s: State, failure: Option<ErrorCode>): State
  {
    s.(open := false, fd := -1, registered := false, writeQueue := [],
       failure := if failure.Some? then failure else s.failure,
       log := s.log + Farewell(s.fd, s.writeQueue, failure))
  }

  /** The session when `n` more bytes of its queue are out. */
  function Written(s: State, n: nat): State
    requires n <= |Unwritten(s.writeQueue)|
  {
    var left := After(s.writeQueue, n);
    s.(sent := s.sent + Unwritten(s.writeQueue)[..n], writeQueue := left,
       log := s.log + Completions(Finished(s.writeQueue, left), Success))
  }

  lemma {:induction false} FailAllIs(q: seq<OutgoingFrame>, code: ErrorCode)
    ensures FailAll(q, code) == Completions(q, code)
    decreases |q|
  {
    if q != [] {
      FailAllIs(q[1..], code);
      assert Completions(q, code) == [Complete(q[0].token, code)] + Completions(q[1..], code);
    }
  }

  /** Closing, in the source's order, and once. */
  lemma CloseIs(s: State)
    requires s.open && s.registered && s.fd != -1
    ensures CloseFromLoop(s) == Closed(s, None)
  {
    FailAllIs(s.writeQueue, NotConnected);
    hide FailAll, Completions;
    var f := FailAll(s.writeQueue, NotConnected);
    assert s.log + [Deregister(s.fd)] + [CloseFd(s.fd)] + f + [CloseHandler]
        == s.log + ([Deregister(s.fd), CloseFd(s.fd)] + f + [CloseHandler]);
  }

  lemma FailIs(s: State, code: ErrorCode)
    requires s.open && s.registered && s.fd != -1
    ensures FailAndClose(s, code) == Closed(s, Some(code))
  {
    FailAllIs(s.writeQueue, code);
    var f := Completions(s.writeQueue, code);
    var u := s.(writeQueue := [], failure := Some(code), log := s.log + f);
    CloseIs(u);
    assert Completions([], NotConnected) == [];
    hide FailAll, Completions, CloseFromLoop;
    assert FailAndClose(s, code) == Closed(u, None);
    assert [Deregister(s.fd), CloseFd(s.fd)] + [] + [CloseHandler] == [Deregister(s.fd), CloseFd(s.fd), CloseHandler];
    assert (s.log + f) + [Deregister(s.fd), CloseFd(s.fd), CloseHandler]
        == s.log + (f + [Deregister(s.fd), CloseFd(s.fd), CloseHandler]);
  }

  // ----------------------------------------------------------------- one write

  lemma {:induction false} AfterIs(q: seq<OutgoingFrame>, n: nat)
    requires n <= |Unwritten(q)|
    ensures |After(q, n)| <= |q| && Unwritten(After(q, n)) == Unwritten(q)[n..]
    ensures After(q, n) == [] <==> n == |Unwritten(q)|
    decreases |q|
  {
    if q != [] {
      var f := q[0].bytes[q[0].written..];
      assert |f| == Remaining(q[0]);
      if n < |f| {
        var g := q[0].(written := q[0].written + n);
        assert After(q, n)[1..] == q[1..];
        assert (f + Unwritten(q[1..]))[n..] == f[n..] + Unwritten(q[1..]);
        assert g.bytes[g.written..] == f[n..];
      } else {
        AfterIs(q[1..], n - |f|);
        assert (f + Unwritten(q[1..]))[n..] == Unwritten(q[1..])[n - |f|..];
      }
    }
  }

  /** Bytes taken in two goes are taken at once. */
  lemma {:induction false} AfterAdds(q: seq<OutgoingFrame>, a: nat, b: nat)
    requires a <= |Unwritten(q)| && b <= |Unwritten(q)| - a
    ensures After(After(q, a), b) == After(q, a + b)
    decreases |q|
  {
    if q != [] {
      assert |q[0].bytes[q[0].written..]| == Remaining(q[0]);
      if a < Remaining(q[0]) {
        var p := After(q, a);
        assert p[1..] == q[1..] && Remaining(p[0]) == Remaining(q[0]) - a;
      } else {
        AfterAdds(q[1..], a - Remaining(q[0]), b);
      }
    }
  }

  /** The frames kept are the last ones, so their tokens are the last. */
  lemma {:induction false} AfterTokens(q: seq<OutgoingFrame>, n: nat)
    ensures |After(q, n)| <= |q|
    ensures forall i :: 0 <= i < |After(q, n)| ==> After(q, n)[i].token == q[|q| - |After(q, n)| + i].token
    decreases |q|
  {
    if q != [] && n >= Remaining(q[0]) {
      var rest, left := q[1..], After(q, n);
      AfterTokens(rest, n - Remaining(q[0]));
      hide After;
      forall i | 0 <= i < |left| ensures left[i].token == q[|q| - |left| + i].token {
        assert rest[|rest| - |left| + i] == q[|q| - |left| + i];
      }
    }
  }

  lemma FinishedAdds(q: seq<OutgoingFrame>, a: nat, b: nat)
    requires a <= |Unwritten(q)| && b <= |Unwritten(q)| - a
    ensures var p, r := After(q, a), After(q, a + b);
      Completions(Finished(q, p), Success) + Completions(Finished(p, r), Success)
      == Completions(Finished(q, r), Success)
  {
    AfterAdds(q, a, b);
    AfterIs(q, a);
    AfterIs(After(q, a), b);
    AfterTokens(q, a);
    hide After, Unwritten;
  }

  lemma WrittenAdds(s: State, a: nat, b: nat)
    requires a <= |Unwritten(s.writeQueue)| && b <= |Unwritten(s.writeQueue)| - a
    ensures b <= |Unwritten(Written(s, a).writeQueue)|
    ensures Written(Written(s, a), b) == Written(s, a + b)
  {
    var q := s.writeQueue;
    AfterIs(q, a);
    AfterAdds(q, a, b);
    FinishedAdds(q, a, b);
    hide After, Unwritten, Completions, Finished;
    TwoSlices(s.sent, Unwritten(q), a, b);
    var p, r := After(q, a), After(q, a + b);
    ConcatAssociates(s.log, Completions(Finished(q, p), Success), Completions(Finished(p, r), Success));
  }

  lemma TwoSlices(sent: seq<byte>, u: seq<byte>, a: nat, b: nat)
    requires a <= |u| && b <= |u| - a
    ensures sent + u[..a] + u[a..][..b] == sent + u[..a + b]
  {
  }

  lemma ConcatAssociates<T>(a: seq<T>, b: seq<T>, c: seq<T>)
    ensures (a + b) + c == a + (b + c)
  {
  }

  lemma TakeIs(s: State, k: positive)
    requires s.writeQueue != []
    ensures var n := if k < Remaining(s.writeQueue[0]) then k else Remaining(s.writeQueue[0]);
      n <= |Unwritten(s.writeQueue)| && Take(s, k) == Written(s, n)
  {
    var q, f := s.writeQueue, s.writeQueue[0];
    var left := f.bytes[f.written..];
    var u := left + Unwritten(q[1..]);
    assert |left| == Remaining(f);
    if k < Remaining(f) {
      assert u[..k] == f.bytes[f.written..f.written + k];
      assert Completions([], Success) == [] && s.log + [] == s.log;
    } else {
      assert u[..|left|] == left;
      assert After(q, |left|) == After(q[1..], 0) == q[1..] by { AfterZero(q[1..]); }
      assert Finished(q, q[1..]) == [f];
      assert Completions([f], Success) == [Complete(f.token, Success)];
    }
  }

  lemma AfterZero(q: seq<OutgoingFrame>)
    ensures After(q, 0) == q
  {
    if q != [] { assert q == [q[0]] + q[1..]; }
  }

  lemma WrittenZero(s: State)
    ensures Written(s, 0) == s
  {
    AfterZero(s.writeQueue);
    assert Completions([], Success) == [];
    assert s.sent + [] == s.sent && s.log + [] == s.log;
  }

  /** One call of the write loop, whatever the kernel answers: the bytes it takes go out in
      order, the frames they finish complete with success, and the session stays open and
      watches for writability while bytes are left, unless an error was met. */
  lemma {:induction false} WriteIs(s: State, script: seq<SendResult>)
    requires Running(s)
    ensures Taken(s.writeQueue, script) <= |Unwritten(s.writeQueue)|
    ensures var w, e := Written(s, Taken(s.writeQueue, script)), ErrorMet(s.writeQueue, script);
      AsyncWrite(s, script) ==
        if e.Some? then Closed(w, Some(SystemError(e.value))) else w.(epollOut := w.writeQueue != [])
    decreases |script|
  {
    hide Written, Closed, FailAndClose, Take, After, Unwritten;
    WrittenZero(s);
    WrittenKeeps(s, 0);
    if s.writeQueue != [] && script != [] {
      match script[0]
      case Accepts(k) =>
        var n := if k < Remaining(s.writeQueue[0]) then k else Remaining(s.writeQueue[0]);
        TakeIs(s, k);
        WrittenKeeps(s, n);
        AfterIs(s.writeQueue, n);
        WriteIs(Take(s, k), script[1..]);
        WrittenAdds(s, n, Taken(After(s.writeQueue, n), script[1..]));
      case SendInterrupted => WriteIs(s, script[1..]);
      case SendAgain =>
      case SendError(e) => FailIs(s, SystemError(e));
    }
  }

  lemma WrittenKeeps(s: State, n: nat)
    requires n <= |Unwritten(s.writeQueue)|
    ensures var w := Written(s, n);
      && w.open == s.open && w.registered == s.registered && w.fd == s.fd && w.failure == s.failure
      && w.writeQueue == After(s.writeQueue, n)
  {
  }

  /** What the caller sees of one write: when it closes, what it sent, which handlers ran. */
  lemma WriteOutcome(s: State, script: seq<SendResult>)
    requires Running(s)
    ensures var q, t := s.writeQueue, AsyncWrite(s, script);
      var n, e := Taken(q, script), ErrorMet(q, script);
      && n <= |Unwritten(q)| && t.sent == s.sent + Unwritten(q)[..n]
      && (t.open <==> e == None)
      && t.received == s.received && t.readBuffer == s.readBuffer && t.enqueued == s.enqueued
      && (t.open ==> Running(t) && t.writeQueue == After(q, n) && t.epollOut == (n < |Unwritten(q)|)
                     && t.log == s.log + Completions(Finished(q, After(q, n)), Success))
      && (!t.open ==> t.failure == Some(SystemError(e.value)) && t.writeQueue == []
                      && t.log == s.log + Completions(Finished(q, After(q, n)), Success)
                                  + Completions(After(q, n), SystemError(e.value))
                                  + [Deregister(s.fd), CloseFd(s.fd), CloseHandler])
  {
    hide Taken, ErrorMet, After, Unwritten, Finished, Completions, AsyncWrite;
    var q := s.writeQueue;
    var n := Taken(q, script);
    WriteIs(s, script);
    AfterIs(q, n);
    if ErrorMet(q, script).Some? {
      var a, b := Completions(Finished(q, After(q, n)), Success),
        Completions(After(q, n), SystemError(ErrorMet(q, script).value));
      var c := [Deregister(s.fd), CloseFd(s.fd), CloseHandler];
      assert s.log + a + (b + c) == s.log + a + b + c;
    }
  }

  // ------------------------------------------------------------------ one read

  /** The error a read ends in, if it ends in one; an end of file is none. */
  function ReadFailure(script: seq<RecvResult>): Option<ErrorCode>
  {
    if script == [] then None
    else if script[0].Data? || script[0].RecvInterrupted? then ReadFailure(script[1..])
    else if script[0].RecvError? then Some(SystemError(script[0].errno))
    else None
  }

  /** The session when its buffer has been parsed, up to a failure. */
  function Parsed(s: State): State
  {
    var d := Drain(s.readBuffer);
    s.(readBuffer := d.rest, log := s.log + Deliveries(d.messages))
  }

  lemma {:induction false} ReadStateIs(s: State, script: seq<RecvResult>)
    requires Running(s)
    ensures var u := Received(s, DataOf(script));
      var d := Drain(u.readBuffer);
      AsyncRead(s, script) ==
        if EndsInClose(script) then Closed(u, ReadFailure(script))
        else if d.outcome == Fine then Parsed(u)
        else Closed(Parsed(u), CodeOf(d.outcome))
    decreases |script|
  {
    hide Closed, CloseFromLoop, FailAndClose, Drain, Deliveries;
    if script == [] || script[0].RecvAgain? {
      assert Received(s, []) == s;
      FailIs(Parsed(s), MessageSize);
      FailIs(Parsed(s), ProtocolError);
    } else {
      match script[0]
      case Data(chunk) =>
        ReadStateIs(Receive(s, chunk), script[1..]);
        assert Received(Receive(s, chunk), DataOf(script[1..])) == Received(s, DataOf(script)) by {
          assert s.readBuffer + chunk + DataOf(script[1..]) == s.readBuffer + DataOf(script);
          assert s.received + chunk + DataOf(script[1..]) == s.received + DataOf(script);
        }
      case RecvInterrupted => ReadStateIs(s, script[1..]);
      case Eof =>
        assert Received(s, []) == s;
        CloseIs(s);
      case RecvError(e) =>
        assert Received(s, []) == s;
        FailIs(s, SystemError(e));
    }
  }

  /** The read closes the session. */
  predicate ReadCloses(s: State, script: seq<RecvResult>)
  {
    EndsInClose(script) || Drain(s.readBuffer + DataOf(script)).outcome != Fine
  }

  /** The error a read fails with: the kernel's, or what the bytes call for. */
  function ReadError(s: State, script: seq<RecvResult>): Option<ErrorCode>
  {
    if EndsInClose(script) then ReadFailure(script) else CodeOf(Drain(s.readBuffer + DataOf(script)).outcome)
  }

  lemma ReadOutcome(s: State, script: seq<RecvResult>)
    requires Running(s)
    ensures var t, d := AsyncRead(s, script), Drain(s.readBuffer + DataOf(script));
      var got := if EndsInClose(script) then [] else d.messages;
      && t.sent == s.sent && t.received == s.received + DataOf(script)
      && (t.open <==> !ReadCloses(s, script))
      && (t.open ==> Running(t) && t.writeQueue == s.writeQueue && t.epollOut == s.epollOut && t.readBuffer == d.rest
                     && t.log == s.log + Deliveries(got))
      && (!t.open ==> t.failure == ReadError(s, script)
                      && t.log == s.log + Deliveries(got) + Farewell(s.fd, s.writeQueue, ReadError(s, script)))
  {
    hide Drain, Farewell, AsyncRead, Deliveries;
    ReadStateIs(s, script);
    NoDeliveries(s.log);
  }

  lemma NoDeliveries(log: seq<Effect>)
    ensures log + Deliveries([]) == log
  {
  }

  // --------------------------------------------------------- one batch of events

  function IfReadable(ev: Readiness, s: State, rs: seq<RecvResult>): seq<RpcMessage>
  {
    if !ev.readable || EndsInClose(rs) then [] else Drain(s.readBuffer + DataOf(rs)).messages
  }

  /** The session is still there to write after its reading. */
  predicate Survives(s: State, ev: Readiness, rs: seq<RecvResult>)
  {
    !ev.errOrHup && (ev.readable ==> !ReadCloses(s, rs))
  }

  lemma CompletionsCollect(q: seq<OutgoingFrame>, code: ErrorCode)
    ensures Collect(MessageOf, Completions(q, code)) == []
    ensures Collect(SuccessOf, Completions(q, code)) == if code == Success then Tokens(q) else []
    decreases |q|
  {
    if q != [] {
      CompletionsCollect(q[1..], code);
      assert Completions(q, code)[1..] == Completions(q[1..], code);
    }
  }

  lemma FarewellCollects(fd: int, q: seq<OutgoingFrame>, failure: Option<ErrorCode>)
    requires failure != Some(Success)
    ensures Collect(MessageOf, Farewell(fd, q, failure)) == []
    ensures Collect(SuccessOf, Farewell(fd, q, failure)) == []
  {
    hide Collect, Completions;
    var code := if failure.Some? then failure.value else NotConnected;
    CompletionsCollect(q, code);
    var a, b := [Deregister(fd), CloseFd(fd)], Completions(q, code);
    LogAppend([Deregister(fd)], [CloseFd(fd)]);
    assert [Deregister(fd)] + [CloseFd(fd)] == a;
    SingleCollects(Deregister(fd));
    SingleCollects(CloseFd(fd));
    SingleCollects(CloseHandler);
    LogAppend(a, b);
    LogAppend(a + b, [CloseHandler]);
    LogAppend(a, [CloseHandler]);
    LogAppend(b, a + [CloseHandler]);
    assert a + [CloseHandler] == [Deregister(fd), CloseFd(fd), CloseHandler];
  }

  /** What any state appended to the log means for its readings. */
  lemma ClosedReadings(s: State, failure: Option<ErrorCode>)
    requires failure != Some(Success)
    ensures Delivered(Closed(s, failure)) == Delivered(s) && Successes(Closed(s, failure)) == Successes(s)
  {
    hide Collect, Farewell;
    LogAppend(s.log, Farewell(s.fd, s.writeQueue, failure));
    FarewellCollects(s.fd, s.writeQueue, failure);
  }

  lemma WrittenReadings(s: State, n: nat)
    requires n <= |Unwritten(s.writeQueue)|
    ensures Delivered(Written(s, n)) == Delivered(s)
    ensures Successes(Written(s, n)) == Successes(s) + Tokens(Finished(s.writeQueue, After(s.writeQueue, n)))
  {
    hide Collect, Completions, Finished, After, Unwritten;
    var done := Finished(s.writeQueue, After(s.writeQueue, n));
    LogAppend(s.log, Completions(done, Success));
    CompletionsCollect(done, Success);
  }

  /** A write's effect on the readings of the log. */
  lemma WriteReadings(s: State, script: seq<SendResult>)
    requires Running(s)
    ensures var q, t := s.writeQueue, AsyncWrite(s, script);
      && Delivered(t) == Delivered(s)
      && Successes(t) == Successes(s) + Tokens(Finished(q, After(q, Taken(q, script))))
  {
    hide Taken, ErrorMet, After, Unwritten, Finished, AsyncWrite, Written, Closed, Delivered, Successes, Tokens;
    WriteIs(s, script);
    var w := Written(s, Taken(s.writeQueue, script));
    WrittenReadings(s, Taken(s.writeQueue, script));
    if ErrorMet(s.writeQueue, script).Some? {
      ClosedReadings(w, Some(SystemError(ErrorMet(s.writeQueue, script).value)));
    } else {
      var t := w.(epollOut := w.writeQueue != []);
      assert Delivered(t) == Delivered(w) && Successes(t) == Successes(w) by { SameLog(w, t); }
    }
  }

  lemma SameLog(s: State, t: State)
    requires s.log == t.log
    ensures Delivered(s) == Delivered(t) && Successes(s) == Successes(t)
  {
  }

  /** A read's. */
  lemma ReadReadings(s: State, script: seq<RecvResult>)
    requires Running(s)
    ensures var t, d := AsyncRead(s, script), Drain(s.readBuffer + DataOf(script));
      && Delivered(t) == Delivered(s) + (if EndsInClose(script) then [] else d.messages)
      && Successes(t) == Successes(s)
  {
    hide Drain, Farewell, AsyncRead, Collect, Closed, Deliveries;
    ReadStateIs(s, script);
    var u := Received(s, DataOf(script));
    var d := Drain(u.readBuffer);
    SameLog(s, u);
    LogAppend(s.log, Deliveries(d.messages));
    DeliveriesCollect(d.messages);
    if EndsInClose(script) {
      ReadFailureIsSystem(script);
      ClosedReadings(u, ReadFailure(script));
    } else if d.outcome != Fine {
      ClosedReadings(Parsed(u), CodeOf(d.outcome));
    }
  }

  lemma {:induction false} ReadFailureIsSystem(script: seq<RecvResult>)
    ensures ReadFailure(script).Some? ==> ReadFailure(script).value.SystemError?
    decreases |script|
  {
    if script != [] { ReadFailureIsSystem(script[1..]); }
  }

  /** One batch of events, per bit: what is delivered, what goes out, which sends succeed,
      and exactly when the session closes and with what error. */
  lemma EventOutcome(s: State, ev: Readiness, rs: seq<RecvResult>, ws: seq<SendResult>)
    requires Running(s)
    ensures var t, q := HandleEvents(s, ev, rs, ws), s.writeQueue;
      var n := if Survives(s, ev, rs) && ev.writable then Taken(q, ws) else 0;
      && n <= |Unwritten(q)|
      && t.sent == s.sent + Unwritten(q)[..n] && Successes(t) == Successes(s) + Tokens(Finished(q, After(q, n)))
      && Delivered(t) == Delivered(s) + (if ev.errOrHup then [] else IfReadable(ev, s, rs))
      && t.received == s.received + (if ev.errOrHup || !ev.readable then [] else DataOf(rs))
      && (t.open ==> t.writeQueue == After(q, n))
    ensures !HandleEvents(s, ev, rs, ws).open <==>
      || ev.errOrHup || ev.peerClosed
      || (ev.readable && ReadCloses(s, rs))
      || (ev.writable && ErrorMet(s.writeQueue, ws).Some?)
    ensures HandleEvents(s, ev, rs, ws).failure ==
      if ev.errOrHup then None
      else if ev.readable && ReadCloses(s, rs) then ReadError(s, rs)
      else if ev.writable && ErrorMet(s.writeQueue, ws).Some? then
        Some(SystemError(ErrorMet(s.writeQueue, ws).value))
      else None
  {
    hide Drain, AsyncRead, AsyncWrite, Collect, Deliveries, Taken, ErrorMet, After, Unwritten, Finished;
    hide CloseFromLoop, Farewell, Completions, ReadError, EndsInClose, DataOf, Tokens, Delivered, Successes;
    var q := s.writeQueue;
    NothingTaken(s);
    if ev.errOrHup {
      CloseIs(s);
      ClosedReadings(s, None);
    } else {
      var a := if ev.readable then AsyncRead(s, rs) else s;
      if ev.readable {
        ReadOutcome(s, rs);
        ReadReadings(s, rs);
      }
      if a.open && ev.writable {
        WriteOutcome(a, ws);
        WriteReadings(a, ws);
      }
      var b := if a.open && ev.writable then AsyncWrite(a, ws) else a;
      if b.open {
        CloseIs(b);
        ClosedReadings(b, None);
      }
    }
  }

  lemma NothingTaken(s: State)
    ensures Unwritten(s.writeQueue)[..0] == [] && s.sent + [] == s.sent && s.received + [] == s.received
    ensures Delivered(s) + [] == Delivered(s) && Successes(s) + [] == Successes(s)
    ensures After(s.writeQueue, 0) == s.writeQueue
    ensures Tokens(Finished(s.writeQueue, s.writeQueue)) == []
  {
    AfterZero(s.writeQueue);
  }

  // ------------------------------------------------------------ one posted task

  function Outgoing(frame: WireFrame, token: nat): OutgoingFrame { Pending(frame, 0, token) }

  /** One posted task: a close closes; a send on a closed session completes as not connected;
      on an open one its frame joins the queue, which is written at once. */
  lemma TaskOutcome(s: State, task: Task, ws: seq<SendResult>)
    requires s.open ==> Running(s)
    ensures task.CloseTask? ==> RunTask(s, task, ws) == if s.open then Closed(s, None) else s
    ensures task.SendTask? && !s.open ==>
      RunTask(s, task, ws) == s.(log := s.log + [Complete(task.token, NotConnected)])
    ensures task.SendTask? && s.open ==>
      var t, f := RunTask(s, task, ws), Outgoing(task.frame, task.token);
      var q := s.writeQueue + [f];
      var n, e := Taken(q, ws), ErrorMet(q, ws);
      && n <= |Unwritten(q)| && t.sent == s.sent + Unwritten(q)[..n] && t.received == s.received
      && t.enqueued == s.enqueued + [f] && t.readBuffer == s.readBuffer
      && (t.open <==> e == None)
      && (t.open ==> Running(t) && t.writeQueue == After(q, n))
      && (!t.open ==> t.failure == Some(SystemError(e.value)))
      && Delivered(t) == Delivered(s) && Successes(t) == Successes(s) + Tokens(Finished(q, After(q, n)))
  {
    hide Taken, ErrorMet, After, Unwritten, Finished, Tokens, Delivered, Successes, AsyncWrite, CloseFromLoop, Closed;
    match task
    case CloseTask =>
      if s.open { CloseIs(s); } else { ClosedStaysClosed(s); }
    case SendTask(frame, token) =>
      if s.open {
        var a := UpdateEvents(Enqueue(s, frame, token));
        WriteOutcome(a, ws);
        WriteReadings(a, ws);
        SameLog(s, a);
      }
  }

  lemma ClosedStaysClosed(s: State)
    requires !s.open
    ensures CloseFromLoop(s) == s
  {
  }

  // ------------------------------------------ when everything asked of it is done

  /** Enough acceptances to empty a queue: one for each frame, of its whole size or more. */
  predicate Empties(q: seq<OutgoingFrame>, script: seq<SendResult>)
  {
    |q| <= |script| && forall i :: 0 <= i < |q| ==> script[i].Accepts? && script[i].count >= Remaining(q[i])
  }

  lemma {:induction false} EmptyingTakesAll(q: seq<OutgoingFrame>, script: seq<SendResult>)
    requires Empties(q, script)
    ensures Taken(q, script) == |Unwritten(q)| && ErrorMet(q, script) == None
    decreases |q|
  {
    if q != [] {
      assert After(q, Remaining(q[0])) == q[1..] by { AfterZero(q[1..]); }
      forall i | 0 <= i < |q[1..]| ensures script[1..][i].Accepts? && script[1..][i].count >= Remaining(q[1..][i]) {
        assert script[1..][i] == script[i + 1] && q[1..][i] == q[i + 1];
      }
      EmptyingTakesAll(q[1..], script[1..]);
    }
  }

  function EmptyingScript(q: seq<OutgoingFrame>): (script: seq<SendResult>)
    ensures Empties(q, script)
  {
    seq(|q|, i requires 0 <= i < |q| => Accepts(Remaining(q[i])))
  }

  /** Bytes as the chunks a kernel may return. */
  function ChunksOf(data: seq<byte>): (script: seq<RecvResult>)
    ensures DataOf(script) == data && !EndsInClose(script)
  {
    if data == [] then []
    else if |data| <= 8192 then
      var c: Chunk := data;
      assert DataOf([Data(c)][1..]) == [] && !EndsInClose([Data(c)][1..]);
      assert c + [] == data;
      [Data(c)]
    else
      var c: Chunk := data[..8192];
      var rest := ChunksOf(data[8192..]);
      assert ([Data(c)] + rest)[1..] == rest;
      [Data(c)] + rest
  }
}
