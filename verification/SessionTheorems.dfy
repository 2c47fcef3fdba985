/** What every run of a session keeps. */
module SessionTheorems {
  import opened Bits
  import opened Codec
  import opened Framing
  import opened SessionModel
  import opened Wrappers

  // -------------------------------------------------------- reading the log

  function Collect<T>(f: Effect -> Option<T>, log: seq<Effect>): seq<T>
  {
    if log == [] then []
    else
      (match f(log[0]) case None => [] case Some(x) => [x]) + Collect(f, log[1..])
  }

  lemma {:induction false} CollectConcat<T>(f: Effect -> Option<T>, a: seq<Effect>, b: seq<Effect>)
    ensures Collect(f, a + b) == Collect(f, a) + Collect(f, b)
    decreases |a|
  {
    if a == [] {
      assert a + b == b;
    } else {
      assert (a + b)[1..] == a[1..] + b;
      CollectConcat(f, a[1..], b);
    }
  }

  function MessageOf(e: Effect): Option<RpcMessage>
  {
    if e.Deliver? then Some(e.message) else None
  }

  function TokenOf(e: Effect): Option<nat>
  {
    if e.Complete? then Some(e.token) else None
  }

  function SuccessOf(e: Effect): Option<nat>
  {
    if e.Complete? && e.code == Success then Some(e.token) else None
  }

  function ClosingOf(e: Effect): Option<Effect>
  {
    if e.Deliver? || e.Complete? then None else Some(e)
  }

  /** The messages handed to the message handler, in order. */
  function Delivered(s: State): seq<RpcMessage> { Collect(MessageOf, s.log) }

  /** The tokens of completed writes, and of those completed with success, in order. */
  function Completed(s: State): seq<nat> { Collect(TokenOf, s.log) }

  function Successes(s: State): seq<nat> { Collect(SuccessOf, s.log) }

  function Closings(s: State): seq<Effect> { Collect(ClosingOf, s.log) }

  function Tokens(q: seq<OutgoingFrame>): seq<nat>
  {
    if q == [] then [] else [q[0].token] + Tokens(q[1..])
  }

  lemma {:induction false} FailAllCollects(q: seq<OutgoingFrame>, code: ErrorCode)
    requires code != Success
    ensures Collect(MessageOf, FailAll(q, code)) == []
    ensures Collect(TokenOf, FailAll(q, code)) == Tokens(q)
    ensures Collect(SuccessOf, FailAll(q, code)) == []
    ensures Collect(ClosingOf, FailAll(q, code)) == []
    decreases |q|
  {
    if q != [] {
      FailAllCollects(q[1..], code);
      assert FailAll(q, code)[1..] == FailAll(q[1..], code);
    }
  }

  lemma {:induction false} DeliveriesCollect(ms: seq<RpcMessage>)
    ensures Collect(MessageOf, Deliveries(ms)) == ms
    ensures Collect(TokenOf, Deliveries(ms)) == []
    ensures Collect(SuccessOf, Deliveries(ms)) == []
    ensures Collect(ClosingOf, Deliveries(ms)) == []
    decreases |ms|
  {
    if ms != [] {
      DeliveriesCollect(ms[1..]);
      assert Deliveries(ms)[1..] == Deliveries(ms[1..]);
    }
  }

  lemma SingleCollects(e: Effect)
    ensures Collect(MessageOf, [e]) == if e.Deliver? then [e.message] else []
    ensures Collect(TokenOf, [e]) == if e.Complete? then [e.token] else []
    ensures Collect(SuccessOf, [e]) == if e.Complete? && e.code == Success then [e.token] else []
    ensures Collect(ClosingOf, [e]) == if e.Deliver? || e.Complete? then [] else [e]
  {
    assert [e][1..] == [];
  }

  /** What appending to the log does to each of the four readings. */
  lemma LogAppend(log: seq<Effect>, more: seq<Effect>)
    ensures Collect(MessageOf, log + more) == Collect(MessageOf, log) + Collect(MessageOf, more)
    ensures Collect(TokenOf, log + more) == Collect(TokenOf, log) + Collect(TokenOf, more)
    ensures Collect(SuccessOf, log + more) == Collect(SuccessOf, log) + Collect(SuccessOf, more)
    ensures Collect(ClosingOf, log + more) == Collect(ClosingOf, log) + Collect(ClosingOf, more)
  {
    CollectConcat(MessageOf, log, more);
    CollectConcat(TokenOf, log, more);
    CollectConcat(SuccessOf, log, more);
    CollectConcat(ClosingOf, log, more);
  }

  lemma CloseReadings(s: State)
    requires s.open && s.registered && s.fd != -1
    ensures var t := CloseFromLoop(s);
      && Delivered(t) == Delivered(s) && Successes(t) == Successes(s)
      && Completed(t) == Completed(s) + Tokens(s.writeQueue)
      && Closings(t) == Closings(s) + [Deregister(s.fd), CloseFd(s.fd), CloseHandler]
  {
    hide Collect;
    var l1 := s.log + [Deregister(s.fd)];
    var l2 := l1 + [CloseFd(s.fd)];
    var l3 := l2 + FailAll(s.writeQueue, NotConnected);
    LogAppend(s.log, [Deregister(s.fd)]);
    SingleCollects(Deregister(s.fd));
    LogAppend(l1, [CloseFd(s.fd)]);
    SingleCollects(CloseFd(s.fd));
    LogAppend(l2, FailAll(s.writeQueue, NotConnected));
    FailAllCollects(s.writeQueue, NotConnected);
    LogAppend(l3, [CloseHandler]);
    SingleCollects(CloseHandler);
  }

  lemma FailReadings(s: State, code: ErrorCode)
    requires s.open && s.registered && s.fd != -1 && code != Success
    ensures var t := FailAndClose(s, code);
      && Delivered(t) == Delivered(s) && Successes(t) == Successes(s)
      && Completed(t) == Completed(s) + Tokens(s.writeQueue)
      && Closings(t) == Closings(s) + [Deregister(s.fd), CloseFd(s.fd), CloseHandler]
  {
    hide Collect;
    var f := FailAll(s.writeQueue, code);
    LogAppend(s.log, f);
    FailAllCollects(s.writeQueue, code);
    CloseReadings(s.(writeQueue := [], failure := Some(code), log := s.log + f));
  }

  // ------------------------------------------------------- the write queue as a stream

  function BytesOf(q: seq<OutgoingFrame>): seq<byte>
  {
    if q == [] then [] else BytesOf(q[..|q| - 1]) + q[|q| - 1].bytes
  }

  /** The bytes given to the kernel are the completed frames, in queueing order, and then a
      proper prefix of the next one; while open, the queue holds the frames not completed
      and only its front may be partly written. */
  ghost predicate StreamInv(s: State)
  {
    StreamOf(s.enqueued, Successes(s), s.sent, s.writeQueue, s.open)
  }

  ghost predicate StreamOf(enqueued: seq<OutgoingFrame>, succeeded: seq<nat>, sent: seq<byte>,
                           queue: seq<OutgoingFrame>, open: bool)
  {
    var k := |succeeded|;
    && k <= |enqueued|
    && (forall i :: 0 <= i < k ==> succeeded[i] == enqueued[i].token)
    && (forall i :: 0 <= i < |enqueued| ==> enqueued[i].written == 0)
    && BytesOf(enqueued[..k]) <= sent
    && var part := sent[|BytesOf(enqueued[..k])|..];
    && (k == |enqueued| ==> part == [])
    && (k < |enqueued| ==> part < enqueued[k].bytes)
    && (open ==> QueueIs(queue, enqueued[k..], |part|))
  }

  /** `q` is `frames`, with `written` bytes of the front one written. */
  ghost predicate QueueIs(q: seq<OutgoingFrame>, frames: seq<OutgoingFrame>, written: nat)
  {
    && |q| == |frames|
    && (q != [] ==> q[0].bytes == frames[0].bytes && q[0].token == frames[0].token && q[0].written == written)
    && (forall i :: 1 <= i < |q| ==> q[i] == frames[i])
  }

  /** The close sequence has not begun, or has happened completely and once: the fd is
      deregistered, then closed, then the close handler runs. */
  ghost predicate CloseInv(s: State, fd: int)
  {
    && fd != -1
    && (s.open ==> s.registered && s.fd == fd && s.failure == None && Closings(s) == [])
    && (!s.open ==> !s.registered && s.fd == -1 && s.writeQueue == [])
    && (!s.open ==> Closings(s) == [Deregister(fd), CloseFd(fd), CloseHandler])
  }

  /** A parse failure is told by the bytes: it means that draining everything received fails
      the same way, and that everything before the failure has been delivered. */
  ghost predicate Explained(code: ErrorCode, delivered: seq<RpcMessage>, all: Drained)
  {
    && (code == MessageSize ==> all.outcome == FrameTooLarge && delivered == all.messages)
    && (code == ProtocolError ==> all.outcome == BadMessage && delivered == all.messages)
  }

  /** What has been delivered is what draining all the received bytes at once gives, up to
      what still sits in the buffer; after closing, a prefix of it, and all of it if the
      session closed because it could not parse. */
  ghost predicate ReceiveInv(s: State)
  {
    var all := Drain(s.received);
    if s.open then
      var d := Drain(s.readBuffer);
      all == Drained(Delivered(s) + d.messages, d.rest, d.outcome)
    else
      Delivered(s) <= all.messages
      && (s.failure.Some? ==> Explained(s.failure.value, Delivered(s), all))
  }

  ghost predicate Inv(s: State, fd: int)
  {
    StreamInv(s) && CloseInv(s, fd) && ReceiveInv(s)
  }

  lemma StartedInv(fd: int)
    requires fd != -1
    ensures Inv(Started(fd), fd)
  {
    assert Drain([]) == Drained([], [], Fine);
  }

  /** The front frame is the first one not completed, as far written as bytes of it are out. */
  lemma FrontFrame(enq: seq<OutgoingFrame>, done: seq<nat>, sent: seq<byte>, q: seq<OutgoingFrame>)
    requires StreamOf(enq, done, sent, q, true) && q != []
    ensures |done| < |enq| && q[0].bytes == enq[|done|].bytes && q[0].token == enq[|done|].token
    ensures sent == BytesOf(enq[..|done|]) + q[0].bytes[..q[0].written]
  {
    var n, f := |done|, q[0];
    var base := BytesOf(enq[..n]);
    assert enq[n..][0] == enq[n];
    assert sent == base + sent[|base|..];
  }

  lemma TakePart(enq: seq<OutgoingFrame>, done: seq<nat>, sent: seq<byte>, q: seq<OutgoingFrame>, k: positive)
    requires StreamOf(enq, done, sent, q, true) && q != [] && k < |q[0].bytes| - q[0].written
    ensures var f := q[0];
      StreamOf(enq, done, sent + f.bytes[f.written..f.written + k],
               [f.(written := f.written + k)] + q[1..], true)
  {
    FrontFrame(enq, done, sent, q);
    var f, base := q[0], BytesOf(enq[..|done|]);
    hide BytesOf;
    var sent' := sent + f.bytes[f.written..f.written + k];
    assert sent' == base + f.bytes[..f.written + k];
    assert sent'[|base|..] == f.bytes[..f.written + k];
  }

  lemma TakeWhole(enq: seq<OutgoingFrame>, done: seq<nat>, sent: seq<byte>, q: seq<OutgoingFrame>)
    requires StreamOf(enq, done, sent, q, true) && q != []
    ensures StreamOf(enq, done + [q[0].token], sent + q[0].bytes[q[0].written..], q[1..], true)
  {
    FrontFrame(enq, done, sent, q);
    var n, f := |done|, q[0];
    var base := BytesOf(enq[..n]);
    assert BytesOf(enq[..n + 1]) == base + f.bytes by {
      assert enq[..n + 1][..n] == enq[..n];
    }
    hide BytesOf;
    assert f.bytes[..f.written] + f.bytes[f.written..] == f.bytes;
    var sent' := sent + f.bytes[f.written..];
    assert sent' == base + f.bytes;
    assert sent'[|base + f.bytes|..] == [];
    var frames := enq[n..];
    assert enq[n + 1..] == frames[1..];
    forall i | 0 <= i < |q| - 1 ensures q[1..][i] == frames[1..][i] {
      assert q[1..][i] == q[i + 1] == frames[i + 1];
    }
    assert QueueIs(q[1..], frames[1..], 0) by {
      if |q| > 1 { assert q[1] == frames[1] == enq[n + 1]; }
    }
  }

  lemma TakePartHeld(s: State, k: positive)
    requires s.writeQueue != [] && k < |s.writeQueue[0].bytes| - s.writeQueue[0].written
    ensures Held(Take(s, k)) == Held(s) && Take(s, k).log == s.log
  {
    hide Collect;
    var f, rest := s.writeQueue[0], s.writeQueue[1..];
    assert ([f.(written := f.written + k)] + rest)[1..] == rest;
  }

  lemma TakeWholeHeld(s: State, k: positive)
    requires s.writeQueue != [] && k >= |s.writeQueue[0].bytes| - s.writeQueue[0].written
    ensures var t := Take(s, k);
      && Held(t) == Held(s)
      && Delivered(t) == Delivered(s) && Closings(t) == Closings(s)
      && Successes(t) == Successes(s) + [s.writeQueue[0].token]
  {
    hide Collect;
    var f, t := s.writeQueue[0], Take(s, k);
    assert t.log == s.log + [Complete(f.token, Success)] && t.writeQueue == s.writeQueue[1..];
    assert Tokens(s.writeQueue) == [f.token] + Tokens(t.writeQueue);
    hide Take, Tokens;
    LogAppend(s.log, [Complete(f.token, Success)]);
    SingleCollects(Complete(f.token, Success));
  }

  lemma TakeHeld(s: State, k: positive)
    requires s.writeQueue != []
    ensures Held(Take(s, k)) == Held(s)
    ensures Delivered(Take(s, k)) == Delivered(s) && Closings(Take(s, k)) == Closings(s)
    ensures Successes(Take(s, k)) == Successes(s) +
      (if k < |s.writeQueue[0].bytes| - s.writeQueue[0].written then [] else [s.writeQueue[0].token])
  {
    hide Collect, Take, Held;
    if k < |s.writeQueue[0].bytes| - s.writeQueue[0].written {
      TakePartHeld(s, k);
    } else {
      TakeWholeHeld(s, k);
    }
  }

  lemma TakeStep(s: State, k: positive, fd: int)
    requires Inv(s, fd) && s.open && s.writeQueue != []
    ensures var t := Take(s, k);
      Inv(t, fd) && Held(t) == Held(s) && t.enqueued == s.enqueued
  {
    hide StreamOf, Collect, Drain, Held, Closings, Delivered;
    var f := s.writeQueue[0];
    TakeHeld(s, k);
    if k < |f.bytes| - f.written {
      TakePart(s.enqueued, Successes(s), s.sent, s.writeQueue, k);
    } else {
      TakeWhole(s.enqueued, Successes(s), s.sent, s.writeQueue);
    }
  }

  lemma EnqueueStream(s: State, frame: WireFrame, token: nat)
    requires StreamInv(s) && s.open
    ensures StreamInv(Enqueue(s, frame, token))
  {
    var n := |Successes(s)|;
    var t := Enqueue(s, frame, token);
    assert t.enqueued[..n] == s.enqueued[..n];
    assert t.enqueued[n..] == s.enqueued[n..] + [t.enqueued[|s.enqueued|]];
  }

  lemma {:induction false} TokensSnoc(q: seq<OutgoingFrame>, f: OutgoingFrame)
    ensures Tokens(q + [f]) == Tokens(q) + [f.token]
    decreases |q|
  {
    if q == [] {
      assert q + [f] == [f];
      assert Tokens([f]) == [f.token] + Tokens([f][1..]);
    } else {
      assert (q + [f])[1..] == q[1..] + [f];
      TokensSnoc(q[1..], f);
    }
  }

  lemma ReceiveChunk(s: State, c: Chunk)
    requires ReceiveInv(s) && s.open
    ensures ReceiveInv(Receive(s, c))
  {
    hide Drain;
    DrainAppend(s.received, c);
    DrainAppend(s.readBuffer, c);
    var d := Drain(s.readBuffer);
    if d.outcome == Fine {
      var e := Drain(d.rest + c);
      assert Delivered(s) + (d.messages + e.messages) == (Delivered(s) + d.messages) + e.messages;
    }
  }

  /** The tokens a session is answerable for: queued or completed. */
  ghost function Held(s: State): multiset<nat>
  {
    multiset(Tokens(s.writeQueue)) + multiset(Completed(s))
  }

  ghost function TakenIn(m: Small): multiset<nat>
  {
    if m.SEnqueue? || m.SRefuse? then multiset{m.token} else multiset{}
  }

  lemma ParseStep(s: State, fd: int)
    requires Inv(s, fd) && s.open
    ensures var t := ParseBuffer(s);
      Inv(t, fd) && Held(t) == Held(s) && t.enqueued == s.enqueued
  {
    hide Collect, Drain, FailAndClose, CloseFromLoop;
    var d := Drain(s.readBuffer);
    var u := s.(readBuffer := d.rest, log := s.log + Deliveries(d.messages));
    LogAppend(s.log, Deliveries(d.messages));
    DeliveriesCollect(d.messages);
    if d.outcome == Fine {
      DrainOfRest(s.readBuffer);
    } else {
      var code := if d.outcome == FrameTooLarge then MessageSize else ProtocolError;
      assert ParseBuffer(s) == FailAndClose(u, code);
      FailStep(u, fd, code);
    }
  }

  lemma DrainOfRest(b: seq<byte>)
    ensures var d := Drain(b); d.outcome == Fine ==> Drain(d.rest) == Drained([], d.rest, Fine)
  {
    DrainLeavesNoFrame(b);
  }

  /** Failing closes; the messages delivered stay a prefix. */
  lemma FailStep(s: State, fd: int, code: ErrorCode)
    requires StreamInv(s) && CloseInv(s, fd) && s.open && code != Success
    requires Delivered(s) <= Drain(s.received).messages
    requires Explained(code, Delivered(s), Drain(s.received))
    ensures var t := FailAndClose(s, code);
      Inv(t, fd) && Held(t) == Held(s) && t.enqueued == s.enqueued
  {
    FailReadings(s, code);
    FailShape(s, code);
    NoTokens();
    hide Collect, Drain, FailAndClose, Tokens, StreamOf, Explained;
    var t := FailAndClose(s, code);
    ClosedStream(s, t);
    assert Completed(t) == Completed(s) + Tokens(s.writeQueue) && Tokens(t.writeQueue) == [];
  }

  /** A session that closes keeps the part of the stream invariant that outlives it. */
  lemma ClosedStream(s: State, t: State)
    requires StreamInv(s) && !t.open && t.sent == s.sent && t.enqueued == s.enqueued && Successes(t) == Successes(s)
    ensures StreamInv(t)
  {
  }

  lemma NoTokens()
    ensures Tokens([]) == []
  {
  }

  lemma FailShape(s: State, code: ErrorCode)
    requires s.open
    ensures var t := FailAndClose(s, code);
      t == s.(open := false, fd := -1, registered := false, writeQueue := [], failure := Some(code), log := t.log)
  {
  }

  lemma CloseStep(s: State, fd: int)
    requires StreamInv(s) && CloseInv(s, fd)
    requires s.open ==> Delivered(s) <= Drain(s.received).messages
    requires !s.open ==> ReceiveInv(s)
    ensures var t := CloseFromLoop(s);
      Inv(t, fd) && Held(t) == Held(s) && t.enqueued == s.enqueued
  {
    if s.open {
      CloseReadings(s);
      hide Collect, Drain;
      var t := CloseFromLoop(s);
      assert t.sent == s.sent && t.received == s.received && t.writeQueue == [];
    }
  }

  lemma EnqueueStep(s: State, frame: WireFrame, token: nat, fd: int)
    requires Inv(s, fd) && s.open
    ensures var t := Enqueue(s, frame, token);
      && Inv(t, fd) && Held(t) == Held(s) + multiset{token}
      && t.enqueued == s.enqueued + [Pending(frame, 0, token)]
  {
    EnqueueStream(s, frame, token);
    TokensSnoc(s.writeQueue, Pending(frame, 0, token));
    hide StreamInv, Collect, Drain, Tokens;
  }

  lemma RefuseStep(s: State, token: nat, fd: int)
    requires Inv(s, fd) && !s.open
    ensures var t := Refuse(s, token);
      Inv(t, fd) && Held(t) == Held(s) + multiset{token} && t.enqueued == s.enqueued
  {
    hide Collect, Drain;
    LogAppend(s.log, [Complete(token, NotConnected)]);
    SingleCollects(Complete(token, NotConnected));
    StreamFrame(s, Refuse(s, token));
  }

  lemma ReceiveStep(s: State, c: Chunk, fd: int)
    requires Inv(s, fd) && s.open
    ensures var t := Receive(s, c);
      Inv(t, fd) && Held(t) == Held(s) && t.enqueued == s.enqueued
  {
    hide Collect, Drain;
    StreamFrame(s, Receive(s, c));
    hide StreamInv;
    ReceiveChunk(s, c);
  }

  lemma ArmStep(s: State, fd: int)
    requires Inv(s, fd)
    ensures var t := UpdateEvents(s);
      Inv(t, fd) && Held(t) == Held(s) && t.enqueued == s.enqueued
  {
    hide Collect, Drain;
    StreamFrame(s, UpdateEvents(s));
  }

  lemma InvAllowsClose(s: State, fd: int)
    requires Inv(s, fd)
    ensures StreamInv(s) && CloseInv(s, fd)
    ensures s.open ==> Delivered(s) <= Drain(s.received).messages
    ensures !s.open ==> ReceiveInv(s)
  {
  }

  /** Every small step keeps the invariant, and every token it takes in it holds. */
  lemma SmallStep(s: State, m: Small, fd: int)
    requires Inv(s, fd) && Enabled(s, m)
    ensures Inv(Do(s, m), fd)
    ensures Held(Do(s, m)) == Held(s) + TakenIn(m)
    ensures Do(s, m).enqueued == s.enqueued + (if m.SEnqueue? then [Pending(m.frame, 0, m.token)] else [])
    ensures Do(s, m).open ==> s.open
  {
    hide Inv, Held, FailAndClose, CloseFromLoop, Take, ParseBuffer, StreamInv, CloseInv, ReceiveInv, Delivered, Drain;
    match m
    case SArm => ArmStep(s, fd);
    case SReceive(c) => ReceiveStep(s, c, fd);
    case SParse => ParseStep(s, fd);
    case STake(k) => TakeStep(s, k, fd);
    case SClose =>
      InvAllowsClose(s, fd);
      CloseStep(s, fd);
      CloseCloses(s);
    case SFail(code) =>
      InvAllowsClose(s, fd);
      FailStep(s, fd, code);
      FailCloses(s, code);
    case SEnqueue(frame, token) => EnqueueStep(s, frame, token, fd);
    case SRefuse(token) => RefuseStep(s, token, fd);
  }

  lemma StreamFrame(s: State, t: State)
    requires StreamInv(s) && t.sent == s.sent && t.enqueued == s.enqueued && t.writeQueue == s.writeQueue
    requires t.open == s.open && Successes(t) == Successes(s)
    ensures StreamInv(t)
  {
  }

  lemma CloseCloses(s: State)
    ensures !CloseFromLoop(s).open
  {
  }

  lemma FailCloses(s: State, code: ErrorCode)
    ensures !FailAndClose(s, code).open
  {
  }

  lemma {:induction false} PathKeeps(s: State, ms: seq<Small>, t: State, fd: int)
    requires Inv(s, fd) && Path(s, ms, t) && Quiet(ms)
    ensures Inv(t, fd) && Held(t) == Held(s) && t.enqueued == s.enqueued
    ensures t.open ==> s.open
    decreases |ms|
  {
    hide Inv, Do, Held;
    if ms != [] {
      SmallStep(s, ms[0], fd);
      PathKeeps(Do(s, ms[0]), ms[1..], t, fd);
    }
  }

  lemma EventsKeep(s: State, ev: Readiness, rs: seq<RecvResult>, ws: seq<SendResult>, fd: int)
    requires Inv(s, fd)
    ensures var t := HandleEvents(s, ev, rs, ws);
      Inv(t, fd) && Held(t) == Held(s) && t.enqueued == s.enqueued && (t.open ==> s.open)
  {
    var ms := HandleEventsPath(s, ev, rs, ws);
    PathKeeps(s, ms, HandleEvents(s, ev, rs, ws), fd);
  }

  lemma SendTaskKeeps(s: State, frame: WireFrame, token: nat, ws: seq<SendResult>, fd: int)
    requires Inv(s, fd)
    ensures var t := RunTask(s, SendTask(frame, token), ws);
      && Inv(t, fd) && Held(t) == Held(s) + multiset{token}
      && t.enqueued == s.enqueued + (if s.open then [Pending(frame, 0, token)] else [])
      && (t.open ==> s.open)
  {
    hide Inv, Do, Held, RunTask;
    var first, ms := SendTaskPath(s, frame, token, ws);
    SmallStep(s, first, fd);
    PathKeeps(Do(s, first), ms, RunTask(s, SendTask(frame, token), ws), fd);
  }

  // ------------------------------------------------ what holds between operations

  /** Between operations the loop watches for writability exactly while something is
      queued, and the buffer holds no complete frame. */
  predicate Settled(s: State)
  {
    s.open ==> s.registered ==> s.epollOut == (s.writeQueue != []) && Pop(s.readBuffer) == NeedMore
  }

  lemma {:induction false} AsyncWriteSettles(s: State, script: seq<SendResult>)
    requires Pop(s.readBuffer) == NeedMore
    ensures Settled(AsyncWrite(s, script))
    decreases |script|
  {
    hide Pop;
    if s.open && s.writeQueue != [] && script != [] {
      match script[0]
      case Accepts(k) => AsyncWriteSettles(Take(s, k), script[1..]);
      case SendAgain =>
      case SendInterrupted => AsyncWriteSettles(s, script[1..]);
      case SendError(e) =>
    }
  }

  lemma {:induction false} AsyncReadSettles(s: State, script: seq<RecvResult>)
    requires s.open && s.registered ==> s.epollOut == (s.writeQueue != [])
    requires s.open ==> s.registered
    ensures Settled(AsyncRead(s, script))
    ensures AsyncRead(s, script).open ==> AsyncRead(s, script).registered
    decreases |script|
  {
    hide Pop, Drain;
    DrainLeavesNoFrame(s.readBuffer);
    if s.open && script != [] {
      match script[0]
      case Data(chunk) => AsyncReadSettles(Receive(s, chunk), script[1..]);
      case Eof =>
      case RecvAgain =>
      case RecvInterrupted => AsyncReadSettles(s, script[1..]);
      case RecvError(e) =>
    }
  }

  lemma EventsSettle(s: State, ev: Readiness, rs: seq<RecvResult>, ws: seq<SendResult>)
    requires Settled(s) && (s.open ==> s.registered)
    ensures Settled(HandleEvents(s, ev, rs, ws))
  {
    hide AsyncRead, AsyncWrite, Pop;
    if s.open && !ev.errOrHup {
      AsyncReadSettles(s, rs);
      var a := if ev.readable then AsyncRead(s, rs) else s;
      if a.open { AsyncWriteSettles(a, ws); }
    }
  }

  lemma TaskSettles(s: State, t: Task, ws: seq<SendResult>)
    requires Settled(s) && (s.open ==> s.registered)
    ensures Settled(RunTask(s, t, ws))
  {
    hide AsyncWrite, Pop;
    if s.open && t.SendTask? {
      AsyncWriteSettles(UpdateEvents(Enqueue(s, t.frame, t.token)), ws);
    }
  }

  /** Bytes that arrive in the same read as an end of file or an error are never parsed: the
      session closes having delivered nothing more. */
  lemma {:induction false} LastReadIsDropped(s: State, script: seq<RecvResult>, n: nat)
    requires s.open && s.registered && s.fd != -1 && n < |script|
    requires forall i :: 0 <= i < n ==> script[i].Data? || script[i].RecvInterrupted?
    requires script[n].Eof? || script[n].RecvError?
    ensures !AsyncRead(s, script).open && Delivered(AsyncRead(s, script)) == Delivered(s)
    decreases n
  {
    hide Collect, CloseFromLoop, FailAndClose;
    if n == 0 {
      if script[0].Eof? {
        CloseReadings(s);
        CloseCloses(s);
      } else {
        FailReadings(s, SystemError(script[0].errno));
        FailCloses(s, SystemError(script[0].errno));
      }
    } else if script[0].Data? {
      LastReadIsDropped(Receive(s, script[0].chunk), script[1..], n - 1);
    } else {
      LastReadIsDropped(s, script[1..], n - 1);
    }
  }

  // --------------------------------------------------------- the read loop, exactly

  /** The bytes a read collects before its first would-block, end of file or error. */
  function DataOf(script: seq<RecvResult>): seq<byte>
  {
    if script == [] then []
    else if script[0].Data? then script[0].chunk + DataOf(script[1..])
    else if script[0].RecvInterrupted? then DataOf(script[1..])
    else []
  }

  /** The read meets an end of file or an error before it would block. */
  predicate EndsInClose(script: seq<RecvResult>)
  {
    script != [] && (
      if script[0].Data? || script[0].RecvInterrupted? then EndsInClose(script[1..])
      else script[0].Eof? || script[0].RecvError?)
  }

  function Received(s: State, data: seq<byte>): State
  {
    s.(readBuffer := s.readBuffer + data, received := s.received + data)
  }

  /** A read either collects all its data and parses once, or drops it and closes. */
  lemma {:induction false} ReadIs(s: State, script: seq<RecvResult>)
    requires s.open && s.registered && s.fd != -1
    ensures !EndsInClose(script) ==> AsyncRead(s, script) == ParseBuffer(Received(s, DataOf(script)))
    ensures EndsInClose(script) ==> !AsyncRead(s, script).open && Delivered(AsyncRead(s, script)) == Delivered(s)
    decreases |script|
  {
    hide Collect, CloseFromLoop, FailAndClose, ParseBuffer;
    if script == [] || script[0].RecvAgain? {
      assert Received(s, []) == s;
    } else {
      match script[0]
      case Data(chunk) =>
        ReadIs(Receive(s, chunk), script[1..]);
        assert Received(Receive(s, chunk), DataOf(script[1..])) == Received(s, DataOf(script)) by {
          assert s.readBuffer + chunk + DataOf(script[1..]) == s.readBuffer + DataOf(script);
          assert s.received + chunk + DataOf(script[1..]) == s.received + DataOf(script);
        }
      case RecvInterrupted => ReadIs(s, script[1..]);
      case Eof =>
        CloseReadings(s);
        CloseCloses(s);
      case RecvError(e) =>
        FailReadings(s, SystemError(e));
        FailCloses(s, SystemError(e));
    }
  }

  /** Which error a failed drain closes the session with. */
  function CodeOf(outcome: Outcome): Option<ErrorCode>
  {
    match outcome
    case Fine => None
    case FrameTooLarge => Some(MessageSize)
    case BadMessage => Some(ProtocolError)
  }

  lemma ParseDelivers(s: State)
    requires s.open && s.registered && s.fd != -1 && s.failure == None
    ensures var t, d := ParseBuffer(s), Drain(s.readBuffer);
      && Delivered(t) == Delivered(s) + d.messages && t.failure == CodeOf(d.outcome)
      && (t.open <==> d.outcome == Fine)
      && (t.open ==> t.readBuffer == d.rest && t.registered && t.fd != -1)
  {
    hide Collect, Drain;
    var d := Drain(s.readBuffer);
    var u := s.(readBuffer := d.rest, log := s.log + Deliveries(d.messages));
    LogAppend(s.log, Deliveries(d.messages));
    DeliveriesCollect(d.messages);
    FailReadings(u, MessageSize);
    FailReadings(u, ProtocolError);
  }

  /** Exactly when one read delivers every complete message it has: when it does not meet
      an end of file or an error before it would block, or has none to deliver. */
  lemma ReadDeliversIff(s: State, script: seq<RecvResult>)
    requires s.open && s.registered && s.fd != -1 && s.failure == None
    ensures var complete := Drain(s.readBuffer + DataOf(script)).messages;
      Delivered(AsyncRead(s, script)) == Delivered(s) + complete <==> !EndsInClose(script) || complete == []
  {
    hide Collect, Drain, AsyncRead, ParseBuffer, Delivered;
    ReadIs(s, script);
    if EndsInClose(script) {
      var complete := Drain(s.readBuffer + DataOf(script)).messages;
      assert |Delivered(s) + complete| == |Delivered(s)| + |complete|;
    } else {
      var t := Received(s, DataOf(script));
      assert t.log == s.log;
      ParseDelivers(t);
      DeliveredFromLog(s, t);
    }
  }

  lemma DeliveredFromLog(s: State, t: State)
    requires s.log == t.log
    ensures Delivered(s) == Delivered(t)
  {
  }

  /** A whole frame that arrives with the end of file is lost. */
  lemma WholeFrameIsLost(m: RpcMessage, fd: int)
    requires fd != -1 && m.status >= 0 && |Frame(Encoding(m))| <= 8192
    ensures var script := [Data(Frame(Encoding(m))), Eof];
      && Drain(DataOf(script)).messages == [m]
      && Delivered(AsyncRead(Started(fd), script)) == []
  {
    hide Encoding, Drain, AsyncRead, Frame;
    var f: Chunk := Frame(Encoding(m));
    var script := [Data(f), Eof];
    assert script[1..] == [Eof] && DataOf([Eof]) == [];
    assert DataOf(script) == f + [] == f;
    DrainFirst(m, []);
    DrainNothing();
    assert EndsInClose([Eof]) && EndsInClose(script);
    assert Delivered(Started(fd)) == [];
    ReadIs(Started(fd), script);
  }

  /** The reads of one session, one after the other. */
  function ReadAll(s: State, scripts: seq<seq<RecvResult>>): State
    decreases |scripts|
  {
    if scripts == [] then s else ReadAll(AsyncRead(s, scripts[0]), scripts[1..])
  }

  function DataOfAll(scripts: seq<seq<RecvResult>>): seq<byte>
  {
    if scripts == [] then [] else DataOf(scripts[0]) + DataOfAll(scripts[1..])
  }

  lemma {:induction false} ClosedReadsNothing(s: State, scripts: seq<seq<RecvResult>>)
    requires !s.open
    ensures ReadAll(s, scripts) == s
    decreases |scripts|
  {
    if scripts != [] { ClosedReadsNothing(s, scripts[1..]); }
  }

  /** Chunk independence of the read loop: however the bytes are split into chunks and the
      chunks into reads, what is delivered, whether and how the session fails, and what is
      left in the buffer are those of draining all of them at once. */
  lemma {:induction false} ReadsAreOneDrain(s: State, scripts: seq<seq<RecvResult>>)
    requires s.open && s.registered && s.fd != -1 && s.failure == None
    requires Drain(s.readBuffer) == Drained([], s.readBuffer, Fine)
    requires forall i :: 0 <= i < |scripts| ==> !EndsInClose(scripts[i])
    ensures var t, d := ReadAll(s, scripts), Drain(s.readBuffer + DataOfAll(scripts));
      && Delivered(t) == Delivered(s) + d.messages && t.failure == CodeOf(d.outcome)
      && (t.open <==> d.outcome == Fine) && (t.open ==> t.readBuffer == d.rest)
    decreases |scripts|
  {
    hide Drain, AsyncRead, ParseBuffer, DataOf, EndsInClose, Delivered;
    if scripts == [] {
      assert s.readBuffer + [] == s.readBuffer;
      assert Delivered(s) + [] == Delivered(s);
    } else {
      var first, rest := s.readBuffer + DataOf(scripts[0]), DataOfAll(scripts[1..]);
      var u := Received(s, DataOf(scripts[0]));
      ReadIs(s, scripts[0]);
      ParseDelivers(u);
      DeliveredFromLog(s, u);
      DrainAppend(first, rest);
      assert first + rest == s.readBuffer + DataOfAll(scripts);
      var d, t := Drain(first), AsyncRead(s, scripts[0]);
      if d.outcome == Fine {
        DrainOfRest(first);
        ReadsAreOneDrain(t, scripts[1..]);
        var e := Drain(d.rest + rest);
        assert (Delivered(s) + d.messages) + e.messages == Delivered(s) + (d.messages + e.messages);
      } else {
        ClosedReadsNothing(t, scripts[1..]);
      }
    }
  }
}
