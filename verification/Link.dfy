/** Two endpoints, each a session and its loop's task queue, joined by a full-duplex byte
    stream; and what every run of the pair guarantees. */
module Link {
  import opened Bits
  import opened Codec
  import opened Framing
  import opened SessionModel
  import opened SessionTheorems
  import opened Wrappers

  // ---------------------------------------------------------------- one endpoint

  datatype Accepted = Accepted(token: nat, message: RpcMessage)

  /** `tasks` is the loop's queue of posted tasks; the rest is history: the sends that were
      posted, the tokens of those refused as too large, and the next token. */
  datatype Endpoint = Endpoint(session: State, tasks: seq<Task>, accepted: seq<Accepted>,
                               rejected: seq<nat>, next: nat)

  /** `Send` and `RequestClose` come from any thread or handler and only post; `Run` and
      `Ready` are the loop thread's, with the kernel's answers chosen by the adversary. */
  datatype Op =
    | Send(message: RpcMessage)
    | RequestClose
    | Run(ws: seq<SendResult>)
    | Ready(ev: Readiness, rs: seq<RecvResult>, ws: seq<SendResult>)

  function Fresh(fd: int): Endpoint { Endpoint(Started(fd), [], [], [], 0) }

  function Step(e: Endpoint, op: Op): Endpoint
  {
    match op
    case Send(m) =>
      if Fits(m) then
        e.(tasks := e.tasks + [SendTask(Frame(Encoding(m)), e.next)],
           accepted := e.accepted + [Accepted(e.next, m)], next := e.next + 1)
      else
        e.(rejected := e.rejected + [e.next], next := e.next + 1)
    case RequestClose => e.(tasks := e.tasks + [CloseTask])
    case Run(ws) =>
      if e.tasks == [] then e
      else e.(session := RunTask(e.session, e.tasks[0], ws), tasks := e.tasks[1..])
    case Ready(ev, rs, ws) => e.(session := HandleEvents(e.session, ev, rs, ws))
  }

  function SendTasks(tasks: seq<Task>): seq<Task>
  {
    if tasks == [] then []
    else (if tasks[0].SendTask? then [tasks[0]] else []) + SendTasks(tasks[1..])
  }

  function TaskTokens(tasks: seq<Task>): seq<nat>
  {
    if tasks == [] then []
    else (if tasks[0].SendTask? then [tasks[0].token] else []) + TaskTokens(tasks[1..])
  }

  lemma {:induction false} SendTasksBack(tasks: seq<Task>, t: Task)
    ensures SendTasks(tasks + [t]) == SendTasks(tasks) + (if t.SendTask? then [t] else [])
    decreases |tasks|
  {
    if tasks != [] {
      assert (tasks + [t])[1..] == tasks[1..] + [t];
      SendTasksBack(tasks[1..], t);
    } else {
      assert (tasks + [t])[1..] == [];
    }
  }

  lemma {:induction false} TaskTokensBack(tasks: seq<Task>, t: Task)
    ensures TaskTokens(tasks + [t]) == TaskTokens(tasks) + (if t.SendTask? then [t.token] else [])
    decreases |tasks|
  {
    if tasks != [] {
      assert (tasks + [t])[1..] == tasks[1..] + [t];
      TaskTokensBack(tasks[1..], t);
    } else {
      assert (tasks + [t])[1..] == [];
    }
  }

  function Messages(acc: seq<Accepted>): (ms: seq<RpcMessage>)
    ensures |ms| == |acc| && forall i :: 0 <= i < |acc| ==> ms[i] == acc[i].message
  {
    seq(|acc|, i requires 0 <= i < |acc| => acc[i].message)
  }

  function TaskOf(a: Accepted): Task { SendTask(Frame(Encoding(a.message)), a.token) }

  function Upto(n: nat): (s: seq<nat>) { seq(n, i => i) }

  /** Every token handed out is in exactly one place. */
  ghost predicate LedgerInv(e: Endpoint)
  {
    multiset(TaskTokens(e.tasks)) + Held(e.session) + multiset(e.rejected) == multiset(Upto(e.next))
  }

  /** The frames that reached the write queue are the first accepted messages', in order;
      while the session is open the others are still posted, in order. */
  ghost predicate OrderInv(e: Endpoint)
  {
    var n := |e.session.enqueued|;
    && n <= |e.accepted|
    && (forall i :: 0 <= i < n ==>
         e.session.enqueued[i] == Pending(Frame(Encoding(e.accepted[i].message)), 0, e.accepted[i].token))
    && (forall i :: 0 <= i < |e.accepted| ==> Fits(e.accepted[i].message))
    && (forall i :: 0 <= i < |e.accepted| ==> e.accepted[i].token < e.next)
    && (forall i, j :: 0 <= i < j < |e.accepted| ==> e.accepted[i].token < e.accepted[j].token)
    && (e.session.open ==>
         && |SendTasks(e.tasks)| == |e.accepted| - n
         && forall i :: n <= i < |e.accepted| ==> SendTasks(e.tasks)[i - n] == TaskOf(e.accepted[i]))
  }

  ghost predicate EndpointInv(e: Endpoint, fd: int)
  {
    Inv(e.session, fd) && LedgerInv(e) && OrderInv(e) && Settled(e.session)
  }

  lemma FreshInv(fd: int)
    requires fd != -1
    ensures EndpointInv(Fresh(fd), fd)
  {
    StartedInv(fd);
    hide Inv;
  }

  lemma UptoNext(n: nat)
    ensures multiset(Upto(n + 1)) == multiset(Upto(n)) + multiset{n}
  {
    assert Upto(n + 1) == Upto(n) + [n];
  }

  lemma SendLedger(e: Endpoint, m: RpcMessage)
    requires LedgerInv(e)
    ensures LedgerInv(Step(e, Send(m)))
  {
    hide Held, Fits, Encoding, Frame, TaskTokens, Upto;
    UptoNext(e.next);
    var s := Step(e, Send(m));
    assert s.session == e.session && s.next == e.next + 1;
    if Fits(m) {
      TaskTokensBack(e.tasks, SendTask(Frame(Encoding(m)), e.next));
      assert s.rejected == e.rejected;
    } else {
      assert s.tasks == e.tasks && s.rejected == e.rejected + [e.next];
    }
  }

  lemma SendOrder(e: Endpoint, m: RpcMessage)
    requires OrderInv(e)
    ensures OrderInv(Step(e, Send(m)))
  {
    hide Fits, Encoding, Frame, SendTasks;
    SendTasksBack(e.tasks, SendTask(Frame(Encoding(m)), e.next));
  }

  lemma SendKeeps(e: Endpoint, m: RpcMessage, fd: int)
    requires EndpointInv(e, fd)
    ensures EndpointInv(Step(e, Send(m)), fd)
  {
    SendLedger(e, m);
    SendOrder(e, m);
    hide Inv, LedgerInv, OrderInv, Settled, Fits, Encoding, Frame;
  }

  lemma RequestCloseKeeps(e: Endpoint, fd: int)
    requires EndpointInv(e, fd)
    ensures EndpointInv(Step(e, RequestClose), fd)
  {
    hide Inv, Held, Settled, Fits, Encoding, Frame, SendTasks, TaskTokens, Upto;
    SendTasksBack(e.tasks, CloseTask);
    TaskTokensBack(e.tasks, CloseTask);
  }

  lemma ReadyKeeps(e: Endpoint, ev: Readiness, rs: seq<RecvResult>, ws: seq<SendResult>, fd: int)
    requires EndpointInv(e, fd)
    ensures EndpointInv(Step(e, Ready(ev, rs, ws)), fd)
  {
    hide Inv, Held, Settled, Fits, Encoding, Frame, SendTasks, TaskTokens, HandleEvents, Upto;
    OpenIsRegistered(e.session, fd);
    EventsKeep(e.session, ev, rs, ws, fd);
    EventsSettle(e.session, ev, rs, ws);
  }

  lemma RunLedger(e: Endpoint, t: State)
    requires LedgerInv(e) && e.tasks != []
    requires Held(t) == Held(e.session) + (if e.tasks[0].SendTask? then multiset{e.tasks[0].token} else multiset{})
    ensures LedgerInv(e.(session := t, tasks := e.tasks[1..]))
  {
    hide Held, Upto;
    var front := if e.tasks[0].SendTask? then [e.tasks[0].token] else [];
    assert multiset(TaskTokens(e.tasks)) == multiset(front) + multiset(TaskTokens(e.tasks[1..]));
  }

  lemma RunOrder(e: Endpoint, t: State)
    requires OrderInv(e) && e.tasks != []
    requires t.open ==> e.session.open && e.tasks[0].SendTask?
    requires t.enqueued == e.session.enqueued
      + (if e.session.open && e.tasks[0].SendTask? then [Pending(e.tasks[0].frame, 0, e.tasks[0].token)] else [])
    ensures OrderInv(e.(session := t, tasks := e.tasks[1..]))
  {
    hide Fits, Encoding, Frame;
    var n := |e.session.enqueued|;
    if e.session.open && e.tasks[0].SendTask? {
      assert SendTasks(e.tasks)[0] == e.tasks[0];
      assert SendTasks(e.tasks)[1..] == SendTasks(e.tasks[1..]);
      hide SendTasks;
      assert e.tasks[0] == TaskOf(e.accepted[n]);
      forall i | n + 1 <= i < |e.accepted|
        ensures SendTasks(e.tasks[1..])[i - (n + 1)] == TaskOf(e.accepted[i])
      {
        assert SendTasks(e.tasks)[i - n] == TaskOf(e.accepted[i]);
      }
    }
  }

  lemma RunKeeps(e: Endpoint, ws: seq<SendResult>, fd: int)
    requires EndpointInv(e, fd) && e.tasks != []
    ensures EndpointInv(Step(e, Run(ws)), fd)
  {
    hide Inv, LedgerInv, OrderInv, Held, Settled, RunTask;
    OpenIsRegistered(e.session, fd);
    var t := RunTask(e.session, e.tasks[0], ws);
    TaskSettles(e.session, e.tasks[0], ws);
    match e.tasks[0] {
      case SendTask(frame, token) => SendTaskKeeps(e.session, frame, token, ws, fd);
      case CloseTask => CloseTaskKeeps(e.session, ws, fd);
    }
    RunLedger(e, t);
    RunOrder(e, t);
  }

  lemma OpenIsRegistered(s: State, fd: int)
    requires Inv(s, fd)
    ensures s.open ==> s.registered
  {
  }

  lemma CloseTaskKeeps(s: State, ws: seq<SendResult>, fd: int)
    requires Inv(s, fd)
    ensures var t := RunTask(s, CloseTask, ws);
      Inv(t, fd) && Held(t) == Held(s) && t.enqueued == s.enqueued && !t.open
  {
    InvAllowsClose(s, fd);
    CloseStep(s, fd);
    hide Inv, Held;
  }

  lemma StepKeeps(e: Endpoint, op: Op, fd: int)
    requires EndpointInv(e, fd)
    ensures EndpointInv(Step(e, op), fd)
  {
    hide EndpointInv, Step;
    match op
    case Send(m) => SendKeeps(e, m, fd);
    case RequestClose => RequestCloseKeeps(e, fd);
    case Run(ws) =>
      if e.tasks == [] {
        IdleRun(e, ws);
      } else {
        RunKeeps(e, ws, fd);
      }
    case Ready(ev, rs, ws) => ReadyKeeps(e, ev, rs, ws, fd);
  }

  lemma IdleRun(e: Endpoint, ws: seq<SendResult>)
    requires e.tasks == []
    ensures Step(e, Run(ws)) == e
  {
  }

  // -------------------------------------------- bytes and effects only accumulate

  predicate Grows(s: State, t: State)
  {
    s.sent <= t.sent && s.received <= t.received && s.log <= t.log
  }

  lemma CloseGrows(s: State)
    ensures CloseFromLoop(s).sent == s.sent && CloseFromLoop(s).received == s.received
    ensures s.log <= CloseFromLoop(s).log
  {
  }

  lemma FailGrows(s: State, code: ErrorCode)
    ensures var t := FailAndClose(s, code);
      t.sent == s.sent && t.received == s.received && s.log <= t.log
  {
    hide CloseFromLoop;
    CloseGrows(s.(writeQueue := [], failure := Some(code), log := s.log + FailAll(s.writeQueue, code)));
  }

  lemma SmallGrows(s: State, m: Small)
    requires Enabled(s, m)
    ensures Grows(s, Do(s, m))
  {
    hide CloseFromLoop, FailAndClose, Drain;
    match m
    case SParse =>
      var d := Drain(s.readBuffer);
      var t := s.(readBuffer := d.rest, log := s.log + Deliveries(d.messages));
      FailGrows(t, MessageSize);
      FailGrows(t, ProtocolError);
    case SFail(code) => FailGrows(s, code);
    case SClose => CloseGrows(s);
    case _ =>
  }

  lemma {:induction false} PathGrows(s: State, ms: seq<Small>, t: State)
    requires Path(s, ms, t)
    ensures Grows(s, t)
    decreases |ms|
  {
    hide Do, Enabled;
    if ms != [] {
      SmallGrows(s, ms[0]);
      PathGrows(Do(s, ms[0]), ms[1..], t);
    }
  }

  lemma StepGrows(e: Endpoint, op: Op)
    ensures Grows(e.session, Step(e, op).session)
  {
    hide Do, Enabled, HandleEvents, Path;
    match op
    case Run(ws) =>
      if e.tasks != [] {
        match e.tasks[0]
        case SendTask(frame, token) =>
          var first, ms := SendTaskPath(e.session, frame, token, ws);
          SmallGrows(e.session, first);
          PathGrows(Do(e.session, first), ms, RunTask(e.session, e.tasks[0], ws));
        case CloseTask => CloseGrows(e.session);
      }
    case Ready(ev, rs, ws) =>
      var ms := HandleEventsPath(e.session, ev, rs, ws);
      PathGrows(e.session, ms, HandleEvents(e.session, ev, rs, ws));
    case _ =>
  }

  // ---------------------------------------------------------------- the pair

  datatype Side = Left | Right

  datatype Link = Link(left: Endpoint, right: Endpoint)

  function Other(side: Side): Side { if side == Left then Right else Left }

  function At(l: Link, side: Side): Endpoint { if side == Left then l.left else l.right }

  function With(l: Link, side: Side, e: Endpoint): Link
  {
    if side == Left then l.(left := e) else l.(right := e)
  }

  datatype Move = Move(side: Side, op: Op)

  /** The kernel delivers, in order, only bytes the other side has sent; when, and in what
      pieces, is up to the adversary. */
  predicate Possible(l: Link, m: Move)
  {
    Step(At(l, m.side), m.op).session.received <= At(l, Other(m.side)).session.sent
  }

  function Advance(l: Link, m: Move): Link { With(l, m.side, Step(At(l, m.side), m.op)) }

  ghost predicate Executes(l: Link, moves: seq<Move>, t: Link)
    decreases |moves|
  {
    if moves == [] then l == t else Possible(l, moves[0]) && Executes(Advance(l, moves[0]), moves[1..], t)
  }

  ghost predicate LinkInv(l: Link, leftFd: int, rightFd: int)
  {
    && EndpointInv(l.left, leftFd) && EndpointInv(l.right, rightFd)
    && l.left.session.received <= l.right.session.sent
    && l.right.session.received <= l.left.session.sent
  }

  lemma {:induction false} RunKeepsInv(l: Link, moves: seq<Move>, t: Link, leftFd: int, rightFd: int)
    requires LinkInv(l, leftFd, rightFd) && Executes(l, moves, t)
    ensures LinkInv(t, leftFd, rightFd)
    decreases |moves|
  {
    hide EndpointInv, Step;
    if moves != [] {
      var m := moves[0];
      StepKeeps(At(l, m.side), m.op, if m.side == Left then leftFd else rightFd);
      StepGrows(At(l, m.side), m.op);
      RunKeepsInv(Advance(l, m), moves[1..], t, leftFd, rightFd);
    }
  }

  function NewPair(leftFd: int, rightFd: int): Link { Link(Fresh(leftFd), Fresh(rightFd)) }

  /** A pair reachable by some run from two fresh endpoints. */
  ghost predicate Reachable(l: Link, leftFd: int, rightFd: int)
  {
    leftFd != -1 && rightFd != -1
    && exists moves :: Executes(NewPair(leftFd, rightFd), moves, l)
  }

  lemma ReachableInv(l: Link, leftFd: int, rightFd: int)
    requires Reachable(l, leftFd, rightFd)
    ensures LinkInv(l, leftFd, rightFd)
  {
    hide EndpointInv, Executes, Fresh;
    FreshInv(leftFd);
    FreshInv(rightFd);
    FreshBytes(leftFd);
    FreshBytes(rightFd);
    var moves :| Executes(NewPair(leftFd, rightFd), moves, l);
    RunKeepsInv(NewPair(leftFd, rightFd), moves, l, leftFd, rightFd);
  }

  lemma FreshBytes(fd: int)
    ensures Fresh(fd).session.received == [] && Fresh(fd).session.sent == []
  {
  }

  // ---------------------------------------------------------------- main results

  lemma {:induction false} BytesAreStream(q: seq<OutgoingFrame>, ms: seq<RpcMessage>)
    requires |q| == |ms| && forall i :: 0 <= i < |q| ==> q[i].bytes == Frame(Encoding(ms[i]))
    ensures BytesOf(q) == Stream(ms)
    decreases |q|
  {
    hide Frame, Encoding;
    if q != [] {
      BytesAreStream(q[..|q| - 1], ms[..|q| - 1]);
    }
  }

  lemma StreamPrefix(ms: seq<RpcMessage>, k: nat)
    requires k <= |ms|
    ensures Stream(ms[..k]) <= Stream(ms)
  {
    assert ms == ms[..k] + ms[k..];
    StreamConcat(ms[..k], ms[k..]);
  }

  /** The frames of the first `k` accepted messages, as bytes. */
  lemma EnqueuedBytes(e: Endpoint, k: nat)
    requires OrderInv(e) && k <= |e.session.enqueued|
    ensures BytesOf(e.session.enqueued[..k]) == Stream(Messages(e.accepted[..k]))
    ensures Messages(e.accepted[..k]) == Messages(e.accepted)[..k]
  {
    hide Frame, Encoding, SendTasks;
    BytesAreStream(e.session.enqueued[..k], Messages(e.accepted[..k]));
  }

  lemma BytesPrefix(q: seq<OutgoingFrame>, k: nat)
    requires k < |q|
    ensures BytesOf(q[..k + 1]) == BytesOf(q[..k]) + q[k].bytes
  {
    assert q[..k + 1][..k] == q[..k];
  }

  lemma {:induction false} BytesMonotone(q: seq<OutgoingFrame>, k: nat)
    requires k <= |q|
    ensures BytesOf(q[..k]) <= BytesOf(q)
    decreases |q| - k
  {
    if k < |q| {
      BytesPrefix(q, k);
      BytesMonotone(q, k + 1);
    } else {
      assert q[..k] == q;
    }
  }

  /** The bytes out are a prefix of the frames enqueued, all of them when none is left. */
  lemma SentIsPrefix(enq: seq<OutgoingFrame>, done: seq<nat>, sent: seq<byte>, q: seq<OutgoingFrame>, open: bool)
    requires StreamOf(enq, done, sent, q, open)
    ensures sent <= BytesOf(enq)
    ensures open && q == [] ==> sent == BytesOf(enq)
  {
    var k := |done|;
    var base := BytesOf(enq[..k]);
    hide BytesOf;
    assert sent == base + sent[|base|..];
    if k < |enq| {
      BytesPrefix(enq, k);
      BytesMonotone(enq, k + 1);
    } else {
      assert enq[..k] == enq;
    }
  }

  /** What an endpoint has sent is a prefix of the stream of all messages it accepted; it
      is the whole stream once it is open with nothing posted and nothing queued. */
  lemma SentIsStreamPrefix(e: Endpoint, fd: int)
    requires EndpointInv(e, fd)
    ensures e.session.sent <= Stream(Messages(e.accepted))
    ensures e.session.open && SendTasks(e.tasks) == [] && e.session.writeQueue == [] ==>
      e.session.sent == Stream(Messages(e.accepted))
  {
    hide Frame, Encoding, SendTasks, ReceiveInv, CloseInv, LedgerInv, Settled, StreamOf, BytesOf, Stream, Collect;
    var s, ms, n := e.session, Messages(e.accepted), |e.session.enqueued|;
    SentIsPrefix(s.enqueued, Successes(s), s.sent, s.writeQueue, s.open);
    EnqueuedBytes(e, n);
    assert s.enqueued[..n] == s.enqueued;
    StreamPrefix(ms, n);
    if s.open && SendTasks(e.tasks) == [] {
      assert ms[..n] == ms;
    }
  }

  lemma DeliveredIsDrained(s: State, fd: int)
    requires Inv(s, fd) && Settled(s)
    ensures Delivered(s) <= Drain(s.received).messages
    ensures s.open ==> Drain(s.received) == Drained(Delivered(s), s.readBuffer, Fine)
  {
    if s.open {
      assert s.registered;
      assert Drain(s.readBuffer) == Drained([], s.readBuffer, Fine);
      assert Delivered(s) + [] == Delivered(s);
    }
  }

  lemma AcceptedFit(e: Endpoint)
    requires OrderInv(e)
    ensures AllFit(Messages(e.accepted))
  {
    hide Fits;
    var ms := Messages(e.accepted);
    forall m | m in ms ensures Fits(m) {
      var i :| 0 <= i < |ms| && ms[i] == m;
      assert Fits(e.accepted[i].message);
    }
  }

  /** What a receiver that got a prefix of the sender's bytes has delivered. */
  lemma ReceiverSees(e: Endpoint, fd: int, r: State, rfd: int)
    requires EndpointInv(e, fd) && Inv(r, rfd) && Settled(r) && r.received <= e.session.sent
    ensures Delivered(r) <= Decodable(Messages(e.accepted))
    ensures r.received == Stream(Messages(e.accepted)) && r.open ==>
      Delivered(r) == Messages(e.accepted) && r.readBuffer == []
  {
    hide Inv, Settled, LedgerInv, OrderInv, Drain, Delivered, Stream, Decodable, AllFit, Messages;
    SentIsStreamPrefix(e, fd);
    DeliveredIsDrained(r, rfd);
    AcceptedFit(e);
    DrainStream(Messages(e.accepted), r.received);
  }

  /** End to end: in every reachable state, in both directions, the messages handed to the
      receiver's handler are a prefix, in order, of those the sender accepted, and never
      reach past the first whose status is negative. */
  lemma DeliveryIsPrefix(l: Link, leftFd: int, rightFd: int, side: Side)
    requires Reachable(l, leftFd, rightFd)
    ensures Delivered(At(l, Other(side)).session) <= Decodable(Messages(At(l, side).accepted))
  {
    hide Inv, LedgerInv, OrderInv, Settled, Reachable, Delivered, Decodable, Messages;
    ReachableInv(l, leftFd, rightFd);
    var fd, rfd := if side == Left then leftFd else rightFd, if side == Left then rightFd else leftFd;
    ReceiverSees(At(l, side), fd, At(l, Other(side)).session, rfd);
  }

  /** And it is all of them, with nothing left in the buffer, once every byte is written
      and read and both ends are still open. */
  lemma DeliveryIsComplete(l: Link, leftFd: int, rightFd: int, side: Side)
    requires Reachable(l, leftFd, rightFd)
    requires At(l, side).session.open && At(l, Other(side)).session.open
    requires SendTasks(At(l, side).tasks) == [] && At(l, side).session.writeQueue == []
    requires At(l, Other(side)).session.received == At(l, side).session.sent
    ensures Delivered(At(l, Other(side)).session) == Messages(At(l, side).accepted)
    ensures At(l, Other(side)).session.readBuffer == []
  {
    hide Inv, LedgerInv, OrderInv, Settled, Reachable, Delivered, Decodable, Messages, Stream, SendTasks;
    ReachableInv(l, leftFd, rightFd);
    var fd, rfd := if side == Left then leftFd else rightFd, if side == Left then rightFd else leftFd;
    SentIsStreamPrefix(At(l, side), fd);
    ReceiverSees(At(l, side), fd, At(l, Other(side)).session, rfd);
  }

  lemma UptoOnce(n: nat, t: nat)
    ensures multiset(Upto(n))[t] == if t < n then 1 else 0
  {
    if n > 0 {
      assert Upto(n) == Upto(n - 1) + [n - 1];
      UptoOnce(n - 1, t);
    }
  }

  /** Write completion is exactly once: every send is, exactly once over, a posted task, a
      queued frame, completed through its handler, or refused as too large; once the session
      is closed and the tasks have run, every one is completed or refused. */
  lemma CompletionExactlyOnce(l: Link, leftFd: int, rightFd: int, side: Side, token: nat)
    requires Reachable(l, leftFd, rightFd) && token < At(l, side).next
    ensures var e := At(l, side);
      multiset(TaskTokens(e.tasks))[token] + multiset(Tokens(e.session.writeQueue))[token]
      + multiset(Completed(e.session))[token] + multiset(e.rejected)[token] == 1
    ensures var e := At(l, side);
      !e.session.open && e.tasks == [] ==>
        multiset(Completed(e.session))[token] + multiset(e.rejected)[token] == 1
  {
    ReachableInv(l, leftFd, rightFd);
    hide Collect, Settled, OrderInv, StreamInv, ReceiveInv, Upto;
    var e := At(l, side);
    UptoOnce(e.next, token);
    assert (multiset(TaskTokens(e.tasks)) + Held(e.session) + multiset(e.rejected))[token] == 1;
  }

  /** The first `k` frames are out, and the next is not, where `k` counts the successes. */
  lemma SuccessesCountFrames(e: Endpoint, fd: int)
    requires EndpointInv(e, fd)
    ensures var s, k, ms := e.session, |Successes(e.session)|, Messages(e.accepted);
      && k <= |ms| && Stream(ms[..k]) <= s.sent
      && (k < |ms| ==> |s.sent| < |Stream(ms[..k + 1])|)
      && (forall j :: 0 <= j < k ==> Successes(s)[j] == e.accepted[j].token)
  {
    hide Settled, ReceiveInv, CloseInv, LedgerInv, Frame, Encoding, SendTasks, Collect, Fits, Stream;
    var s, k, ms := e.session, |Successes(e.session)|, Messages(e.accepted);
    EnqueuedBytes(e, k);
    if k < |ms| {
      StreamLast(ms, k);
    }
  }

  lemma WrittenBelow(ms: seq<RpcMessage>, k: nat, i: nat)
    requires i < k <= |ms|
    ensures Stream(ms[..i + 1]) <= Stream(ms[..k])
  {
    hide Stream;
    assert ms[..k][..i + 1] == ms[..i + 1];
    StreamPrefix(ms[..k], i + 1);
  }

  lemma TokensIncrease(e: Endpoint)
    requires OrderInv(e)
    ensures forall i, j :: 0 <= i < j < |e.accepted| ==> e.accepted[i].token < e.accepted[j].token
  {
  }

  /** Among increasing tokens, one is in the first `|done|` exactly when its index is. */
  lemma TokenPosition(acc: seq<Accepted>, done: seq<nat>, i: nat)
    requires forall i, j :: 0 <= i < j < |acc| ==> acc[i].token < acc[j].token
    requires |done| <= |acc| && forall j :: 0 <= j < |done| ==> done[j] == acc[j].token
    requires i < |acc|
    ensures acc[i].token in done <==> i < |done|
  {
    if i < |done| {
      assert done[i] == acc[i].token;
    }
  }

  lemma SuccessIsWritten(e: Endpoint, fd: int, i: nat)
    requires EndpointInv(e, fd) && i < |e.accepted|
    ensures e.accepted[i].token in Successes(e.session) <==> Stream(Messages(e.accepted)[..i + 1]) <= e.session.sent
  {
    hide Inv, LedgerInv, OrderInv, Settled, Successes, Stream, Messages;
    SuccessesCountFrames(e, fd);
    TokensIncrease(e);
    var ms, k := Messages(e.accepted), |Successes(e.session)|;
    TokenPosition(e.accepted, Successes(e.session), i);
    if i < k {
      WrittenBelow(ms, k, i);
    } else {
      WrittenBelow(ms, i + 1, k);
    }
  }

  /** A write completes with success exactly when every byte of its frame, and of the
      frames before it, has been given to the kernel. */
  lemma SuccessMeansWritten(l: Link, leftFd: int, rightFd: int, side: Side, i: nat)
    requires Reachable(l, leftFd, rightFd) && i < |At(l, side).accepted|
    ensures var e := At(l, side);
      e.accepted[i].token in Successes(e.session) <==> Stream(Messages(e.accepted)[..i + 1]) <= e.session.sent
  {
    ReachableInv(l, leftFd, rightFd);
    hide EndpointInv, Reachable, Successes, Stream;
    SuccessIsWritten(At(l, side), if side == Left then leftFd else rightFd, i);
  }

  lemma StreamLast(ms: seq<RpcMessage>, k: nat)
    requires k < |ms|
    ensures Stream(ms[..k + 1]) == Stream(ms[..k]) + Frame(Encoding(ms[k]))
  {
    assert ms[..k + 1][..k] == ms[..k];
  }

  /** Between operations, in every reachable state: the log's close effects are none, or
      deregister, close and close handler once each and in that order; an open session
      watches for writability exactly while something is queued; and it has delivered
      exactly what draining all the bytes it received at once gives, however they were
      split, keeping the rest in its buffer. A session closed because it could not parse has
      delivered exactly that too, and failed with the error the bytes call for; one closed
      otherwise has delivered a prefix. */
  lemma BetweenOperations(l: Link, leftFd: int, rightFd: int, side: Side)
    requires Reachable(l, leftFd, rightFd)
    ensures var s, fd := At(l, side).session, if side == Left then leftFd else rightFd;
      var all := Drain(s.received);
      && Closings(s) == (if s.open then [] else [Deregister(fd), CloseFd(fd), CloseHandler])
      && (s.open ==> s.failure == None && s.epollOut == (s.writeQueue != []))
      && (s.open ==> all == Drained(Delivered(s), s.readBuffer, Fine) && Pop(s.readBuffer) == NeedMore)
      && (!s.open ==> Delivered(s) <= all.messages && s.writeQueue == [])
      && (s.failure == Some(MessageSize) ==> Delivered(s) == all.messages && all.outcome == FrameTooLarge)
      && (s.failure == Some(ProtocolError) ==> Delivered(s) == all.messages && all.outcome == BadMessage)
  {
    hide Reachable, LedgerInv, OrderInv, StreamInv, Drain, Pop, Closings, Delivered;
    ReachableInv(l, leftFd, rightFd);
    DeliveredIsDrained(At(l, side).session, if side == Left then leftFd else rightFd);
  }

  lemma ReceiverAccepts(e: Endpoint, fd: int, r: State, rfd: int)
    requires EndpointInv(e, fd) && Inv(r, rfd) && r.received <= e.session.sent
    requires forall m <- Messages(e.accepted) :: m.status >= 0
    ensures r.failure != Some(MessageSize) && r.failure != Some(ProtocolError)
  {
    hide EndpointInv, StreamInv, Drain, Delivered, Stream, AllFit, Messages;
    assert CloseInv(r, rfd) && ReceiveInv(r);
    EndpointFits(e, fd);
    SentIsStreamPrefix(e, fd);
    DrainStreamIsFine(Messages(e.accepted), r.received);
  }

  lemma EndpointFits(e: Endpoint, fd: int)
    requires EndpointInv(e, fd)
    ensures AllFit(Messages(e.accepted))
  {
    hide Inv, LedgerInv, Settled, AllFit, Messages, OrderInv;
    AcceptedFit(e);
  }

  /** A receiver rejects nothing valid: if no accepted message has a negative status, then
      in no reachable state has the other side failed to parse what it received. */
  lemma ValidStreamsAreAccepted(l: Link, leftFd: int, rightFd: int, side: Side)
    requires Reachable(l, leftFd, rightFd)
    requires forall a <- At(l, side).accepted :: a.message.status >= 0
    ensures var r := At(l, Other(side)).session;
      r.failure != Some(MessageSize) && r.failure != Some(ProtocolError)
  {
    hide Inv, LedgerInv, OrderInv, Settled, Reachable;
    ReachableInv(l, leftFd, rightFd);
    var fd, rfd := if side == Left then leftFd else rightFd, if side == Left then rightFd else leftFd;
    var e := At(l, side);
    forall m | m in Messages(e.accepted) ensures m.status >= 0 {
      var i :| 0 <= i < |e.accepted| && Messages(e.accepted)[i] == m;
      assert e.accepted[i] in e.accepted;
    }
    ReceiverAccepts(e, fd, At(l, Other(side)).session, rfd);
  }
}
