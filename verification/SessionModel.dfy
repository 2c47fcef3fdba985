/** The connection state machine of session.cpp, on values.

    The kernel is an adversary given as a script: the results the next `recv` or `send`
    calls return, an exhausted script meaning "would block". What a session does to the
    world is recorded: bytes in `sent`, calls in `log`. */
module SessionModel {
  import opened Bits
  import opened Codec
  import opened Framing
  import opened Wrappers

  type positive = n: int | n > 0 witness 1

  type Chunk = c: seq<byte> | 0 < |c| <= 8192 witness [0]

  /** A frame always has its header. */
  type WireFrame = f: seq<byte> | |f| >= 4 witness [0, 0, 0, 0]

  datatype RecvResult = Data(chunk: Chunk) | Eof | RecvAgain | RecvInterrupted | RecvError(errno: positive)

  /** `Accepts(k)`: the kernel takes `k` bytes, or all that remain of the frame if fewer. */
  datatype SendResult = Accepts(count: positive) | SendAgain | SendInterrupted | SendError(errno: positive)

  datatype ErrorCode = Success | NotConnected | MessageSize | ProtocolError | SystemError(errno: positive)

  /** The write handler of a send is known by the send's token. */
  datatype Pending = Pending(bytes: WireFrame, written: nat, token: nat)

  /** A frame still in the queue has bytes left to write. */
  type OutgoingFrame = f: Pending | f.written < |f.bytes| witness Pending([0, 0, 0, 0], 0, 0)

  datatype Effect =
    | Deliver(message: RpcMessage)             // message handler called
    | Complete(token: nat, code: ErrorCode)    // write handler called
    | Deregister(fd: int)                      // removed from the event loop
    | CloseFd(fd: int)
    | CloseHandler

  datatype State = State(
    open: bool, registered: bool, fd: int, readBuffer: seq<byte>, writeQueue: seq<OutgoingFrame>,
    epollOut: bool,                 // whether the loop watches the fd for writability
    received: seq<byte>,            // every byte `recv` returned
    sent: seq<byte>,                // every byte `send` took
    enqueued: seq<OutgoingFrame>,   // every frame put in the write queue
    failure: Option<ErrorCode>,     // the error it failed with, if it did
    log: seq<Effect>)

  /** A session after its constructor and `start()`. */
  function Started(fd: int): State { State(true, true, fd, [], [], false, [], [], [], None, []) }

  datatype Task = SendTask(frame: WireFrame, token: nat) | CloseTask

  datatype Readiness = Readiness(errOrHup: bool, readable: bool, writable: bool, peerClosed: bool)

  // ---------------------------------------------------------------- operations

  function UpdateEvents(s: State): State
  {
    if !s.registered || !s.open then s else s.(epollOut := s.writeQueue != [])
  }

  function FailAll(q: seq<OutgoingFrame>, code: ErrorCode): seq<Effect>
  {
    if q == [] then [] else [Complete(q[0].token, code)] + FailAll(q[1..], code)
  }

  function CloseFromLoop(s: State): State
  {
    if !s.open then s else
      s.(open := false, fd := -1, registered := false, writeQueue := [],
         log := s.log + (if s.registered then [Deregister(s.fd)] else [])
                + (if s.fd != -1 then [CloseFd(s.fd)] else [])
                + FailAll(s.writeQueue, NotConnected) + [CloseHandler])
  }

  function FailAndClose(s: State, code: ErrorCode): State
  {
    CloseFromLoop(s.(writeQueue := [], failure := Some(code), log := s.log + FailAll(s.writeQueue, code)))
  }

  /** One successful `send` of at most `k` bytes of the front frame. */
  function Take(s: State, k: positive): State
    requires s.writeQueue != []
  {
    var f := s.writeQueue[0];
    var left := |f.bytes| - f.written;
    if k < left then
      s.(sent := s.sent + f.bytes[f.written..f.written + k],
         writeQueue := [f.(written := f.written + k)] + s.writeQueue[1..])
    else
      s.(sent := s.sent + f.bytes[f.written..],
         writeQueue := s.writeQueue[1..],
         log := s.log + [Complete(f.token, Success)])
  }

  function AsyncWrite(s: State, script: seq<SendResult>): State
    decreases |script|
  {
    if !s.open || s.writeQueue == [] || script == [] then UpdateEvents(s)
    else
      match script[0]
      case Accepts(k) => AsyncWrite(Take(s, k), script[1..])
      case SendAgain => UpdateEvents(s)
      case SendInterrupted => AsyncWrite(s, script[1..])
      case SendError(e) => FailAndClose(s, SystemError(e))
  }

  function Deliveries(ms: seq<RpcMessage>): seq<Effect>
  {
    if ms == [] then [] else [Deliver(ms[0])] + Deliveries(ms[1..])
  }

  /** The parsing loop of `async_read`. */
  function ParseBuffer(s: State): State
  {
    var d := Drain(s.readBuffer);
    var t := s.(readBuffer := d.rest, log := s.log + Deliveries(d.messages));
    match d.outcome
    case Fine => t
    case FrameTooLarge => FailAndClose(t, MessageSize)
    case BadMessage => FailAndClose(t, ProtocolError)
  }

  function Receive(s: State, chunk: Chunk): State
  {
    s.(readBuffer := s.readBuffer + chunk, received := s.received + chunk)
  }

  /** Reading stops at "would block", and only then is the buffer parsed: what arrives
      together with an end of file or an error is dropped. */
  function AsyncRead(s: State, script: seq<RecvResult>): State
    decreases |script|
  {
    if !s.open then s
    else if script == [] then ParseBuffer(s)
    else
      match script[0]
      case Data(chunk) => AsyncRead(Receive(s, chunk), script[1..])
      case Eof => CloseFromLoop(s)
      case RecvAgain => ParseBuffer(s)
      case RecvInterrupted => AsyncRead(s, script[1..])
      case RecvError(e) => FailAndClose(s, SystemError(e))
  }

  function HandleEvents(s: State, ev: Readiness, rs: seq<RecvResult>, ws: seq<SendResult>): State
  {
    if !s.open then s
    else if ev.errOrHup then CloseFromLoop(s)
    else
      var a := if ev.readable then AsyncRead(s, rs) else s;
      var b := if a.open && ev.writable then AsyncWrite(a, ws) else a;
      if b.open && ev.peerClosed then CloseFromLoop(b) else b
  }

  function Enqueue(s: State, frame: WireFrame, token: nat): State
  {
    var f: OutgoingFrame := Pending(frame, 0, token);
    s.(writeQueue := s.writeQueue + [f], enqueued := s.enqueued + [f])
  }

  function Refuse(s: State, token: nat): State
  {
    s.(log := s.log + [Complete(token, NotConnected)])
  }

  /** What the loop does with a task posted by `send` or `close`. */
  function RunTask(s: State, t: Task, ws: seq<SendResult>): State
  {
    match t
    case CloseTask => CloseFromLoop(s)
    case SendTask(frame, token) =>
      if !s.open then Refuse(s, token)
      else AsyncWrite(UpdateEvents(Enqueue(s, frame, token)), ws)
  }

  // ------------------------------------------------------------- small steps

  /** Every operation above is a sequence of these. */
  datatype Small =
    | SArm | SReceive(chunk: Chunk) | SParse | STake(count: positive) | SClose
    | SFail(code: ErrorCode) | SEnqueue(frame: WireFrame, token: nat) | SRefuse(token: nat)

  predicate Enabled(s: State, m: Small)
  {
    match m
    case SArm => true
    case SClose => true
    case SReceive(_) => s.open
    case SParse => s.open
    case STake(_) => s.open && s.writeQueue != []
    case SFail(code) => s.open && code.SystemError?
    case SEnqueue(_, _) => s.open
    case SRefuse(_) => !s.open
  }

  function Do(s: State, m: Small): State
    requires Enabled(s, m)
  {
    match m
    case SArm => UpdateEvents(s)
    case SReceive(chunk) => Receive(s, chunk)
    case SParse => ParseBuffer(s)
    case STake(k) => Take(s, k)
    case SClose => CloseFromLoop(s)
    case SFail(code) => FailAndClose(s, code)
    case SEnqueue(frame, token) => Enqueue(s, frame, token)
    case SRefuse(token) => Refuse(s, token)
  }

  /** `t` is reached from `s` by the small steps `ms`. */
  ghost predicate Path(s: State, ms: seq<Small>, t: State)
    decreases |ms|
  {
    if ms == [] then s == t else Enabled(s, ms[0]) && Path(Do(s, ms[0]), ms[1..], t)
  }

  /** No step of the path takes in a send. */
  predicate Quiet(ms: seq<Small>) { forall m <- ms :: !m.SEnqueue? && !m.SRefuse? }

  lemma {:induction false} PathConcat(s: State, a: seq<Small>, t: State, b: seq<Small>, u: State)
    requires Path(s, a, t) && Path(t, b, u)
    ensures Path(s, a + b, u)
    decreases |a|
  {
    hide Do, Enabled;
    if a == [] {
      assert a + b == b;
    } else {
      assert (a + b)[1..] == a[1..] + b;
      PathConcat(Do(s, a[0]), a[1..], t, b, u);
    }
  }

  lemma One(s: State, m: Small) returns (ms: seq<Small>)
    requires Enabled(s, m)
    ensures ms == [m] && Path(s, ms, Do(s, m))
  {
    ms := [m];
    assert Path(Do(s, m), ms[1..], Do(s, m));
  }

  lemma Cons(s: State, m: Small, ms: seq<Small>, t: State)
    requires Enabled(s, m) && Path(Do(s, m), ms, t)
    ensures Path(s, [m] + ms, t)
  {
    assert ([m] + ms)[1..] == ms;
  }

  lemma {:induction false} AsyncWritePath(s: State, script: seq<SendResult>) returns (ms: seq<Small>)
    ensures Path(s, ms, AsyncWrite(s, script)) && Quiet(ms)
    decreases |script|
  {
    if !s.open || s.writeQueue == [] || script == [] {
      ms := One(s, SArm);
    } else {
      match script[0]
      case Accepts(k) =>
        var rest := AsyncWritePath(Take(s, k), script[1..]);
        Cons(s, STake(k), rest, AsyncWrite(s, script));
        ms := [STake(k)] + rest;
      case SendAgain =>
        ms := One(s, SArm);
      case SendInterrupted =>
        ms := AsyncWritePath(s, script[1..]);
      case SendError(e) =>
        ms := One(s, SFail(SystemError(e)));
    }
  }

  lemma {:induction false} AsyncReadPath(s: State, script: seq<RecvResult>) returns (ms: seq<Small>)
    ensures Path(s, ms, AsyncRead(s, script)) && Quiet(ms)
    decreases |script|
  {
    hide ParseBuffer, FailAndClose, CloseFromLoop;
    if !s.open {
      ms := [];
    } else if script == [] {
      ms := One(s, SParse);
    } else {
      match script[0]
      case Data(chunk) =>
        var rest := AsyncReadPath(Receive(s, chunk), script[1..]);
        Cons(s, SReceive(chunk), rest, AsyncRead(s, script));
        ms := [SReceive(chunk)] + rest;
      case Eof =>
        ms := One(s, SClose);
      case RecvAgain =>
        ms := One(s, SParse);
      case RecvInterrupted =>
        ms := AsyncReadPath(s, script[1..]);
      case RecvError(e) =>
        ms := One(s, SFail(SystemError(e)));
    }
  }

  lemma HandleEventsPath(s: State, ev: Readiness, rs: seq<RecvResult>, ws: seq<SendResult>)
    returns (ms: seq<Small>)
    ensures Path(s, ms, HandleEvents(s, ev, rs, ws)) && Quiet(ms)
  {
    hide AsyncRead, AsyncWrite, CloseFromLoop;
    ms := [];
    if s.open {
      if ev.errOrHup {
        ms := One(s, SClose);
      } else {
        var a := if ev.readable then AsyncRead(s, rs) else s;
        if ev.readable {
          ms := AsyncReadPath(s, rs);
        }
        var b := if a.open && ev.writable then AsyncWrite(a, ws) else a;
        if a.open && ev.writable {
          var more := AsyncWritePath(a, ws);
          PathConcat(s, ms, a, more, b);
          ms := ms + more;
        }
        if b.open && ev.peerClosed {
          var more := One(b, SClose);
          PathConcat(s, ms, b, more, CloseFromLoop(b));
          ms := ms + more;
        }
      }
    }
  }

  /** A posted send is taken in by the first step, and by no other. */
  lemma SendTaskPath(s: State, frame: WireFrame, token: nat, ws: seq<SendResult>)
    returns (first: Small, ms: seq<Small>)
    ensures first == if s.open then SEnqueue(frame, token) else SRefuse(token)
    ensures Enabled(s, first) && Quiet(ms)
    ensures Path(Do(s, first), ms, RunTask(s, SendTask(frame, token), ws))
  {
    hide AsyncWrite;
    if s.open {
      first := SEnqueue(frame, token);
      var a := Enqueue(s, frame, token);
      ms := AsyncWritePath(UpdateEvents(a), ws);
      Cons(a, SArm, ms, RunTask(s, SendTask(frame, token), ws));
      ms := [SArm] + ms;
    } else {
      first := SRefuse(token);
      ms := [];
    }
  }
}
