/** `Session` of session.cpp, as a class: its fields, its loops, and the proof that each
    method does to the fields and to the world what SessionModel's function says. */
module SessionClass {
  import opened Bits
  import opened Codec
  import opened Framing
  import opened Wrappers
  import M = SessionModel

  class Session {
    var open: bool
    var registered: bool
    var socketFd: int
    var readBuffer: seq<byte>
    var writeQueue: seq<M.OutgoingFrame>

    // What the world has seen of the session.
    ghost var epollOut: bool
    ghost var received: seq<byte>
    ghost var sent: seq<byte>
    ghost var enqueued: seq<M.OutgoingFrame>
    ghost var failure: Option<M.ErrorCode>
    ghost var log: seq<M.Effect>

    ghost function State(): M.State
      reads this
    {
      M.State(open, registered, socketFd, readBuffer, writeQueue, epollOut, received, sent, enqueued, failure, log)
    }

    constructor (fd: int)
      ensures State() == M.Started(fd).(registered := false)
    {
      open, registered, socketFd, readBuffer, writeQueue := true, false, fd, [], [];
      epollOut, received, sent, enqueued, failure, log := false, [], [], [], None, [];
    }

    method Start()
      modifies this
      ensures State() == old(State()).(registered := true, epollOut := false)
    {
      epollOut := false;
      registered := true;
    }

    /** The part of `send` that runs on the caller's thread: the task it posts, or None
        when the message is too large and the handler is called with `message_size`. */
    method Send(message: RpcMessage, token: nat) returns (posted: Option<M.Task>)
      ensures posted == if Fits(message) then Some(M.SendTask(Frame(Encoding(message)), token)) else None
    {
      var payload := Encode(message);
      if |payload| > MAX_FRAME {
        return None;
      }
      return Some(M.SendTask(Frame(payload), token));
    }

    method RunTask(task: M.Task, script: seq<M.SendResult>)
      modifies this
      ensures State() == M.RunTask(old(State()), task, script)
    {
      match task
      case CloseTask =>
        CloseFromLoop();
      case SendTask(frame, token) =>
        if !open {
          log := log + [M.Complete(token, M.NotConnected)];
          return;
        }
        var f: M.OutgoingFrame := M.Pending(frame, 0, token);
        writeQueue := writeQueue + [f];
        enqueued := enqueued + [f];
        UpdateEvents();
        AsyncWrite(script);
    }

    method HandleEvents(ev: M.Readiness, rs: seq<M.RecvResult>, ws: seq<M.SendResult>)
      modifies this
      ensures State() == M.HandleEvents(old(State()), ev, rs, ws)
    {
      hide M.AsyncRead, M.AsyncWrite, M.CloseFromLoop;
      if !open {
        return;
      }
      if ev.errOrHup {
        CloseFromLoop();
        return;
      }
      if ev.readable {
        AsyncRead(rs);
      }
      if open && ev.writable {
        AsyncWrite(ws);
      }
      if open && ev.peerClosed {
        CloseFromLoop();
      }
    }

    method AsyncRead(script: seq<M.RecvResult>)
      modifies this
      ensures State() == M.AsyncRead(old(State()), script)
    {
      hide M.ParseBuffer, M.CloseFromLoop, M.FailAndClose;
      var i := 0;
      assert script[0..] == script;
      while open
        invariant i <= |script|
        invariant M.AsyncRead(State(), script[i..]) == M.AsyncRead(old(State()), script)
        decreases |script| - i
      {
        if i == |script| {
          break;
        }
        assert script[i..][1..] == script[i + 1..];
        match script[i] {
          case Data(chunk) =>
            readBuffer := readBuffer + chunk;
            received := received + chunk;
          case Eof =>
            CloseFromLoop();
            return;
          case RecvAgain =>
            break;
          case RecvInterrupted =>
          case RecvError(e) =>
            FailAndClose(M.SystemError(e));
            return;
        }
        i := i + 1;
      }
      if open {
        ParseBuffer();
      }
    }

    /** The second loop of `async_read`. */
    method ParseBuffer()
      requires open
      modifies this
      ensures State() == M.ParseBuffer(old(State()))
    {
      hide M.CloseFromLoop, M.FailAndClose, Drain, Decoding, Pop, M.Deliveries;
      ghost var start := State();
      ghost var got: seq<RpcMessage> := [];
      NoDeliveries(start.log);
      while open
        invariant open
        invariant State() == start.(readBuffer := readBuffer, log := start.log + M.Deliveries(got))
        invariant var d := Drain(readBuffer); Drain(start.readBuffer) == d.(messages := got + d.messages)
        decreases |readBuffer|
      {
        DrainCases(readBuffer, got);
        match Pop(readBuffer)
        case NeedMore =>
          break;
        case TooLarge =>
          FailAndClose(M.MessageSize);
          return;
        case Popped(payload, rest) =>
          readBuffer := rest;
          var decoded := Decode(payload);
          if decoded.None? {
            FailAndClose(M.ProtocolError);
            return;
          }
          log := log + [M.Deliver(decoded.value)];
          OneMoreDelivery(start.log, got, decoded.value);
          got := got + [decoded.value];
      }
    }

    method AsyncWrite(script: seq<M.SendResult>)
      modifies this
      ensures State() == M.AsyncWrite(old(State()), script)
    {
      hide M.CloseFromLoop, M.FailAndClose;
      var i := 0;
      assert script[0..] == script;
      while open && writeQueue != []
        invariant i <= |script|
        invariant M.AsyncWrite(State(), script[i..]) == M.AsyncWrite(old(State()), script)
        decreases |script| - i
      {
        if i == |script| {
          break;
        }
        assert script[i..][1..] == script[i + 1..];
        match script[i] {
          case Accepts(count) =>
            var frame := writeQueue[0];
            var remaining := |frame.bytes| - frame.written;
            var n := if count < remaining then count else remaining;
            assert frame.bytes[frame.written..frame.written + remaining] == frame.bytes[frame.written..];
            sent := sent + frame.bytes[frame.written..frame.written + n];
            if frame.written + n == |frame.bytes| {
              writeQueue := writeQueue[1..];
              log := log + [M.Complete(frame.token, M.Success)];
            } else {
              writeQueue := [frame.(written := frame.written + n)] + writeQueue[1..];
            }
          case SendAgain =>
            break;
          case SendInterrupted =>
          case SendError(e) =>
            FailAndClose(M.SystemError(e));
            return;
        }
        i := i + 1;
      }
      if open {
        UpdateEvents();
      }
    }

    method UpdateEvents()
      modifies this`epollOut
      ensures State() == M.UpdateEvents(old(State()))
      ensures registered && open ==> (epollOut <==> writeQueue != [])
    {
      if !registered || !open {
        return;
      }
      epollOut := writeQueue != [];
    }

    method CloseFromLoop()
      modifies this
      ensures State() == M.CloseFromLoop(old(State()))
      ensures !open && (old(open) ==> socketFd == -1 && !registered && writeQueue == [])
    {
      if !open {
        return;
      }
      hide M.FailAll;
      ghost var gone := if registered then [M.Deregister(socketFd)] else [];
      ghost var closed := if socketFd != -1 then [M.CloseFd(socketFd)] else [];
      open := false;
      var savedFd := socketFd;
      socketFd := -1;
      if registered {
        log := log + [M.Deregister(savedFd)];
        registered := false;
      }
      assert log == old(log) + gone;
      if savedFd != -1 {
        log := log + [M.CloseFd(savedFd)];
      }
      assert log == old(log) + gone + closed;
      CompleteAll(M.NotConnected);
      log := log + [M.CloseHandler];
    }

    /** The loop both close paths share: pop every frame and call its handler. */
    method CompleteAll(code: M.ErrorCode)
      modifies this`writeQueue, this`log
      ensures writeQueue == [] && log == old(log) + M.FailAll(old(writeQueue), code)
    {
      while writeQueue != []
        invariant log + M.FailAll(writeQueue, code) == old(log) + M.FailAll(old(writeQueue), code)
        decreases |writeQueue|
      {
        var token := writeQueue[0].token;
        assert log + ([M.Complete(token, code)] + M.FailAll(writeQueue[1..], code))
            == (log + [M.Complete(token, code)]) + M.FailAll(writeQueue[1..], code);
        writeQueue := writeQueue[1..];
        log := log + [M.Complete(token, code)];
      }
    }

    method FailAndClose(code: M.ErrorCode)
      modifies this
      ensures State() == M.FailAndClose(old(State()), code)
      ensures !open && writeQueue == []
    {
      failure := Some(code);
      CompleteAll(code);
      CloseFromLoop();
    }
  }

  lemma NoDeliveries(log: seq<M.Effect>)
    ensures log + M.Deliveries([]) == log
  {
  }

  lemma OneMoreDelivery(log: seq<M.Effect>, got: seq<RpcMessage>, m: RpcMessage)
    ensures log + M.Deliveries(got + [m]) == log + M.Deliveries(got) + [M.Deliver(m)]
  {
    DeliveriesSnoc(got, m);
  }

  /** One iteration of the parsing loop, behind the messages already got. */
  lemma DrainCases(buffer: seq<byte>, got: seq<RpcMessage>)
    ensures var d := Drain(buffer);
      match Pop(buffer)
      case NeedMore => d.(messages := got + d.messages) == Drained(got, buffer, Fine)
      case TooLarge => d.(messages := got + d.messages) == Drained(got, buffer, FrameTooLarge)
      case Popped(payload, rest) =>
        match Decoding(payload)
        case None => d.(messages := got + d.messages) == Drained(got, rest, BadMessage)
        case Some(m) =>
          d.(messages := got + d.messages) == Drain(rest).(messages := got + [m] + Drain(rest).messages)
  {
    hide Pop, Decoding;
    assert got + [] == got;
    match Pop(buffer)
    case Popped(payload, rest) =>
      if Decoding(payload).Some? {
        var m := Decoding(payload).value;
        assert got + ([m] + Drain(rest).messages) == got + [m] + Drain(rest).messages;
      }
    case _ =>
  }

  lemma {:induction false} DeliveriesSnoc(ms: seq<RpcMessage>, m: RpcMessage)
    ensures M.Deliveries(ms + [m]) == M.Deliveries(ms) + [M.Deliver(m)]
  {
    if ms == [] {
      assert ms + [m] == [m];
      assert M.Deliveries([m]) == [M.Deliver(m)] + M.Deliveries([m][1..]);
    } else {
      assert (ms + [m])[1..] == ms[1..] + [m];
      DeliveriesSnoc(ms[1..], m);
    }
  }
}
