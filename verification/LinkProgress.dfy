/** What the endpoints of a pair owe their callers: what `send` accepts is what was sent,
    a requested close closes, and everything accepted can still be delivered. */
module LinkProgress {
  import opened Codec
  import opened Framing
  import opened SessionModel
  import opened SessionTheorems
  import opened SessionOutcomes
  import opened Pair = Link
  import opened Wrappers

  lemma {:induction false} ExecutesConcat(l: Link, a: seq<Move>, m: Link, b: seq<Move>, t: Link)
    requires Executes(l, a, m) && Executes(m, b, t)
    ensures Executes(l, a + b, t)
    decreases |a|
  {
    hide Possible, Advance;
    if a == [] {
      assert a + b == b;
    } else {
      assert (a + b)[1..] == a[1..] + b;
      ExecutesConcat(Advance(l, a[0]), a[1..], m, b, t);
    }
  }

  lemma ReachableMore(l: Link, moves: seq<Move>, t: Link, leftFd: int, rightFd: int)
    requires Reachable(l, leftFd, rightFd) && Executes(l, moves, t)
    ensures Reachable(t, leftFd, rightFd)
  {
    hide Executes;
    var start := NewPair(leftFd, rightFd);
    var before :| Executes(start, before, l);
    ExecutesConcat(start, before, l, moves, t);
  }

  lemma OneMove(l: Link, m: Move) returns (moves: seq<Move>)
    requires Possible(l, m)
    ensures moves == [m] && Executes(l, moves, Advance(l, m))
  {
    moves := [m];
    assert Executes(Advance(l, m), moves[1..], Advance(l, m));
  }

  // ------------------------------------------------------ what was sent is what is accepted

  /** The messages a side was asked to send, those that fit a frame, in order. */
  function SendsThatFit(moves: seq<Move>, side: Side): seq<RpcMessage>
  {
    if moves == [] then []
    else
      (if moves[0].side == side && moves[0].op.Send? && Fits(moves[0].op.message) then [moves[0].op.message] else [])
      + SendsThatFit(moves[1..], side)
  }

  lemma StepAccepts(l: Link, m: Move, side: Side)
    ensures Messages(At(Advance(l, m), side).accepted) == Messages(At(l, side).accepted) + SendsThatFit([m], side)
  {
    hide Fits, HandleEvents, RunTask, Encoding, Frame;
    assert [m][1..] == [];
  }

  lemma {:induction false} RunAccepts(l: Link, moves: seq<Move>, t: Link, side: Side)
    requires Executes(l, moves, t)
    ensures Messages(At(t, side).accepted) == Messages(At(l, side).accepted) + SendsThatFit(moves, side)
    decreases |moves|
  {
    hide Fits, Advance, Messages, Possible;
    if moves != [] {
      StepAccepts(l, moves[0], side);
      RunAccepts(Advance(l, moves[0]), moves[1..], t, side);
      assert [moves[0]][1..] == [];
    }
  }

  /** The messages accepted are exactly those sent that fit a frame, in the order sent: with
      `DeliveryIsPrefix`, what one side receives is a prefix of what the other was asked to
      send, without the oversized ones. */
  lemma AcceptedAreTheFittingSends(moves: seq<Move>, l: Link, leftFd: int, rightFd: int, side: Side)
    requires leftFd != -1 && rightFd != -1 && Executes(NewPair(leftFd, rightFd), moves, l)
    ensures Messages(At(l, side).accepted) == SendsThatFit(moves, side)
    ensures Delivered(At(l, Other(side)).session) <= SendsThatFit(moves, side)
  {
    hide Executes, Delivered, Decodable;
    assert Reachable(l, leftFd, rightFd);
    DeliveryIsPrefix(l, leftFd, rightFd, side);
    hide Reachable, Messages, SendsThatFit;
    RunAccepts(NewPair(leftFd, rightFd), moves, l, side);
    FreshAcceptsNothing(leftFd, rightFd, side);
  }

  lemma FreshAcceptsNothing(leftFd: int, rightFd: int, side: Side)
    ensures Messages(At(NewPair(leftFd, rightFd), side).accepted) == []
  {
  }

  // ---------------------------------------------------------------- closing on request

  /** A close was asked for, and has happened or is still posted. */
  predicate CloseHonoured(e: Endpoint) { !e.session.open || CloseTask in e.tasks }

  lemma OperationKeepsClose(e: Endpoint, op: Op, fd: int)
    requires EndpointInv(e, fd) && (op.RequestClose? || CloseHonoured(e))
    ensures CloseHonoured(Step(e, op))
  {
    match op
    case Run(ws) =>
      hide RunTask;
      assert e.session.open ==> Running(e.session);
      hide EndpointInv;
      if e.tasks != [] {
        TaskOutcome(e.session, e.tasks[0], ws);
        if CloseTask in e.tasks && e.tasks[0].SendTask? {
          assert CloseTask in e.tasks[1..];
        }
      }
    case Ready(ev, rs, ws) =>
      hide HandleEvents;
      EventsKeep(e.session, ev, rs, ws, fd);
    case _ =>
  }

  lemma {:induction false} RunKeepsClose(l: Link, moves: seq<Move>, t: Link, leftFd: int, rightFd: int, side: Side)
    requires LinkInv(l, leftFd, rightFd) && Executes(l, moves, t)
    requires CloseHonoured(At(l, side)) || Move(side, RequestClose) in moves
    ensures CloseHonoured(At(t, side))
    decreases |moves|
  {
    hide EndpointInv, Step, CloseHonoured;
    if moves != [] {
      var m := moves[0];
      var u := Advance(l, m);
      assert Executes(l, [m], u) by { var one := OneMove(l, m); }
      RunKeepsInv(l, [m], u, leftFd, rightFd);
      if m.side == side && (m.op.RequestClose? || CloseHonoured(At(l, side))) {
        OperationKeepsClose(At(l, side), m.op, if side == Left then leftFd else rightFd);
      }
      RunKeepsClose(u, moves[1..], t, leftFd, rightFd, side);
    }
  }

  /** A close that was asked for happens: once the tasks posted have run, the session is
      closed, with its close effects in order. */
  lemma RequestedCloseCloses(moves: seq<Move>, l: Link, leftFd: int, rightFd: int, side: Side)
    requires leftFd != -1 && rightFd != -1 && Executes(NewPair(leftFd, rightFd), moves, l)
    requires Move(side, RequestClose) in moves && At(l, side).tasks == []
    ensures !At(l, side).session.open
    ensures var fd := if side == Left then leftFd else rightFd;
      Closings(At(l, side).session) == [Deregister(fd), CloseFd(fd), Effect.CloseHandler]
  {
    hide Executes, EndpointInv, Fresh;
    var start := NewPair(leftFd, rightFd);
    assert Reachable(l, leftFd, rightFd);
    assert Reachable(start, leftFd, rightFd) by {
      assert Executes(start, [], start) by { NoMoves(start); }
    }
    hide Reachable;
    ReachableInv(start, leftFd, rightFd);
    RunKeepsClose(start, moves, l, leftFd, rightFd, side);
    BetweenOperations(l, leftFd, rightFd, side);
  }

  lemma NoMoves(l: Link)
    ensures Executes(l, [], l)
  {
  }

  // ------------------------------------------------- everything can still be delivered

  predicate NoClosePosted(e: Endpoint) { CloseTask !in e.tasks }

  lemma OpenIsRunning(l: Link, leftFd: int, rightFd: int, side: Side)
    requires Reachable(l, leftFd, rightFd) && At(l, side).session.open
    ensures Running(At(l, side).session)
  {
    ReachableInv(l, leftFd, rightFd);
  }

  lemma ReceivedWasSent(l: Link, leftFd: int, rightFd: int, side: Side)
    requires Reachable(l, leftFd, rightFd)
    ensures At(l, side).session.received <= At(l, Other(side)).session.sent
  {
    hide Reachable, EndpointInv;
    ReachableInv(l, leftFd, rightFd);
  }

  /** The loop runs the first posted send, the kernel taking nothing. */
  lemma RunFirstTask(l: Link, leftFd: int, rightFd: int, side: Side) returns (m: Move, t: Link)
    requires Reachable(l, leftFd, rightFd) && At(l, side).session.open
    requires At(l, side).tasks != [] && At(l, side).tasks[0].SendTask?
    ensures m.op.Run? && Possible(l, m) && t == Advance(l, m) && Reachable(t, leftFd, rightFd)
    ensures At(t, side).session.open && At(t, side).accepted == At(l, side).accepted
    ensures At(t, side).tasks == At(l, side).tasks[1..] && At(t, Other(side)) == At(l, Other(side))
  {
    hide Reachable, RunTask, Taken, ErrorMet, After, Unwritten, Delivered, Successes, Finished, Tokens;
    var e := At(l, side);
    m := Move(side, Run([]));
    t := Advance(l, m);
    OpenIsRunning(l, leftFd, rightFd, side);
    TaskOutcome(e.session, e.tasks[0], []);
    NothingAsked(e.session.writeQueue + [Outgoing(e.tasks[0].frame, e.tasks[0].token)]);
    ReceivedWasSent(l, leftFd, rightFd, side);
    var moves := OneMove(l, m);
    ReachableMore(l, moves, t, leftFd, rightFd);
  }

  /** The loop runs everything posted. */
  lemma {:induction false} RunTasks(l: Link, leftFd: int, rightFd: int, side: Side)
    returns (moves: seq<Move>, t: Link)
    requires Reachable(l, leftFd, rightFd) && At(l, side).session.open && NoClosePosted(At(l, side))
    ensures Executes(l, moves, t) && Reachable(t, leftFd, rightFd)
    ensures forall m <- moves :: m.op.Run?
    ensures At(t, side).session.open && At(t, side).tasks == [] && At(t, side).accepted == At(l, side).accepted
    ensures At(t, Other(side)) == At(l, Other(side))
    decreases |At(l, side).tasks|
  {
    hide Reachable, Executes, Possible, Advance;
    if At(l, side).tasks == [] {
      moves, t := [], l;
      NoMoves(l);
    } else {
      assert At(l, side).tasks[0] in At(l, side).tasks;
      var m, u := RunFirstTask(l, leftFd, rightFd, side);
      var first := OneMove(l, m);
      var more;
      more, t := RunTasks(u, leftFd, rightFd, side);
      ExecutesConcat(l, first, u, more, t);
      moves := first + more;
    }
  }

  lemma NothingAsked(q: seq<OutgoingFrame>)
    ensures ErrorMet(q, []) == None
  {
  }

  /** One writable event with a kernel that takes everything. */
  lemma WriteAll(l: Link, leftFd: int, rightFd: int, side: Side) returns (m: Move, t: Link)
    requires Reachable(l, leftFd, rightFd) && At(l, side).session.open
    ensures m.op.Ready? && Possible(l, m) && t == Advance(l, m) && Reachable(t, leftFd, rightFd)
    ensures At(t, side).session.open && At(t, side).session.writeQueue == []
    ensures At(t, side).tasks == At(l, side).tasks && At(t, side).accepted == At(l, side).accepted
    ensures At(t, Other(side)) == At(l, Other(side))
  {
    hide Reachable, HandleEvents, Taken, ErrorMet, After, Unwritten, Delivered, Successes, Empties;
    var s := At(l, side).session;
    var ws, ev := EmptyingScript(s.writeQueue), Readiness(false, false, true, false);
    m := Move(side, Ready(ev, [], ws));
    t := Advance(l, m);
    OpenIsRunning(l, leftFd, rightFd, side);
    EventOutcome(s, ev, [], ws);
    EmptyingTakesAll(s.writeQueue, ws);
    AfterIs(s.writeQueue, |Unwritten(s.writeQueue)|);
    ReceivedWasSent(l, leftFd, rightFd, side);
    assert s.received + [] == s.received;
    var moves := OneMove(l, m);
    ReachableMore(l, moves, t, leftFd, rightFd);
  }

  /** One readable event with everything the other side has sent. */
  lemma ReadAllSent(l: Link, leftFd: int, rightFd: int, side: Side) returns (m: Move, t: Link)
    requires Reachable(l, leftFd, rightFd) && At(l, Other(side)).session.open
    requires forall a <- At(l, side).accepted :: a.message.status >= 0
    ensures m.op.Ready? && Possible(l, m) && t == Advance(l, m) && Reachable(t, leftFd, rightFd)
    ensures At(t, Other(side)).session.open && At(t, Other(side)).session.received == At(l, side).session.sent
    ensures At(t, side) == At(l, side)
  {
    hide Reachable, HandleEvents, Taken, ErrorMet, After, Unwritten, Delivered, Successes, Drain, Finished, Tokens;
    var r, sent := At(l, Other(side)).session, At(l, side).session.sent;
    ReceivedWasSent(l, leftFd, rightFd, Other(side));
    var missing := sent[|r.received|..];
    var rs, ev := ChunksOf(missing), Readiness(false, true, false, false);
    m := Move(Other(side), Ready(ev, rs, []));
    t := Advance(l, m);
    OpenIsRunning(l, leftFd, rightFd, Other(side));
    EventOutcome(r, ev, rs, []);
    assert r.received + missing == sent;
    assert At(t, Other(side)).session == HandleEvents(r, ev, rs, []);
    var moves := OneMove(l, m);
    ReachableMore(l, moves, t, leftFd, rightFd);
    ValidStreamsAreAccepted(t, leftFd, rightFd, side);
  }

  /** No message is stuck: from every reachable pair with both ends open, no close posted on
      the sending side and no negative status accepted, letting the loop run what is posted,
      the sender write and the receiver read delivers every accepted message, and every one
      of those sends completes with success. */
  lemma EverythingCanBeDelivered(l: Link, leftFd: int, rightFd: int, side: Side)
    returns (moves: seq<Move>, t: Link)
    requires Reachable(l, leftFd, rightFd)
    requires At(l, side).session.open && At(l, Other(side)).session.open && NoClosePosted(At(l, side))
    requires forall a <- At(l, side).accepted :: a.message.status >= 0
    ensures Executes(l, moves, t) && forall m <- moves :: m.op.Run? || m.op.Ready?
    ensures At(t, side).session.open && At(t, Other(side)).session.open
    ensures At(t, side).accepted == At(l, side).accepted
    ensures Delivered(At(t, Other(side)).session) == Messages(At(l, side).accepted)
    ensures forall a <- At(l, side).accepted :: a.token in Successes(At(t, side).session)
  {
    hide Reachable, Executes, Delivered, Successes, Possible, Advance, Messages;
    var tasks, u := RunTasks(l, leftFd, rightFd, side);
    var write, v := WriteAll(u, leftFd, rightFd, side);
    var read;
    read, t := ReadAllSent(v, leftFd, rightFd, side);
    var a := OneMove(u, write);
    var b := OneMove(v, read);
    ExecutesConcat(u, a, v, b, t);
    ExecutesConcat(l, tasks, u, a + b, t);
    moves := tasks + (a + b);
    DeliveryIsComplete(t, leftFd, rightFd, side);
    AllWritten(t, leftFd, rightFd, side);
  }

  lemma AllWritten(l: Link, leftFd: int, rightFd: int, side: Side)
    requires Reachable(l, leftFd, rightFd)
    requires At(l, side).session.open && At(l, side).tasks == [] && At(l, side).session.writeQueue == []
    ensures forall a <- At(l, side).accepted :: a.token in Successes(At(l, side).session)
  {
    hide Reachable, EndpointInv, Successes, Messages, Stream;
    ReachableInv(l, leftFd, rightFd);
    var e := At(l, side);
    SentIsStreamPrefix(e, if side == Left then leftFd else rightFd);
    forall a | a in e.accepted ensures a.token in Successes(e.session) {
      var i :| 0 <= i < |e.accepted| && e.accepted[i] == a;
      SuccessMeansWritten(l, leftFd, rightFd, side, i);
      StreamPrefix(Messages(e.accepted), i + 1);
    }
  }
}
