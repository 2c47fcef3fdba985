/** What becomes of every call and of every message a client is given, read off the history
    of a run. */
module ClientOutcomes {
  import opened Codec
  import opened Framing
  import opened SessionModel
  import opened SessionTheorems
  import opened Link
  import opened LinkProgress
  import opened Client
  import opened Wrappers

  // ------------------------------------------------------------ what one action may do

  predicate Known(t: Table, id: nat) { id in t.pending || id in t.fate }

  /** The reason, if any, for a waiting call to end at this action. */
  function CauseOf(c: System, a: Action, id: nat): Option<Fate>
    requires Can(c, a)
  {
    match a
    case SendCall(other, m) => if other == id && !Fits(m) then Some(WriteFailed) else None
    case Handle =>
      (match c.ep.session.log[c.seen]
       case Deliver(m) => if m.kind == KIND_RESPONSE && m.id == id then Some(Answered) else None
       case Complete(token, code) =>
         if code != Success && token in c.callOf && c.callOf[token] == id then Some(WriteFailed) else None
       case CloseHandler => Some(Cleared)
       case _ => None)
    case _ => None
  }

  /** Calls become known by being registered, stay known, and end only for a cause. */
  ghost predicate Follows(c: System, a: Action, d: System)
    requires Can(c, a)
  {
    && (forall id: nat :: Known(d.table, id) <==> Known(c.table, id) || a == Insert(id))
    && (forall id <- c.table.fate :: id in d.table.fate && d.table.fate[id] == c.table.fate[id])
    && (forall id <- c.table.pending ::
         if CauseOf(c, a, id).Some? then id in d.table.fate && d.table.fate[id] == CauseOf(c, a, id).value
         else id in d.table.pending)
    && d.table.pending !! d.table.fate.Keys
  }

  lemma OnWriteFollows(t: Table, id: nat, code: ErrorCode)
    requires t.pending !! t.fate.Keys
    ensures var u := OnWrite(t, id, code);
      && (forall x: nat :: Known(u, x) <==> Known(t, x))
      && (forall x <- t.fate :: x in u.fate && u.fate[x] == t.fate[x])
      && (forall x <- t.pending ::
           if x == id && code != Success then x in u.fate && u.fate[x] == WriteFailed else x in u.pending)
      && u.pending !! u.fate.Keys
  {
    forall x | x in t.fate ensures x !in t.pending {
      assert x in t.fate.Keys;
    }
  }

  lemma OnMessageFollows(t: Table, m: RpcMessage)
    requires t.pending !! t.fate.Keys
    ensures var u := OnMessage(t, m);
      && (forall x: nat :: Known(u, x) <==> Known(t, x))
      && (forall x <- t.fate :: x in u.fate && u.fate[x] == t.fate[x])
      && (forall x <- t.pending ::
           if x == m.id && m.kind == KIND_RESPONSE then x in u.fate && u.fate[x] == Answered else x in u.pending)
      && u.pending !! u.fate.Keys
  {
    forall x | x in t.fate ensures x !in t.pending {
      assert x in t.fate.Keys;
    }
  }

  lemma OnCloseFollows(t: Table)
    requires t.pending !! t.fate.Keys
    ensures var u := OnClose(t);
      && (forall x: nat :: Known(u, x) <==> Known(t, x))
      && (forall x <- t.fate :: x in u.fate && u.fate[x] == t.fate[x])
      && (forall x <- t.pending :: x in u.fate && u.fate[x] == Cleared)
      && u.pending !! u.fate.Keys
  {
    forall x | x in t.fate ensures x !in t.pending {
      assert x in t.fate.Keys;
    }
  }

  lemma HandleFollows(c: System, d: System)
    requires IdsInv(c) && Takes(c, Handle, d)
    ensures Follows(c, Handle, d)
  {
    hide OnWrite, OnMessage, OnClose;
    TableApart(c);
    match c.ep.session.log[c.seen]
    case Deliver(m) => OnMessageFollows(c.table, m);
    case Complete(token, code) =>
      if token in c.callOf { OnWriteFollows(c.table, c.callOf[token], code); }
    case CloseHandler => OnCloseFollows(c.table);
    case _ =>
  }

  lemma InsertFollows(c: System, d: System, id: nat)
    requires IdsInv(c) && Takes(c, Insert(id), d)
    ensures Follows(c, Insert(id), d)
  {
    TableApart(c);
    assert id !in c.table.fate.Keys;
  }

  lemma SendFollows(c: System, d: System, id: nat, m: RpcMessage)
    requires IdsInv(c) && Takes(c, SendCall(id, m), d)
    ensures Follows(c, SendCall(id, m), d)
  {
    hide Fits, Step, OnWrite;
    TableApart(c);
    if !Fits(m) { OnWriteFollows(c.table, id, MessageSize); }
  }

  lemma ActionFollows(c: System, a: Action, d: System)
    requires IdsInv(c) && Takes(c, a, d)
    ensures Follows(c, a, d)
  {
    match a
    case Insert(id) => InsertFollows(c, d, id);
    case SendCall(id, m) => SendFollows(c, d, id, m);
    case Handle => HandleFollows(c, d);
    case _ =>
      hide Step;
      TableApart(c);
  }

  lemma IdsOf(c: System, fd: int)
    requires SystemInv(c, fd)
    ensures IdsInv(c)
  {
    hide EndpointInv;
  }

  // ------------------------------------------------------------------ the fate of a call

  /** The first cause that ends call `id` in a run, once it is registered. */
  ghost function FirstCause(c: System, actions: seq<Action>, id: nat, registered: bool): Option<Fate>
    decreases |actions|
  {
    if actions == [] || !Can(c, actions[0]) then None
    else if registered && CauseOf(c, actions[0], id).Some? then CauseOf(c, actions[0], id)
    else FirstCause(Act(c, actions[0]), actions[1..], id, registered || actions[0] == Insert(id))
  }

  lemma {:induction false} FateStays(c: System, actions: seq<Action>, d: System, fd: int, id: nat)
    requires SystemInv(c, fd) && Runs(c, actions, d) && id in c.table.fate
    ensures id in d.table.fate && d.table.fate[id] == c.table.fate[id] && id !in d.table.pending
    decreases |actions|
  {
    hide SystemInv, Act, Can, IdsInv;
    IdsOf(c, fd);
    TableApart(c);
    assert id in c.table.fate.Keys;
    if actions != [] {
      var e := Act(c, actions[0]);
      assert Takes(c, actions[0], e);
      ActionFollows(c, actions[0], e);
      ActKeeps(c, actions[0], e, fd);
      FateStays(e, actions[1..], d, fd, id);
    }
  }

  lemma {:induction false} RunFates(c: System, actions: seq<Action>, d: System, fd: int, id: nat)
    requires SystemInv(c, fd) && Runs(c, actions, d) && id !in c.table.fate
    ensures var first := FirstCause(c, actions, id, id in c.table.pending);
      && (id in d.table.fate <==> first.Some?)
      && (first.Some? ==> d.table.fate[id] == first.value)
      && (id in d.table.pending <==> first.None? && (id in c.table.pending || Insert(id) in actions))
    decreases |actions|
  {
    hide SystemInv, Act, Can, IdsInv, CauseOf;
    if actions != [] {
      var a, e := actions[0], Act(c, actions[0]);
      assert Takes(c, a, e);
      IdsOf(c, fd);
      ActionFollows(c, a, e);
      ActKeeps(c, a, e, fd);
      assert Known(e.table, id) <==> Known(c.table, id) || a == Insert(id);
      assert Insert(id) in actions <==> a == Insert(id) || Insert(id) in actions[1..];
      if id in e.table.fate {
        FateStays(e, actions[1..], d, fd, id);
        EndsForACause(c, a, e, id);
      } else {
        RunFates(e, actions[1..], d, fd, id);
      }
    }
  }

  lemma EndsForACause(c: System, a: Action, d: System, id: nat)
    requires Can(c, a) && Follows(c, a, d) && IdsInv(c) && Takes(c, a, d)
    requires id !in c.table.fate && id in d.table.fate
    ensures id in c.table.pending && CauseOf(c, a, id) == Some(d.table.fate[id])
  {
    assert Known(d.table, id);
    assert id in d.table.fate.Keys;
  }

  /** What becomes of a call is decided by the first cause after its registration, in every
      run: a response delivered with its id answers it, a failed or refused send of its own
      removes it, and the close handler clears it; with no such cause it is pending. */
  lemma FateIsFirstCause(actions: seq<Action>, d: System, fd: int, id: nat)
    requires fd != -1 && Runs(Connected(fd), actions, d)
    ensures var first := FirstCause(Connected(fd), actions, id, false);
      && (id in d.table.fate <==> first.Some?)
      && (first.Some? ==> d.table.fate[id] == first.value)
      && (id in d.table.pending <==> first.None? && Insert(id) in actions)
  {
    hide SystemInv, Runs;
    ConnectedInv(fd);
    RunFates(Connected(fd), actions, d, fd, id);
  }

  // -------------------------------------------------------------- where messages go

  lemma {:induction false} RunKnows(c: System, actions: seq<Action>, d: System, fd: int, id: nat)
    requires SystemInv(c, fd) && Runs(c, actions, d)
    ensures SystemInv(d, fd)
    ensures Known(d.table, id) <==> Known(c.table, id) || Insert(id) in actions
    decreases |actions|
  {
    hide SystemInv, Act, Can, IdsInv, CauseOf;
    if actions != [] {
      var a, e := actions[0], Act(c, actions[0]);
      assert Takes(c, a, e);
      IdsOf(c, fd);
      ActionFollows(c, a, e);
      ActKeeps(c, a, e, fd);
      assert Known(e.table, id) <==> Known(c.table, id) || a == Insert(id);
      assert Insert(id) in actions <==> a == Insert(id) || Insert(id) in actions[1..];
      RunKnows(e, actions[1..], d, fd, id);
    }
  }

  /** A delivered message reaches the call it answers, or the general handler: when it is
      handled, it goes to the response handler of the call with its id exactly when it is a
      response, that call has been registered and nothing has ended it; and the call is then
      answered in every continuation. */
  lemma ResponseReachesItsCall(before: seq<Action>, c: System, m: RpcMessage, d: System, fd: int)
    requires fd != -1 && Runs(Connected(fd), before, c) && Takes(c, Handle, d)
    requires c.ep.session.log[c.seen] == Deliver(m)
    ensures var waiting := Insert(m.id) in before && FirstCause(Connected(fd), before, m.id, false).None?;
      if m.kind == KIND_RESPONSE && waiting then
        && d.table.answers == c.table.answers + [m] && d.table.others == c.table.others
        && forall after, e :: Runs(d, after, e) ==>
             m.id !in e.table.pending && m.id in e.table.fate && e.table.fate[m.id] == Answered
      else
        d.table.answers == c.table.answers && d.table.others == c.table.others + [m]
  {
    hide SystemInv, Runs, FirstCause;
    FateIsFirstCause(before, c, fd, m.id);
    ConnectedInv(fd);
    RunKnows(Connected(fd), before, c, fd, m.id);
    IdsOf(c, fd);
    HandleFollows(c, d);
    ActKeeps(c, Handle, d, fd);
    hide IdsInv, Follows;
    if m.kind == KIND_RESPONSE && m.id in c.table.pending {
      forall after, e | Runs(d, after, e)
        ensures m.id !in e.table.pending && m.id in e.table.fate && e.table.fate[m.id] == Answered
      {
        FateStays(d, after, e, fd, m.id);
      }
    }
  }

  /** The messages among the effects whose handlers have run. */
  function HandledMessages(c: System): seq<RpcMessage>
    requires c.seen <= |c.ep.session.log|
  {
    Collect(MessageOf, c.ep.session.log[..c.seen])
  }

  ghost predicate Shared(c: System)
  {
    c.seen <= |c.ep.session.log|
    && multiset(c.table.answers) + multiset(c.table.others) == multiset(HandledMessages(c))
  }

  lemma HandleShares(c: System, d: System)
    requires Shared(c) && Takes(c, Handle, d)
    ensures Shared(d)
  {
    hide Collect;
    var e := c.ep.session.log[c.seen];
    assert d.ep.session.log[..d.seen] == c.ep.session.log[..c.seen] + [e];
    CollectConcat(MessageOf, c.ep.session.log[..c.seen], [e]);
    SingleCollects(e);
    OneEffect(c.table, c.callOf, e);
  }

  lemma OneEffect(t: Table, callOf: map<nat, nat>, e: Effect)
    ensures var u := HandleEffect(t, callOf, e);
      multiset(u.answers) + multiset(u.others)
      == multiset(t.answers) + multiset(t.others) + (if e.Deliver? then multiset{e.message} else multiset{})
  {
  }

  lemma LogGrows(c: System, a: Action, d: System)
    requires Takes(c, a, d)
    ensures c.ep.session.log <= d.ep.session.log
  {
    hide Fits;
    match a
    case SendCall(_, m) =>
    case Loop(op) =>
      hide Step;
      StepGrows(c.ep, op);
    case _ =>
  }

  lemma OthersKeepTheirs(c: System, a: Action, d: System)
    requires Takes(c, a, d) && a != Handle
    ensures d.seen == c.seen && d.table.answers == c.table.answers && d.table.others == c.table.others
  {
    hide Step, Fits;
  }

  lemma {:induction false} RunShares(c: System, actions: seq<Action>, d: System)
    requires Runs(c, actions, d) && Shared(c)
    ensures Shared(d)
    decreases |actions|
  {
    hide Act, Can, Shared;
    if actions != [] {
      var a, e := actions[0], Act(c, actions[0]);
      assert Takes(c, a, e);
      if a == Handle {
        HandleShares(c, e);
      } else {
        LogGrows(c, a, e);
        OthersKeepTheirs(c, a, e);
        SameShares(c, e);
      }
      RunShares(e, actions[1..], d);
    }
  }

  lemma SameShares(c: System, d: System)
    requires Shared(c) && d.seen == c.seen && c.ep.session.log <= d.ep.session.log
    requires d.table.answers == c.table.answers && d.table.others == c.table.others
    ensures Shared(d)
  {
    assert d.ep.session.log[..d.seen] == c.ep.session.log[..c.seen];
  }

  /** Every message the session delivers is handed on exactly once: in every run, the
      responses handed to calls and the messages handed to the general handler are together
      the deliveries handled so far. */
  lemma EachDeliveryHandedOnce(actions: seq<Action>, c: System, fd: int)
    requires fd != -1 && Runs(Connected(fd), actions, c)
    ensures c.seen <= |c.ep.session.log|
    ensures multiset(c.table.answers) + multiset(c.table.others) == multiset(HandledMessages(c))
    ensures c.seen == |c.ep.session.log| ==> HandledMessages(c) == Delivered(c.ep.session)
  {
    assert Connected(fd).ep.session.log[..0] == [];
    assert Shared(Connected(fd));
    hide Runs, Collect;
    RunShares(Connected(fd), actions, c);
    if c.seen == |c.ep.session.log| {
      assert c.ep.session.log[..c.seen] == c.ep.session.log;
    }
  }

  // ------------------------------------------------------------------ calling

  /** A call goes out: with the session open, its four steps register a fresh id and post its
      request, exactly as given, under that id; nothing else is touched. */
  lemma CallGoesOut(c: System, fd: int, m: RpcMessage) returns (d: System)
    requires ReachableClient(c, fd) && c.ep.session.open
    requires m.id == c.nextId && m.kind == KIND_REQUEST && Fits(m)
    ensures Runs(c, [Check, Issue, Insert(m.id), SendCall(m.id, m)], d)
    ensures m.id in d.table.pending && !Known(c.table, m.id) && d.nextId == c.nextId + 1
    ensures d.ep.accepted == c.ep.accepted + [Accepted(c.ep.next, m)]
    ensures d.ep.tasks == c.ep.tasks + [SendTask(Frame(Encoding(m)), c.ep.next)]
    ensures c.ep.next in d.callOf && d.callOf[c.ep.next] == m.id
    ensures d.checked == c.checked && d.unregistered == c.unregistered && d.unsent == c.unsent
    ensures d.table == c.table.(pending := c.table.pending + {m.id}) && d.ep.session == c.ep.session
  {
    IdFresh(c, fd);
    hide Fits, Encoding, Frame, ReachableClient;
    var c1 := Act(c, Check);
    var c2 := Act(c1, Issue);
    var c3 := Act(c2, Insert(m.id));
    d := Act(c3, SendCall(m.id, m));
    FourSteps(c, Check, c1, Issue, c2, Insert(m.id), c3, SendCall(m.id, m), d);
  }

  lemma IdFresh(c: System, fd: int)
    requires ReachableClient(c, fd)
    ensures !Known(c.table, c.nextId) && c.nextId !in c.unregistered && c.nextId !in c.unsent
  {
    hide CloseInv, CallsInv, WireInv, DoomedInv, AnswersInv, CauseInv, ReachableClient;
    ReachableProtocol(c, fd);
  }

  lemma FourSteps(c: System, a: Action, c1: System, a1: Action, c2: System, a2: Action, c3: System, a3: Action,
                  d: System)
    requires Takes(c, a, c1) && Takes(c1, a1, c2) && Takes(c2, a2, c3) && Takes(c3, a3, d)
    ensures Runs(c, [a, a1, a2, a3], d)
  {
    hide Act, Can;
    assert Runs(d, [], d);
    assert [a3][1..] == [] && Runs(c3, [a3], d);
    assert [a2, a3][1..] == [a3] && Runs(c2, [a2, a3], d);
    assert [a1, a2, a3][1..] == [a2, a3] && Runs(c1, [a1, a2, a3], d);
    assert [a, a1, a2, a3][1..] == [a1, a2, a3];
  }

  // ------------------------------------------------------------------ closing

  lemma ActionKeepsClose(c: System, a: Action, d: System, fd: int)
    requires SystemInv(c, fd) && Takes(c, a, d) && (a == Close || CloseHonoured(c.ep))
    ensures CloseHonoured(d.ep)
  {
    hide EndpointInv, ProtocolInv, Step, CloseHonoured, Fits, HandleEffect, OnWrite;
    match a
    case SendCall(_, m) => OperationKeepsClose(c.ep, Send(m), fd);
    case Notify(m) => OperationKeepsClose(c.ep, Send(m), fd);
    case Close => OperationKeepsClose(c.ep, RequestClose, fd);
    case Loop(op) => OperationKeepsClose(c.ep, op, fd);
    case _ =>
  }

  lemma {:induction false} RunClosesClient(c: System, actions: seq<Action>, d: System, fd: int)
    requires SystemInv(c, fd) && Runs(c, actions, d) && (CloseHonoured(c.ep) || Close in actions)
    ensures CloseHonoured(d.ep)
    decreases |actions|
  {
    hide SystemInv, Act, Can, CloseHonoured;
    if actions != [] {
      var a, e := actions[0], Act(c, actions[0]);
      assert Takes(c, a, e);
      ActKeeps(c, a, e, fd);
      if a == Close || CloseHonoured(c.ep) { ActionKeepsClose(c, a, e, fd); }
      RunClosesClient(e, actions[1..], d, fd);
    }
  }

  /** `close()` ends every call: once it has been called, the tasks posted and the handlers
      they call have run and no call is between its steps, the session is closed and nothing
      is pending. */
  lemma CloseEndsEveryCall(actions: seq<Action>, c: System, fd: int)
    requires fd != -1 && Runs(Connected(fd), actions, c)
    requires Close in actions && c.ep.tasks == [] && c.unsent == {} && c.seen == |c.ep.session.log|
    ensures !c.ep.session.open && c.table.pending == {}
  {
    assert ReachableClient(c, fd);
    hide SystemInv, Runs, ReachableClient;
    ConnectedInv(fd);
    RunClosesClient(Connected(fd), actions, c, fd);
    NothingPendingAfterClose(c, fd);
  }
}
