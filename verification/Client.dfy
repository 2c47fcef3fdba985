/** `RpcClient` of client.cpp: request ids, the table of pending calls, and the protocol
    between the threads that call and the loop thread that answers, fails or clears. */
module Client {
  import opened Codec
  import opened Framing
  import opened SessionModel
  import opened SessionTheorems
  import opened Link
  import opened Wrappers

  datatype Fate = Answered | WriteFailed | Cleared

  /** The pending table and its history: how each id that left it left it, the responses
      handed to response handlers, and the messages handed to the general handler. */
  datatype Table = Table(pending: set<nat>, fate: map<nat, Fate>, answers: seq<RpcMessage>,
                         others: seq<RpcMessage>)

  function Register(t: Table, id: nat): Table { t.(pending := t.pending + {id}) }

  function Leave(t: Table, id: nat, fate: Fate): Table
  {
    if id in t.pending then t.(pending := t.pending - {id}, fate := t.fate[id := fate]) else t
  }

  /** The write handler of a call: on an error the call is forgotten. */
  function OnWrite(t: Table, id: nat, code: ErrorCode): Table
  {
    if code == Success then t else Leave(t, id, WriteFailed)
  }

  /** `dispatch_message`. */
  function OnMessage(t: Table, m: RpcMessage): Table
  {
    if m.kind == KIND_RESPONSE && m.id in t.pending then
      Leave(t, m.id, Answered).(answers := t.answers + [m])
    else
      t.(others := t.others + [m])
  }

  /** The close handler set by `connect`. */
  function OnClose(t: Table): Table
  {
    t.(pending := {}, fate := t.fate + map id | id in t.pending :: Cleared)
  }

  /** The client's own fields, and the methods that update them, one per critical section. */
  class RpcClient {
    var pending: set<nat>
    var nextRequestId: nat
    ghost var fate: map<nat, Fate>
    ghost var answers: seq<RpcMessage>
    ghost var others: seq<RpcMessage>

    ghost function State(): Table
      reads this
    {
      Table(pending, fate, answers, others)
    }

    constructor ()
      ensures State() == Table({}, map[], [], []) && nextRequestId == 1
    {
      pending, nextRequestId, fate, answers, others := {}, 1, map[], [], [];
    }

    method NextId() returns (id: nat)
      modifies this`nextRequestId
      ensures id == old(nextRequestId) && nextRequestId == id + 1
    {
      id := nextRequestId;
      nextRequestId := nextRequestId + 1;
    }

    method Insert(id: nat)
      modifies this`pending
      ensures State() == Register(old(State()), id)
    {
      pending := pending + {id};
    }

    method WriteHandler(id: nat, code: ErrorCode)
      modifies this`pending, this`fate
      ensures State() == OnWrite(old(State()), id, code)
    {
      if code != Success {
        if id in pending {
          fate := fate[id := WriteFailed];
        }
        pending := pending - {id};
      }
    }

    method DispatchMessage(m: RpcMessage)
      modifies this`pending, this`fate, this`answers, this`others
      ensures State() == OnMessage(old(State()), m)
    {
      if m.kind == KIND_RESPONSE {
        var found := m.id in pending;
        if found {
          pending := pending - {m.id};
          fate := fate[m.id := Answered];
          answers := answers + [m];
          return;
        }
      }
      others := others + [m];
    }

    method CloseHandler()
      modifies this`pending, this`fate
      ensures State() == OnClose(old(State()))
    {
      fate := fate + map id | id in pending :: Cleared;
      pending := {};
    }
  }

  // ------------------------------------------------------------- the interleaved system

  /** `checked` callers have seen the session open; `unregistered` ids have been issued but
      not inserted; `unsent` ids are inserted but not handed to `send`. `callOf` says which
      call a write handler's token belongs to. The loop thread has run the handlers of the
      first `seen` effects of the session's log. */
  datatype System = System(ep: Endpoint, seen: nat, checked: nat, nextId: nat, unregistered: set<nat>,
                           unsent: set<nat>, callOf: map<nat, nat>, table: Table)

  datatype Action =
    | Check                                // `is_open()` at the top of call_async
    | Issue                                // `next_request_id_.fetch_add`
    | Insert(id: nat)                      // `pending_[id] = ...` under the mutex
    | SendCall(id: nat, request: RpcMessage)
    | Notify(message: RpcMessage)
    | Close
    | Loop(op: Op)                         // the loop thread runs a task or handles an event
    | Handle                               // ... and then the handlers it called, one by one

  function Connected(fd: int): System
  {
    System(Fresh(fd), 0, 0, 1, {}, {}, map[], Table({}, map[], [], []))
  }

  predicate Can(c: System, a: Action)
  {
    match a
    case Check => c.ep.session.open
    case Issue => c.checked > 0
    case Insert(id) => id in c.unregistered
    case SendCall(id, m) => id in c.unsent && m.id == id && m.kind == KIND_REQUEST
    case Notify(m) => m.kind != KIND_REQUEST
    case Close => true
    case Loop(op) => c.seen == |c.ep.session.log| && (op.Run? || op.Ready?)
    case Handle => c.seen < |c.ep.session.log|
  }

  function HandleEffect(t: Table, callOf: map<nat, nat>, e: Effect): Table
  {
    match e
    case Deliver(m) => OnMessage(t, m)
    case Complete(token, code) => if token in callOf then OnWrite(t, callOf[token], code) else t
    case CloseHandler => OnClose(t)
    case _ => t
  }

  function Act(c: System, a: Action): System
    requires Can(c, a)
  {
    match a
    case Check => c.(checked := c.checked + 1)
    case Issue => c.(checked := c.checked - 1, unregistered := c.unregistered + {c.nextId}, nextId := c.nextId + 1)
    case Insert(id) =>
      c.(unregistered := c.unregistered - {id}, unsent := c.unsent + {id}, table := Register(c.table, id))
    case SendCall(id, m) =>
      var d := c.(ep := Step(c.ep, Send(m)), unsent := c.unsent - {id}, callOf := c.callOf[c.ep.next := id]);
      if Fits(m) then d else d.(table := OnWrite(c.table, id, MessageSize))
    case Notify(m) => c.(ep := Step(c.ep, Send(m)))
    case Close => c.(ep := Step(c.ep, RequestClose))
    case Loop(op) => c.(ep := Step(c.ep, op))
    case Handle => c.(seen := c.seen + 1, table := HandleEffect(c.table, c.callOf, c.ep.session.log[c.seen]))
  }

  predicate Takes(c: System, a: Action, d: System) { Can(c, a) && d == Act(c, a) }

  ghost predicate Runs(c: System, actions: seq<Action>, d: System)
    decreases |actions|
  {
    if actions == [] then c == d else Can(c, actions[0]) && Runs(Act(c, actions[0]), actions[1..], d)
  }

  ghost predicate ReachableClient(c: System, fd: int)
  {
    fd != -1 && exists actions :: Runs(Connected(fd), actions, c)
  }

  // ------------------------------------------------------------------- invariants

  /** Every id issued is waiting to be registered, pending, or gone for one known reason. */
  ghost predicate IdsInv(c: System)
  {
    && c.nextId >= 1
    && (forall id :: 1 <= id < c.nextId <==> id in c.unregistered || id in c.table.pending || id in c.table.fate)
    && c.unregistered !! c.table.pending !! c.table.fate.Keys
    && c.unregistered !! c.unsent
    && (forall id <- c.unsent :: id in c.table.pending || id in c.table.fate)
  }

  /** A write handler belongs to a call that was registered and sent; a pending call that
      was sent has one. */
  ghost predicate CallsInv(c: System)
  {
    && (forall t <- c.callOf :: t < c.ep.next && c.callOf[t] !in c.unregistered && c.callOf[t] !in c.unsent)
    && (forall t <- c.callOf :: c.callOf[t] in c.table.pending || c.callOf[t] in c.table.fate)
    && (forall id <- c.table.pending :: id in c.unsent || id in c.callOf.Values)
  }

  /** What is accepted as a request on the wire is a registered call under its own id. */
  ghost predicate WireInv(c: System)
  {
    forall i :: 0 <= i < |c.ep.accepted| ==>
      var a := c.ep.accepted[i];
      && (a.message.kind == KIND_REQUEST ==> a.token in c.callOf)
      && a.token < c.ep.next
      && (a.token in c.callOf ==> c.callOf[a.token] == a.message.id)
  }

  ghost predicate CloseHandled(c: System)
  {
    exists i :: 0 <= i < c.seen && i < |c.ep.session.log| && c.ep.session.log[i] == Effect.CloseHandler
  }

  predicate IsFailureOf(e: Effect, token: nat)
  {
    e.Complete? && e.token == token && e.code != Success
  }

  /** After the close handler has cleared the table, a sent call can only be pending while
      its send task is posted or the failure of its write is still to be handled. */
  ghost predicate DoomedInv(c: System)
  {
    CloseHandled(c) ==>
      forall t <- c.callOf :: c.callOf[t] in c.table.pending ==>
        t in TaskTokens(c.ep.tasks)
        || exists i :: c.seen <= i < |c.ep.session.log| && IsFailureOf(c.ep.session.log[i], t)
  }

  /** Each answered id was answered once, by a response carrying it. */
  ghost predicate AnswersInv(t: Table)
  {
    && (forall i :: 0 <= i < |t.answers| ==>
         t.answers[i].kind == KIND_RESPONSE && t.answers[i].id in t.fate && t.fate[t.answers[i].id] == Answered)
    && (forall i, j :: 0 <= i < j < |t.answers| ==> t.answers[i].id != t.answers[j].id)
    && (forall id <- t.fate :: t.fate[id] == Answered ==> exists i :: 0 <= i < |t.answers| && t.answers[i].id == id)
  }

  /** The write of the send with this token has failed, and its handler has run. */
  ghost predicate FailureHandled(c: System, token: nat)
  {
    token in c.ep.rejected
    || exists i :: 0 <= i < c.seen && i < |c.ep.session.log| && IsFailureOf(c.ep.session.log[i], token)
  }

  ghost predicate MessageHandled(c: System, m: RpcMessage)
  {
    exists i :: 0 <= i < c.seen && i < |c.ep.session.log| && c.ep.session.log[i] == Deliver(m)
  }

  /** An id removed by a write has a send that failed, one removed by the close has seen the
      close handler run, and every answer is a message the session delivered. */
  ghost predicate CauseInv(c: System)
  {
    && (forall id <- c.table.fate :: c.table.fate[id] == WriteFailed ==>
         exists t <- c.callOf :: c.callOf[t] == id && FailureHandled(c, t))
    && (forall id <- c.table.fate :: c.table.fate[id] == Cleared ==> CloseHandled(c))
    && (forall i :: 0 <= i < |c.table.answers| ==> MessageHandled(c, c.table.answers[i]))
  }

  ghost predicate ProtocolInv(c: System)
  {
    && c.seen <= |c.ep.session.log|
    && IdsInv(c) && CallsInv(c) && WireInv(c) && DoomedInv(c) && AnswersInv(c.table) && CauseInv(c)
  }

  ghost predicate SystemInv(c: System, fd: int)
  {
    EndpointInv(c.ep, fd) && ProtocolInv(c)
  }

  /** History only accumulates from `c` to `d`. */
  ghost predicate Extends(c: System, d: System)
  {
    && c.seen <= d.seen && c.ep.session.log <= d.ep.session.log
    && (forall t <- c.callOf :: t in d.callOf && d.callOf[t] == c.callOf[t])
    && (forall t <- c.ep.rejected :: t in d.ep.rejected)
  }

  lemma FailureStays(c: System, d: System, t: nat)
    requires Extends(c, d) && FailureHandled(c, t)
    ensures FailureHandled(d, t)
  {
    if t !in c.ep.rejected {
      var i :| 0 <= i < c.seen && i < |c.ep.session.log| && IsFailureOf(c.ep.session.log[i], t);
      assert d.ep.session.log[i] == c.ep.session.log[i];
    }
  }

  lemma CloseStays(c: System, d: System)
    requires Extends(c, d) && CloseHandled(c)
    ensures CloseHandled(d)
  {
    var i :| 0 <= i < c.seen && i < |c.ep.session.log| && c.ep.session.log[i] == Effect.CloseHandler;
    assert d.ep.session.log[i] == Effect.CloseHandler;
  }

  lemma MessageStays(c: System, d: System, m: RpcMessage)
    requires Extends(c, d) && MessageHandled(c, m)
    ensures MessageHandled(d, m)
  {
    var i :| 0 <= i < c.seen && i < |c.ep.session.log| && c.ep.session.log[i] == Deliver(m);
    assert d.ep.session.log[i] == Deliver(m);
  }

  /** The cause of an old removal is still one. */
  lemma CauseStays(c: System, d: System, id: nat)
    requires CauseInv(c) && Extends(c, d) && id in c.table.fate
    ensures c.table.fate[id] == WriteFailed ==> exists t <- d.callOf :: d.callOf[t] == id && FailureHandled(d, t)
    ensures c.table.fate[id] == Cleared ==> CloseHandled(d)
  {
    hide FailureHandled, CloseHandled, Extends;
    if c.table.fate[id] == WriteFailed {
      var t :| t in c.callOf && c.callOf[t] == id && FailureHandled(c, t);
      FailureStays(c, d, t);
      CallStays(c, d, t);
    } else if c.table.fate[id] == Cleared {
      CloseStays(c, d);
    }
  }

  lemma CallStays(c: System, d: System, t: nat)
    requires Extends(c, d) && t in c.callOf
    ensures t in d.callOf && d.callOf[t] == c.callOf[t]
  {
  }

  /** A step that removes nothing and answers nothing keeps the causes. */
  lemma CauseKept(c: System, d: System)
    requires CauseInv(c) && Extends(c, d) && d.table.fate == c.table.fate && d.table.answers == c.table.answers
    ensures CauseInv(d)
  {
    hide FailureHandled, CloseHandled, MessageHandled, Extends;
    forall id | id in d.table.fate
      ensures d.table.fate[id] == WriteFailed ==> exists t <- d.callOf :: d.callOf[t] == id && FailureHandled(d, t)
      ensures d.table.fate[id] == Cleared ==> CloseHandled(d)
    {
      CauseStays(c, d, id);
    }
    forall i | 0 <= i < |d.table.answers| ensures MessageHandled(d, d.table.answers[i]) {
      MessageStays(c, d, c.table.answers[i]);
    }
  }

  lemma ConnectedInv(fd: int)
    requires fd != -1
    ensures SystemInv(Connected(fd), fd)
  {
    FreshInv(fd);
    hide EndpointInv;
  }

  // ---------------------------------------------------------- the table on its own

  /** An id leaves the table for at most one reason, and that reason never changes. */
  ghost predicate TableStep(t: Table, u: Table)
  {
    && u.pending <= t.pending
    && t.fate.Keys <= u.fate.Keys && (forall id <- t.fate :: u.fate[id] == t.fate[id])
    && u.pending + u.fate.Keys == t.pending + t.fate.Keys
    && u.pending !! u.fate.Keys
  }

  lemma LeaveStep(t: Table, id: nat, fate: Fate)
    requires t.pending !! t.fate.Keys && AnswersInv(t) && fate != Answered
    ensures TableStep(t, Leave(t, id, fate)) && AnswersInv(Leave(t, id, fate)) && id !in Leave(t, id, fate).pending
  {
    if id in t.pending {
      assert id !in t.fate.Keys;
      var u := Leave(t, id, fate);
      forall i | 0 <= i < |u.answers| ensures u.answers[i].id in u.fate && u.fate[u.answers[i].id] == Answered {
        assert t.answers[i].id in t.fate.Keys;
      }
    }
  }

  lemma MessageStep(t: Table, m: RpcMessage)
    requires t.pending !! t.fate.Keys && AnswersInv(t)
    ensures TableStep(t, OnMessage(t, m)) && AnswersInv(OnMessage(t, m))
  {
    if m.kind == KIND_RESPONSE && m.id in t.pending {
      var u := OnMessage(t, m);
      assert m.id !in t.fate.Keys;
      forall i | 0 <= i < |t.answers| ensures t.answers[i].id != m.id && t.answers[i].id in u.fate {
        assert t.answers[i].id in t.fate.Keys;
      }
      forall id | id in u.fate && u.fate[id] == Answered
        ensures exists i :: 0 <= i < |u.answers| && u.answers[i].id == id
      {
        if id == m.id {
          assert u.answers[|t.answers|].id == id;
        } else {
          assert id in t.fate;
          var i :| 0 <= i < |t.answers| && t.answers[i].id == id;
          assert u.answers[i].id == id;
        }
      }
    }
  }

  lemma CloseTableStep(t: Table)
    requires t.pending !! t.fate.Keys && AnswersInv(t)
    ensures TableStep(t, OnClose(t)) && AnswersInv(OnClose(t)) && OnClose(t).pending == {}
  {
    var u := OnClose(t);
    forall id | id in t.fate ensures id !in t.pending && u.fate[id] == t.fate[id] {
      assert id in t.fate.Keys;
    }
    forall i | 0 <= i < |u.answers| ensures u.answers[i].id in u.fate && u.fate[u.answers[i].id] == Answered {
      assert t.answers[i].id in t.fate;
    }
  }

  lemma EffectStep(t: Table, callOf: map<nat, nat>, e: Effect)
    requires t.pending !! t.fate.Keys && AnswersInv(t)
    ensures var u := HandleEffect(t, callOf, e);
      && TableStep(t, u) && AnswersInv(u)
      && (e == Effect.CloseHandler ==> u.pending == {})
      && (forall token <- callOf :: IsFailureOf(e, token) ==> callOf[token] !in u.pending)
  {
    match e
    case Deliver(m) => MessageStep(t, m);
    case Complete(token, code) =>
      if token in callOf { LeaveStep(t, callOf[token], WriteFailed); }
    case CloseHandler => CloseTableStep(t);
    case _ =>
  }

  /** What handling one effect can remove, and why. */
  lemma EffectCause(t: Table, callOf: map<nat, nat>, e: Effect)
    ensures var u := HandleEffect(t, callOf, e);
      && (forall id <- u.fate ::
           || (id in t.fate && u.fate[id] == t.fate[id])
           || u.fate[id] == Answered
           || (u.fate[id] == Cleared && e == Effect.CloseHandler)
           || (u.fate[id] == WriteFailed && e.Complete? && e.code != Success
               && e.token in callOf && callOf[e.token] == id))
      && (u.answers == t.answers || (e.Deliver? && u.answers == t.answers + [e.message]))
  {
  }

  lemma HandleCauses(c: System, d: System, e: Effect)
    requires CauseInv(c) && c.seen < |c.ep.session.log| && e == c.ep.session.log[c.seen]
    requires d == c.(seen := c.seen + 1, table := HandleEffect(c.table, c.callOf, e))
    ensures CauseInv(d)
  {
    EffectCause(c.table, c.callOf, e);
    hide HandleEffect;
    assert Extends(c, d);
    assert d.ep.session.log[c.seen] == e;
    forall id | id in d.table.fate
      ensures d.table.fate[id] == WriteFailed ==> exists t <- d.callOf :: d.callOf[t] == id && FailureHandled(d, t)
      ensures d.table.fate[id] == Cleared ==> CloseHandled(d)
    {
      if id in c.table.fate && d.table.fate[id] == c.table.fate[id] {
        CauseStays(c, d, id);
      } else if d.table.fate[id] == WriteFailed {
        assert IsFailureOf(d.ep.session.log[c.seen], e.token) && FailureHandled(d, e.token);
      }
    }
    forall i | 0 <= i < |d.table.answers| ensures MessageHandled(d, d.table.answers[i]) {
      if i < |c.table.answers| { MessageStays(c, d, c.table.answers[i]); }
    }
  }

  // --------------------------------------------------------------- steps keep it all

  /** Ids keep their places when the table takes a step and nothing else moves. */
  lemma IdsAfterTable(c: System, d: System)
    requires IdsInv(c) && TableStep(c.table, d.table)
    requires d.nextId == c.nextId && d.unregistered == c.unregistered && d.unsent <= c.unsent
    ensures IdsInv(d)
  {
    var places := c.table.pending + c.table.fate.Keys;
    assert d.table.pending + d.table.fate.Keys == places;
    forall id ensures (1 <= id < d.nextId <==> id in d.unregistered || id in d.table.pending || id in d.table.fate) {
      assert id in d.table.pending || id in d.table.fate <==> id in places;
    }
    forall id | id in c.unregistered ensures id !in d.table.pending && id !in d.table.fate.Keys {
      assert id !in places;
    }
    forall id | id in d.unsent ensures id in d.table.pending || id in d.table.fate {
      assert id in places;
    }
  }

  lemma CallsAfterTable(c: System, d: System)
    requires CallsInv(c) && TableStep(c.table, d.table)
    requires d == c.(seen := d.seen, table := d.table)
    ensures CallsInv(d)
  {
    forall t | t in c.callOf ensures c.callOf[t] in d.table.pending || c.callOf[t] in d.table.fate {
      assert c.callOf[t] in c.table.pending + c.table.fate.Keys;
    }
  }

  lemma HandleDoomed(c: System, d: System, e: Effect)
    requires DoomedInv(c) && c.seen < |c.ep.session.log| && e == c.ep.session.log[c.seen]
    requires d == c.(seen := c.seen + 1, table := d.table) && d.table.pending <= c.table.pending
    requires e == Effect.CloseHandler ==> d.table.pending == {}
    requires forall token <- c.callOf :: IsFailureOf(e, token) ==> c.callOf[token] !in d.table.pending
    ensures DoomedInv(d)
  {
    hide TaskTokens;
    if CloseHandled(d) && e != Effect.CloseHandler {
      var i :| 0 <= i < d.seen && d.ep.session.log[i] == Effect.CloseHandler;
      assert i < c.seen;
      assert CloseHandled(c);
      forall t | t in d.callOf && d.callOf[t] in d.table.pending && t !in TaskTokens(d.ep.tasks)
        ensures exists i :: d.seen <= i < |d.ep.session.log| && IsFailureOf(d.ep.session.log[i], t)
      {
        var i :| c.seen <= i < |c.ep.session.log| && IsFailureOf(c.ep.session.log[i], t);
        assert i != c.seen;
      }
    }
  }

  lemma HandleKeeps(c: System, d: System)
    requires ProtocolInv(c) && Takes(c, Handle, d)
    ensures ProtocolInv(d)
  {
    hide HandleEffect, AnswersInv, OnMessage, IdsInv, CallsInv, DoomedInv, CauseInv, TableStep;
    var e := c.ep.session.log[c.seen];
    TableApart(c);
    EffectStep(c.table, c.callOf, e);
    IdsAfterTable(c, d);
    CallsAfterTable(c, d);
    PendingShrinks(c.table, d.table);
    HandleDoomed(c, d, e);
    HandleCauses(c, d, e);
  }

  lemma TableApart(c: System)
    requires IdsInv(c)
    ensures c.table.pending !! c.table.fate.Keys
  {
  }

  lemma PendingShrinks(t: Table, u: Table)
    requires TableStep(t, u)
    ensures u.pending <= t.pending
  {
  }

  /** A closed session's loop steps do nothing but fail posted sends. */
  lemma ClosedLoopStep(e: Endpoint, op: Op)
    requires !e.session.open && (op.Run? || op.Ready?)
    ensures var f := Step(e, op);
      if op.Run? && e.tasks != [] && e.tasks[0].SendTask? then
        f.session.log == e.session.log + [Complete(e.tasks[0].token, NotConnected)]
        && TaskTokens(e.tasks) == [e.tasks[0].token] + TaskTokens(f.tasks)
      else
        f.session.log == e.session.log && TaskTokens(f.tasks) == TaskTokens(e.tasks)
  {
  }

  lemma {:induction false} NoClosings(log: seq<Effect>, i: nat)
    requires i < |log| && log[i] == Effect.CloseHandler
    ensures Collect(ClosingOf, log) != []
    decreases |log|
  {
    if i > 0 { NoClosings(log[1..], i - 1); }
  }

  lemma HandledMeansClosed(s: State, seen: nat, fd: int)
    requires CloseInv(s, fd)
    requires exists i :: 0 <= i < seen && i < |s.log| && s.log[i] == Effect.CloseHandler
    ensures !s.open
  {
    hide Collect;
    var i :| 0 <= i < seen && i < |s.log| && s.log[i] == Effect.CloseHandler;
    NoClosings(s.log, i);
  }

  lemma LoopDoomed(c: System, d: System, op: Op, fd: int)
    requires CloseInv(c.ep.session, fd) && DoomedInv(c) && Takes(c, Loop(op), d)
    ensures DoomedInv(d)
  {
    hide CloseInv, Step;
    StepGrows(c.ep, op);
    if CloseHandled(d) {
      var i :| 0 <= i < d.seen && i < |d.ep.session.log| && d.ep.session.log[i] == Effect.CloseHandler;
      assert c.ep.session.log[i] == Effect.CloseHandler;
      assert CloseHandled(c);
      HandledMeansClosed(c.ep.session, c.seen, fd);
      ClosedLoopStep(c.ep, op);
      forall t | t in d.callOf && d.callOf[t] in d.table.pending && t !in TaskTokens(d.ep.tasks)
        ensures exists i :: d.seen <= i < |d.ep.session.log| && IsFailureOf(d.ep.session.log[i], t)
      {
        assert t in TaskTokens(c.ep.tasks);
        assert IsFailureOf(d.ep.session.log[c.seen], t);
      }
    }
  }

  lemma LoopFrame(e: Endpoint, op: Op)
    requires op.Run? || op.Ready?
    ensures var f := Step(e, op);
      f.accepted == e.accepted && f.next == e.next && f.rejected == e.rejected
  {
  }

  lemma LoopKeeps(c: System, d: System, op: Op, fd: int)
    requires CloseInv(c.ep.session, fd) && ProtocolInv(c) && Takes(c, Loop(op), d)
    ensures ProtocolInv(d)
  {
    hide CloseInv, Step, DoomedInv, AnswersInv, CauseInv;
    StepGrows(c.ep, op);
    LoopFrame(c.ep, op);
    LoopDoomed(c, d, op, fd);
    CauseKept(c, d);
  }

  /** Posting changes nothing but the task queue, at its end. */
  lemma PostFrame(e: Endpoint, op: Op)
    requires op.Send? || op.RequestClose?
    ensures var f := Step(e, op);
      && f.session == e.session
      && (forall t <- TaskTokens(e.tasks) :: t in TaskTokens(f.tasks))
      && f.next == (if op.Send? then e.next + 1 else e.next)
      && f.accepted == e.accepted + (if op.Send? && Fits(op.message) then [Accepted(e.next, op.message)] else [])
      && f.rejected == e.rejected + (if op.Send? && !Fits(op.message) then [e.next] else [])
      && (op.Send? && Fits(op.message) ==> e.next in TaskTokens(f.tasks))
  {
    hide Fits, Encoding, Frame;
    match op
    case Send(m) => TaskTokensBack(e.tasks, SendTask(Frame(Encoding(m)), e.next));
    case RequestClose => TaskTokensBack(e.tasks, CloseTask);
  }

  lemma PostDoomed(c: System, d: System)
    requires DoomedInv(c)
    requires d.ep.session == c.ep.session && d.seen == c.seen
    requires forall t <- TaskTokens(c.ep.tasks) :: t in TaskTokens(d.ep.tasks)
    requires forall t <- d.callOf :: d.callOf[t] in d.table.pending ==>
      t in TaskTokens(d.ep.tasks) || (t in c.callOf && c.callOf[t] == d.callOf[t] && c.callOf[t] in c.table.pending)
    ensures DoomedInv(d)
  {
    hide TaskTokens;
    if CloseHandled(d) {
      assert CloseHandled(c);
    }
  }

  lemma NotifyKeeps(c: System, d: System, m: RpcMessage)
    requires ProtocolInv(c) && Takes(c, Notify(m), d)
    ensures ProtocolInv(d)
  {
    hide Step, DoomedInv, AnswersInv, CauseInv, Fits, TaskTokens;
    PostFrame(c.ep, Send(m));
    PostDoomed(c, d);
    CauseKept(c, d);
  }

  lemma CloseKeeps(c: System, d: System)
    requires ProtocolInv(c) && Takes(c, Close, d)
    ensures ProtocolInv(d)
  {
    hide Step, DoomedInv, AnswersInv, CauseInv, TaskTokens;
    PostFrame(c.ep, RequestClose);
    PostDoomed(c, d);
    CauseKept(c, d);
  }

  lemma SendFits(c: System, d: System, id: nat, m: RpcMessage)
    requires ProtocolInv(c) && Takes(c, SendCall(id, m), d) && Fits(m)
    ensures ProtocolInv(d)
  {
    hide Step, DoomedInv, AnswersInv, CauseInv, Fits, TaskTokens;
    PostFrame(c.ep, Send(m));
    PostDoomed(c, d);
    CauseKept(c, d);
    assert CallsInv(d) by {
      forall x | x in d.table.pending ensures x in d.unsent || x in d.callOf.Values {
        if x == id {
          assert d.callOf[c.ep.next] == id;
        } else if x !in c.unsent {
          var t :| t in c.callOf && c.callOf[t] == x;
          assert d.callOf[t] == x;
        }
      }
    }
  }

  /** A refused send's own token is the cause of its removal. */
  lemma RefusalCauses(c: System, d: System, id: nat)
    requires CauseInv(c) && Extends(c, d) && d.table == OnWrite(c.table, id, MessageSize)
    requires c.ep.next in d.callOf && d.callOf[c.ep.next] == id && c.ep.next in d.ep.rejected
    ensures CauseInv(d)
  {
    hide CloseHandled, MessageHandled;
    assert FailureHandled(d, c.ep.next);
    hide FailureHandled, Extends;
    forall x | x in d.table.fate
      ensures d.table.fate[x] == WriteFailed ==> exists t <- d.callOf :: d.callOf[t] == x && FailureHandled(d, t)
      ensures d.table.fate[x] == Cleared ==> CloseHandled(d)
    {
      if x in c.table.fate && d.table.fate[x] == c.table.fate[x] { CauseStays(c, d, x); }
    }
    forall i | 0 <= i < |d.table.answers| ensures MessageHandled(d, d.table.answers[i]) {
      MessageStays(c, d, c.table.answers[i]);
    }
  }

  lemma SendTooLarge(c: System, d: System, id: nat, m: RpcMessage)
    requires ProtocolInv(c) && Takes(c, SendCall(id, m), d) && !Fits(m)
    ensures ProtocolInv(d)
  {
    hide Step, DoomedInv, AnswersInv, CauseInv, Fits, TaskTokens, IdsInv, TableStep;
    PostFrame(c.ep, Send(m));
    TableApart(c);
    LeaveStep(c.table, id, WriteFailed);
    IdsAfterTable(c, d);
    RefusedId(c, id);
    PendingShrinks(c.table, d.table);
    PostDoomed(c, d);
    RefusalCauses(c, d, id);
    PlacesKept(c.table, d.table);
  }

  lemma RefusedId(c: System, id: nat)
    requires IdsInv(c) && id in c.unsent
    ensures id !in c.unregistered && (id in c.table.pending || id in c.table.fate)
  {
  }

  lemma PlacesKept(t: Table, u: Table)
    requires TableStep(t, u)
    ensures forall id :: id in t.pending || id in t.fate ==> id in u.pending || id in u.fate
  {
    forall id | id in t.pending || id in t.fate ensures id in u.pending || id in u.fate {
      assert id in u.pending + u.fate.Keys;
    }
  }

  lemma InsertKeeps(c: System, d: System, id: nat)
    requires ProtocolInv(c) && Takes(c, Insert(id), d)
    ensures ProtocolInv(d)
  {
    hide DoomedInv, AnswersInv, CauseInv, TaskTokens;
    assert id !in c.table.pending && id !in c.table.fate.Keys && id !in c.unsent;
    PostDoomed(c, d);
    CauseKept(c, d);
    TableAnswers(c.table, d.table);
  }

  lemma TableAnswers(t: Table, u: Table)
    requires AnswersInv(t) && u.answers == t.answers && u.fate == t.fate
    ensures AnswersInv(u)
  {
  }

  lemma IssueKeeps(c: System, d: System)
    requires ProtocolInv(c) && Takes(c, Issue, d)
    ensures ProtocolInv(d)
  {
    hide DoomedInv, AnswersInv, CauseInv, TaskTokens;
    assert c.nextId !in c.unregistered && c.nextId !in c.table.pending && c.nextId !in c.table.fate;
    assert c.nextId !in c.unsent;
    PostDoomed(c, d);
    CauseKept(c, d);
  }

  lemma CheckKeeps(c: System, d: System)
    requires ProtocolInv(c) && Takes(c, Check, d)
    ensures ProtocolInv(d)
  {
    hide DoomedInv, AnswersInv, CauseInv, TaskTokens;
    PostDoomed(c, d);
    CauseKept(c, d);
  }

  lemma ProtocolStep(c: System, a: Action, d: System, fd: int)
    requires CloseInv(c.ep.session, fd) && ProtocolInv(c) && Takes(c, a, d)
    ensures ProtocolInv(d)
  {
    hide CloseInv, ProtocolInv, Takes;
    match a
    case Check => CheckKeeps(c, d);
    case Issue => IssueKeeps(c, d);
    case Insert(id) => InsertKeeps(c, d, id);
    case SendCall(id, m) =>
      hide Fits;
      if Fits(m) { SendFits(c, d, id, m); } else { SendTooLarge(c, d, id, m); }
    case Notify(m) => NotifyKeeps(c, d, m);
    case Close => CloseKeeps(c, d);
    case Loop(op) => LoopKeeps(c, d, op, fd);
    case Handle => HandleKeeps(c, d);
  }

  /** Which operation of the endpoint, if any, an action is. */
  lemma EndpointStep(c: System, a: Action, d: System, fd: int)
    requires EndpointInv(c.ep, fd) && Takes(c, a, d)
    ensures EndpointInv(d.ep, fd)
  {
    hide EndpointInv, Step, Fits, HandleEffect, OnWrite;
    match a
    case SendCall(id, m) => StepKeeps(c.ep, Send(m), fd);
    case Notify(m) => StepKeeps(c.ep, Send(m), fd);
    case Close => StepKeeps(c.ep, RequestClose, fd);
    case Loop(op) => StepKeeps(c.ep, op, fd);
    case _ =>
  }

  lemma EndpointCloses(e: Endpoint, fd: int)
    requires EndpointInv(e, fd)
    ensures CloseInv(e.session, fd)
  {
    hide LedgerInv, OrderInv, Settled, StreamInv, ReceiveInv, CloseInv;
  }

  lemma ActKeeps(c: System, a: Action, d: System, fd: int)
    requires SystemInv(c, fd) && Takes(c, a, d)
    ensures SystemInv(d, fd)
  {
    hide EndpointInv, ProtocolInv, CloseInv, Takes;
    EndpointCloses(c.ep, fd);
    ProtocolStep(c, a, d, fd);
    EndpointStep(c, a, d, fd);
  }

  lemma {:induction false} RunsKeep(c: System, actions: seq<Action>, d: System, fd: int)
    requires SystemInv(c, fd) && Runs(c, actions, d)
    ensures SystemInv(d, fd)
    decreases |actions|
  {
    hide SystemInv, Act, Can;
    if actions != [] {
      ActKeeps(c, actions[0], Act(c, actions[0]), fd);
      RunsKeep(Act(c, actions[0]), actions[1..], d, fd);
    }
  }

  lemma ReachableClientInv(c: System, fd: int)
    requires ReachableClient(c, fd)
    ensures SystemInv(c, fd)
  {
    hide SystemInv, Runs;
    ConnectedInv(fd);
    var actions :| Runs(Connected(fd), actions, c);
    RunsKeep(Connected(fd), actions, c, fd);
  }

  // -------------------------------------------------------------------- main results

  lemma ReachableProtocol(c: System, fd: int)
    requires ReachableClient(c, fd)
    ensures ProtocolInv(c) && CloseInv(c.ep.session, fd)
  {
    hide EndpointInv, ProtocolInv, CloseInv, ReachableClient;
    ReachableClientInv(c, fd);
    EndpointCloses(c.ep, fd);
  }

  /** Conservation: in every reachable state each id issued is in exactly one of the four
      places: not yet registered, pending, answered, or removed (by a failed write or by the
      close); and the answered ones are those of the responses handed out, once each. */
  lemma EachIdInOnePlace(c: System, fd: int, id: nat)
    requires ReachableClient(c, fd)
    ensures 1 <= id < c.nextId <==> id in c.unregistered || id in c.table.pending || id in c.table.fate
    ensures !(id in c.unregistered && id in c.table.pending)
    ensures !(id in c.unregistered && id in c.table.fate) && !(id in c.table.pending && id in c.table.fate)
    ensures (id in c.table.fate && c.table.fate[id] == Answered)
      <==> exists i :: 0 <= i < |c.table.answers| && c.table.answers[i].id == id
    ensures forall i, j :: 0 <= i < j < |c.table.answers| ==> c.table.answers[i].id != c.table.answers[j].id
    ensures forall m <- c.table.answers :: m.kind == KIND_RESPONSE
  {
    hide CallsInv, WireInv, DoomedInv, CauseInv, CloseInv, ReachableClient;
    ReachableProtocol(c, fd);
    if id in c.table.fate { assert id in c.table.fate.Keys; }
  }

  /** Every removal has its cause: an id that a failed write removed has a send of its own
      that was refused as too large or whose failure has been handled; one that the close
      removed has seen the close handler run; and every answer is a message the session
      delivered. */
  lemma RemovalsHaveCauses(c: System, fd: int, id: nat)
    requires ReachableClient(c, fd) && id in c.table.fate
    ensures c.table.fate[id] == WriteFailed ==>
      exists token <- c.callOf ::
        && c.callOf[token] == id
        && (token in c.ep.rejected
            || exists i :: 0 <= i < c.seen && i < |c.ep.session.log| && IsFailureOf(c.ep.session.log[i], token))
    ensures c.table.fate[id] == Cleared ==>
      !c.ep.session.open && exists i :: 0 <= i < |c.ep.session.log| && c.ep.session.log[i] == Effect.CloseHandler
    ensures forall m <- c.table.answers :: m in Delivered(c.ep.session)
  {
    hide IdsInv, CallsInv, WireInv, DoomedInv, AnswersInv, CloseInv, ReachableClient;
    ReachableProtocol(c, fd);
    if c.table.fate[id] == WriteFailed {
      var token :| token in c.callOf && c.callOf[token] == id && FailureHandled(c, token);
    }
    if c.table.fate[id] == Cleared {
      assert CloseHandled(c);
      HandledMeansClosed(c.ep.session, c.seen, fd);
    }
    forall m | m in c.table.answers ensures m in Delivered(c.ep.session) {
      var k :| 0 <= k < |c.table.answers| && c.table.answers[k] == m;
      assert MessageHandled(c, c.table.answers[k]);
      var i :| 0 <= i < |c.ep.session.log| && c.ep.session.log[i] == Deliver(m);
      LoggedIsDelivered(c.ep.session.log, i);
    }
  }

  lemma {:induction false} LoggedIsDelivered(log: seq<Effect>, i: nat)
    requires i < |log| && log[i].Deliver?
    ensures log[i].message in Collect(MessageOf, log)
    decreases |log|
  {
    if i > 0 {
      LoggedIsDelivered(log[1..], i - 1);
    }
  }

  /** No request is given to the session before its id is registered. */
  lemma WireIdsAreRegistered(c: System, fd: int, i: nat)
    requires ReachableClient(c, fd) && i < |c.ep.accepted|
    requires c.ep.accepted[i].message.kind == KIND_REQUEST
    ensures var id := c.ep.accepted[i].message.id;
      && id !in c.unregistered && (id in c.table.pending || id in c.table.fate)
  {
    hide IdsInv, DoomedInv, AnswersInv, CauseInv, CloseInv, ReachableClient;
    ReachableProtocol(c, fd);
  }

  /** No call is left behind: once the session is closed, its handlers have run, no call is
      between its steps and no send is posted, nothing is pending, including calls that
      registered after the close handler had cleared the table. */
  lemma NothingPendingAfterClose(c: System, fd: int)
    requires ReachableClient(c, fd)
    requires !c.ep.session.open && c.seen == |c.ep.session.log|
    requires c.unsent == {} && TaskTokens(c.ep.tasks) == []
    ensures c.table.pending == {}
  {
    hide ReachableClient, TaskTokens, IdsInv, WireInv, AnswersInv, CauseInv, Collect;
    ReachableProtocol(c, fd);
    HasCloseHandler(c.ep.session.log, fd);
    assert CloseHandled(c);
    forall id | id in c.callOf.Values ensures id !in c.table.pending {
      var t :| t in c.callOf && c.callOf[t] == id;
    }
    assert forall id <- c.table.pending :: id in c.callOf.Values;
  }

  lemma HasCloseHandler(log: seq<Effect>, fd: int)
    requires Collect(ClosingOf, log) == [Deregister(fd), CloseFd(fd), Effect.CloseHandler]
    ensures exists i :: 0 <= i < |log| && log[i] == Effect.CloseHandler
  {
    var i := CollectedFrom(log, Effect.CloseHandler);
  }

  lemma {:induction false} CollectedFrom(log: seq<Effect>, e: Effect) returns (i: nat)
    requires e in Collect(ClosingOf, log)
    ensures i < |log| && log[i] == e
    decreases |log|
  {
    if ClosingOf(log[0]) == Some(e) {
      i := 0;
    } else {
      i := CollectedFrom(log[1..], e);
      i := i + 1;
    }
  }

  /** What became of an id never changes afterwards. */
  lemma FateIsFinal(c: System, fd: int, a: Action, d: System, id: nat)
    requires ReachableClient(c, fd) && Takes(c, a, d) && id in c.table.fate
    ensures id in d.table.fate && d.table.fate[id] == c.table.fate[id]
    ensures id !in d.table.pending
  {
    hide CallsInv, WireInv, DoomedInv, AnswersInv, CauseInv, CloseInv, ReachableClient, Step, Fits, HandleEffect, Leave;
    ReachableProtocol(c, fd);
    assert id in c.table.fate.Keys;
    match a
    case SendCall(other, m) =>
      LeaveStep(c.table, other, WriteFailed);
      assert d.table == c.table || d.table == Leave(c.table, other, WriteFailed);
    case Handle => EffectStep(c.table, c.callOf, c.ep.session.log[c.seen]);
    case _ =>
  }
}
