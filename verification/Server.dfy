/** Which session owns which file descriptor (server.cpp, and the parts of session.cpp and
    event_loop.cpp that register, dispatch and close), when the kernel reuses numbers. */
module Server {
  import opened Wrappers

  datatype Owner = Wakeup | Listener | Conn(id: nat)

  /** A ready event as `epoll_wait` reported it, with the owner of the fd at that moment. */
  datatype Event = Event(fd: int, owner: Owner)

  /** `handlers` is the loop's table, `openFds` the kernel's open descriptors, `fdOf` the
      socket of each session still open, `sessions` the server's registry. `asked` is
      the sessions whose posted close has not run yet, `closed` lists those whose close
      sequence ran, `dispatched` each event handled with the owner its handler belonged to. */
  datatype State = State(
    handlers: map<int, Owner>, openFds: set<int>, fdOf: map<nat, int>, sessions: set<nat>, nextId: nat,
    asked: set<nat>, batch: seq<Event>, closed: seq<nat>, dispatched: seq<(Event, Option<Owner>)>)

  datatype AcceptResult = NewFd(fd: int) | AcceptAgain | AcceptInterrupted

  /** A server just started, before any connection. */
  function Listening(wakeFd: int, listenFd: int): State
  {
    State(map[wakeFd := Wakeup, listenFd := Listener], {wakeFd, listenFd}, map[], {}, 1, {}, [], [], [])
  }

  function AcceptOne(s: State, fd: int): State
  {
    s.(handlers := s.handlers[fd := Conn(s.nextId)], openFds := s.openFds + {fd},
       fdOf := s.fdOf[s.nextId := fd], sessions := s.sessions + {s.nextId}, nextId := s.nextId + 1)
  }

  /** `accept_loop`: accept until the kernel would block. */
  function AcceptAll(s: State, script: seq<AcceptResult>): State
    decreases |script|
  {
    if script == [] then s
    else
      match script[0]
      case NewFd(fd) => AcceptAll(AcceptOne(s, fd), script[1..])
      case AcceptAgain => s
      case AcceptInterrupted => AcceptAll(s, script[1..])
  }

  /** The kernel returns descriptors that are not open. */
  predicate Unused(s: State, script: seq<AcceptResult>)
    decreases |script|
  {
    script == []
    || match script[0]
       case NewFd(fd) => fd !in s.openFds && Unused(AcceptOne(s, fd), script[1..])
       case AcceptAgain => true
       case AcceptInterrupted => Unused(s, script[1..])
  }

  /** A session's `close_from_loop`: deregister, close the fd, run the close handler, which
      erases the session from the registry. A closed session does nothing. */
  function CloseSession(s: State, id: nat): State
  {
    if id !in s.fdOf then s
    else
      var fd := s.fdOf[id];
      s.(handlers := s.handlers - {fd}, openFds := s.openFds - {fd}, fdOf := s.fdOf - {id},
         sessions := s.sessions - {id}, closed := s.closed + [id])
  }

  datatype Step =
    | Collect(fds: seq<int>)                                   // epoll_wait returns
    | Dispatch(closes: bool, accepts: seq<AcceptResult>)       // the next event of the batch
    | AskClose(id: nat)                                        // Session::close, from any thread
    | CloseTask(id: nat)                                       // a posted close, or a failed posted send
    | StopServer(listenFd: int)                                // TcpServer::stop, between batches

  function Lookup(s: State, fd: int): Option<Owner> { if fd in s.handlers then Some(s.handlers[fd]) else None }

  predicate Distinct(fds: seq<int>) { forall i, j :: 0 <= i < j < |fds| ==> fds[i] != fds[j] }

  predicate Can(s: State, a: Step)
  {
    match a
    case Collect(fds) => s.batch == [] && Distinct(fds) && forall i :: 0 <= i < |fds| ==> fds[i] in s.handlers
    case Dispatch(_, accepts) => s.batch != [] && Unused(s, accepts)
    case AskClose(_) => true
    case CloseTask(_) => s.batch == []
    case StopServer(fd) => s.batch == [] && Lookup(s, fd) == Some(Listener)
  }

  /** The handler is looked up by fd when the event's turn comes, not when it was collected. */
  function Do(s: State, a: Step): State
    requires Can(s, a)
  {
    match a
    case Collect(fds) => s.(batch := seq(|fds|, i requires 0 <= i < |fds| && fds[i] in s.handlers =>
                                               Event(fds[i], s.handlers[fds[i]])))
    case Dispatch(closes, accepts) =>
      var e := s.batch[0];
      var found := Lookup(s, e.fd);
      var t := s.(batch := s.batch[1..], dispatched := s.dispatched + [(e, found)]);
      (match found
       case None => t
       case Some(Wakeup) => t
       case Some(Listener) => AcceptAll(t, accepts)
       case Some(Conn(id)) => if closes then CloseSession(t, id) else t)
    case AskClose(id) => s.(asked := s.asked + {id})
    case CloseTask(id) => CloseSession(s.(asked := s.asked - {id}), id)
    case StopServer(fd) =>
      s.(handlers := s.handlers - {fd}, openFds := s.openFds - {fd}, asked := s.asked + s.sessions, sessions := {})
  }

  ghost predicate Owns(s: State)
  {
    && s.handlers.Keys == s.openFds
    && (forall fd <- s.handlers :: s.handlers[fd].Conn? ==>
         s.handlers[fd].id in s.fdOf && s.fdOf[s.handlers[fd].id] == fd)
    && (forall id <- s.fdOf :: id < s.nextId && s.fdOf[id] in s.handlers && s.handlers[s.fdOf[id]] == Conn(id))
    && (forall id <- s.sessions :: id in s.fdOf)
  }

  ghost predicate BatchInv(s: State)
  {
    && (forall i, j :: 0 <= i < j < |s.batch| ==> s.batch[i].fd != s.batch[j].fd)
    && (forall e <- s.batch :: e.fd in s.handlers && s.handlers[e.fd] == e.owner)
  }

  ghost predicate ClosedInv(s: State)
  {
    && (forall i, j :: 0 <= i < j < |s.closed| ==> s.closed[i] != s.closed[j])
    && (forall id <- s.closed :: id < s.nextId && id !in s.fdOf)
    && (forall id :: 1 <= id < s.nextId ==> id in s.fdOf || id in s.closed)
    && s.nextId >= 1
  }

  ghost predicate DispatchInv(s: State)
  {
    forall d <- s.dispatched :: d.1 == Some(d.0.owner)
  }

  ghost predicate Inv(s: State) { Owns(s) && BatchInv(s) && ClosedInv(s) && DispatchInv(s) }

  lemma AcceptOneKeeps(s: State, fd: int)
    requires Inv(s) && fd !in s.openFds
    ensures Inv(AcceptOne(s, fd))
  {
    assert fd !in s.handlers.Keys;
    var t := AcceptOne(s, fd);
    forall id | id in t.fdOf ensures id < t.nextId && t.fdOf[id] in t.handlers && t.handlers[t.fdOf[id]] == Conn(id) {
      if id != s.nextId { assert id in s.fdOf && s.fdOf[id] != fd; }
    }
    forall x | x in t.handlers && t.handlers[x].Conn?
      ensures t.handlers[x].id in t.fdOf && t.fdOf[t.handlers[x].id] == x
    {
      if x != fd { assert x in s.handlers && s.handlers[x].id in s.fdOf && s.handlers[x].id < s.nextId; }
    }
  }

  lemma {:induction false} AcceptAllKeeps(s: State, script: seq<AcceptResult>)
    requires Inv(s) && Unused(s, script)
    ensures Inv(AcceptAll(s, script))
    decreases |script|
  {
    hide Inv, AcceptOne;
    if script != [] {
      match script[0]
      case NewFd(fd) =>
        AcceptOneKeeps(s, fd);
        AcceptAllKeeps(AcceptOne(s, fd), script[1..]);
      case AcceptAgain =>
      case AcceptInterrupted => AcceptAllKeeps(s, script[1..]);
    }
  }

  /** Closing a session whose fd has no event left in the batch. */
  lemma CloseKeeps(s: State, id: nat)
    requires Inv(s) && (id in s.fdOf ==> forall e <- s.batch :: e.fd != s.fdOf[id])
    ensures Inv(CloseSession(s, id))
  {
    if id in s.fdOf {
      var fd := s.fdOf[id];
      var t := CloseSession(s, id);
      forall x | x in t.fdOf
        ensures x < t.nextId && t.fdOf[x] in t.handlers && t.handlers[t.fdOf[x]] == Conn(x)
      {
        assert x in s.fdOf && x != id;
        assert s.fdOf[x] != fd;
      }
      forall x | 1 <= x < t.nextId ensures x in t.fdOf || x in t.closed {
        if x == id { assert t.closed[|s.closed|] == id; }
        else if x in s.closed { var i :| 0 <= i < |s.closed| && s.closed[i] == x; assert t.closed[i] == x; }
      }
    }
  }

  lemma UnusedIgnoresBatch(s: State, t: State, script: seq<AcceptResult>)
    requires Unused(s, script) && t == s.(batch := t.batch, dispatched := t.dispatched)
    ensures Unused(t, script)
    decreases |script|
  {
    if script != [] {
      match script[0]
      case NewFd(fd) => UnusedIgnoresBatch(AcceptOne(s, fd), AcceptOne(t, fd), script[1..]);
      case AcceptAgain =>
      case AcceptInterrupted => UnusedIgnoresBatch(s, t, script[1..]);
    }
  }

  lemma DispatchKeeps(s: State, closes: bool, accepts: seq<AcceptResult>)
    requires Inv(s) && Can(s, Dispatch(closes, accepts))
    ensures Inv(Do(s, Dispatch(closes, accepts)))
  {
    hide AcceptAll, CloseSession, Unused;
    var e := s.batch[0];
    var t := s.(batch := s.batch[1..], dispatched := s.dispatched + [(e, Lookup(s, e.fd))]);
    assert e in s.batch && Lookup(s, e.fd) == Some(e.owner);
    forall x | x in t.batch ensures x in s.batch && x.fd != e.fd {
      var i :| 0 <= i < |t.batch| && t.batch[i] == x;
      assert s.batch[i + 1] == x;
    }
    assert Inv(t);
    UnusedIgnoresBatch(s, t, accepts);
    match e.owner
    case Wakeup =>
    case Listener => AcceptAllKeeps(t, accepts);
    case Conn(id) =>
      if closes { CloseKeeps(t, id); }
  }

  lemma StepKeeps(s: State, a: Step)
    requires Inv(s) && Can(s, a)
    ensures Inv(Do(s, a))
  {
    match a
    case Collect(fds) =>
      var t := Do(s, a);
      forall e | e in t.batch ensures e.fd in t.handlers && t.handlers[e.fd] == e.owner {
        var i :| 0 <= i < |t.batch| && t.batch[i] == e;
      }
    case Dispatch(closes, accepts) => DispatchKeeps(s, closes, accepts);
    case AskClose(id) =>
    case CloseTask(id) => CloseKeeps(s.(asked := s.asked - {id}), id);
    case StopServer(fd) =>
  }

  ghost predicate Runs(s: State, steps: seq<Step>, t: State)
    decreases |steps|
  {
    if steps == [] then s == t else Can(s, steps[0]) && Runs(Do(s, steps[0]), steps[1..], t)
  }

  lemma {:induction false} RunsKeep(s: State, steps: seq<Step>, t: State)
    requires Inv(s) && Runs(s, steps, t)
    ensures Inv(t)
    decreases |steps|
  {
    hide Inv, Do, Can;
    if steps != [] {
      StepKeeps(s, steps[0]);
      RunsKeep(Do(s, steps[0]), steps[1..], t);
    }
  }

  /** Events reach their owner under fd reuse: in every run, the handler an event is given
      to, looked up by number when its turn comes, belongs to the owner the fd had when the
      event was collected. */
  lemma EventsReachTheirOwner(wakeFd: int, listenFd: int, steps: seq<Step>, t: State)
    requires wakeFd != listenFd && Runs(Listening(wakeFd, listenFd), steps, t)
    ensures forall d <- t.dispatched :: d.1 == Some(d.0.owner)
  {
    RunsKeep(Listening(wakeFd, listenFd), steps, t);
  }

  /** Each session runs its close sequence at most once, and has run it exactly when it no
      longer has a socket; two open sessions never share an fd, and an open session is
      registered under its own. */
  lemma FdsHaveOneOwner(wakeFd: int, listenFd: int, steps: seq<Step>, t: State)
    requires wakeFd != listenFd && Runs(Listening(wakeFd, listenFd), steps, t)
    ensures forall i, j :: 0 <= i < j < |t.closed| ==> t.closed[i] != t.closed[j]
    ensures forall id :: 1 <= id < t.nextId ==> (id in t.closed <==> id !in t.fdOf)
    ensures forall id, other :: id in t.fdOf && other in t.fdOf && id != other ==> t.fdOf[id] != t.fdOf[other]
    ensures forall id <- t.fdOf :: t.fdOf[id] in t.openFds && Lookup(t, t.fdOf[id]) == Some(Conn(id))
    ensures forall id <- t.sessions :: id in t.fdOf
    ensures t.openFds == t.handlers.Keys
  {
    RunsKeep(Listening(wakeFd, listenFd), steps, t);
    forall id, other | id in t.fdOf && other in t.fdOf && id != other ensures t.fdOf[id] != t.fdOf[other] {
      assert t.handlers[t.fdOf[id]] == Conn(id) && t.handlers[t.fdOf[other]] == Conn(other);
    }
    forall id | id in t.fdOf ensures t.fdOf[id] in t.openFds {
      assert t.fdOf[id] in t.handlers.Keys;
    }
  }

  // ----------------------------------------------------- what each operation does

  /** The descriptors an accept loop gets before the kernel would block. */
  function NewFds(script: seq<AcceptResult>): seq<int>
  {
    if script == [] || script[0].AcceptAgain? then []
    else if script[0].NewFd? then [script[0].fd] + NewFds(script[1..])
    else NewFds(script[1..])
  }

  /** Descriptor `fd` is session `id`'s: its socket, registered with the loop, in the registry. */
  predicate Serves(t: State, id: nat, fd: int)
  {
    id in t.fdOf && t.fdOf[id] == fd && Lookup(t, fd) == Some(Conn(id)) && id in t.sessions
  }

  /** Accepting makes one session of each descriptor, in order, with the next ids; and it
      touches nothing else. */
  ghost predicate Accepts(s: State, fds: seq<int>, t: State)
  {
    && t.nextId == s.nextId + |fds|
    && (forall i :: 0 <= i < |fds| ==> Serves(t, s.nextId + i, fds[i]))
    && (forall id :: id < s.nextId ==>
         (id in t.fdOf <==> id in s.fdOf) && (id in s.fdOf ==> t.fdOf[id] == s.fdOf[id])
         && (id in t.sessions <==> id in s.sessions))
    && (forall fd :: fd !in fds ==> Lookup(t, fd) == Lookup(s, fd))
    && (forall fd :: fd in t.openFds <==> fd in fds || fd in s.openFds)
    && t.asked == s.asked && t.batch == s.batch && t.closed == s.closed && t.dispatched == s.dispatched
  }

  lemma {:induction false} UnusedStayOpen(s: State, script: seq<AcceptResult>, fd: int)
    requires Unused(s, script) && fd in s.openFds
    ensures fd !in NewFds(script)
    decreases |script|
  {
    if script != [] {
      match script[0]
      case NewFd(other) => UnusedStayOpen(AcceptOne(s, other), script[1..], fd);
      case AcceptAgain =>
      case AcceptInterrupted => UnusedStayOpen(s, script[1..], fd);
    }
  }

  lemma OneMoreIn(fd: int, rest: seq<int>)
    ensures forall x :: x in [fd] + rest <==> x == fd || x in rest
  {
    forall x ensures x in [fd] + rest <==> x == fd || x in rest {
      assert ([fd] + rest)[0] == fd && ([fd] + rest)[1..] == rest;
    }
  }

  lemma AcceptOneLooks(s: State, fd: int)
    ensures var u := AcceptOne(s, fd);
      && u.nextId == s.nextId + 1 && Serves(u, s.nextId, fd) && u.openFds == s.openFds + {fd}
      && (forall x :: x != fd ==> Lookup(u, x) == Lookup(s, x))
  {
  }

  lemma AcceptsOneMore(s: State, fd: int, rest: seq<int>, t: State)
    requires fd !in rest && Accepts(AcceptOne(s, fd), rest, t)
    ensures Accepts(s, [fd] + rest, t)
  {
    var u, fds := AcceptOne(s, fd), [fd] + rest;
    OneMoreIn(fd, rest);
    AcceptOneLooks(s, fd);
    assert Lookup(t, fd) == Lookup(u, fd);
    hide Lookup;
    forall i | 0 <= i < |fds| ensures Serves(t, s.nextId + i, fds[i]) {
      if i > 0 {
        assert fds[i] == rest[i - 1] && s.nextId + i == u.nextId + (i - 1);
      }
    }
    forall x | x !in fds ensures Lookup(t, x) == Lookup(s, x) {
      assert x !in rest && x != fd;
    }
  }

  lemma {:induction false} AcceptOutcome(s: State, script: seq<AcceptResult>)
    requires Unused(s, script)
    ensures Accepts(s, NewFds(script), AcceptAll(s, script))
    decreases |script|
  {
    hide Accepts;
    NoneAccepted(s);
    if script != [] {
      match script[0]
      case NewFd(fd) =>
        AcceptOutcome(AcceptOne(s, fd), script[1..]);
        UnusedStayOpen(AcceptOne(s, fd), script[1..], fd);
        AcceptsOneMore(s, fd, NewFds(script[1..]), AcceptAll(s, script));
      case AcceptAgain =>
      case AcceptInterrupted => AcceptOutcome(s, script[1..]);
    }
  }

  lemma NoneAccepted(s: State)
    ensures Accepts(s, [], s)
  {
  }

  /** Session `id`, open before, is closed: out of the registry, its descriptor given up and
      without a handler; every other session and descriptor is as it was. */
  ghost predicate Closes(s: State, id: nat, t: State)
    requires id in s.fdOf
  {
    && t.closed == s.closed + [id] && id !in t.fdOf && id !in t.sessions
    && Lookup(t, s.fdOf[id]) == None && s.fdOf[id] !in t.openFds
    && (forall fd :: fd != s.fdOf[id] ==> Lookup(t, fd) == Lookup(s, fd) && (fd in t.openFds <==> fd in s.openFds))
    && (forall other :: other != id ==>
         (other in t.fdOf <==> other in s.fdOf) && (other in s.fdOf ==> t.fdOf[other] == s.fdOf[other])
         && (other in t.sessions <==> other in s.sessions))
    && t.nextId == s.nextId && t.asked == s.asked && t.batch == s.batch && t.dispatched == s.dispatched
  }

  /** One dispatched event, in terms of who owned the descriptor when the event was collected:
      a listener's accepts what the kernel offers, a session's closes that session if it has
      to, and nothing else happens. */
  lemma DispatchOutcome(wakeFd: int, listenFd: int, steps: seq<Step>, s: State, closes: bool,
                        accepts: seq<AcceptResult>)
    requires wakeFd != listenFd && Runs(Listening(wakeFd, listenFd), steps, s)
    requires Can(s, Dispatch(closes, accepts))
    ensures var e, t := s.batch[0], Do(s, Dispatch(closes, accepts));
      var u := s.(batch := s.batch[1..], dispatched := s.dispatched + [(e, Some(e.owner))]);
      match e.owner
      case Wakeup => t == u
      case Listener => Accepts(u, NewFds(accepts), t)
      case Conn(id) => id in s.fdOf && s.fdOf[id] == e.fd && if closes then Closes(u, id, t) else t == u
  {
    RunsKeep(Listening(wakeFd, listenFd), steps, s);
    hide AcceptAll, Accepts, Unused, NewFds;
    var e := s.batch[0];
    assert e in s.batch && Lookup(s, e.fd) == Some(e.owner);
    var u := s.(batch := s.batch[1..], dispatched := s.dispatched + [(e, Some(e.owner))]);
    if e.owner == Listener {
      UnusedIgnoresBatch(s, u, accepts);
      AcceptOutcome(u, accepts);
    }
  }

  /** And one posted close: it closes the session if that is still open, once. */
  lemma CloseTaskOutcome(s: State, id: nat)
    requires s.batch == []
    ensures var u := s.(asked := s.asked - {id});
      if id in s.fdOf then Closes(u, id, Do(s, CloseTask(id))) else Do(s, CloseTask(id)) == u
  {
  }

  // ------------------------------------------------------ each event, once, in order

  function CollectedFds(steps: seq<Step>): seq<int>
  {
    if steps == [] then []
    else (if steps[0].Collect? then steps[0].fds else []) + CollectedFds(steps[1..])
  }

  function EventFds(events: seq<Event>): (fds: seq<int>)
    ensures |fds| == |events|
  {
    seq(|events|, i requires 0 <= i < |events| => events[i].fd)
  }

  function DispatchedFds(s: State): (fds: seq<int>)
    ensures |fds| == |s.dispatched|
  {
    seq(|s.dispatched|, i requires 0 <= i < |s.dispatched| => s.dispatched[i].0.fd)
  }

  lemma AcceptDispatchesNothing(s: State, script: seq<AcceptResult>)
    ensures AcceptAll(s, script).batch == s.batch && AcceptAll(s, script).dispatched == s.dispatched
    decreases |script|
  {
  }

  lemma StepDispatches(s: State, a: Step)
    requires Can(s, a)
    ensures var t := Do(s, a);
      DispatchedFds(t) + EventFds(t.batch)
      == DispatchedFds(s) + EventFds(s.batch) + (if a.Collect? then a.fds else [])
  {
    if a.Dispatch? {
      var e := s.batch[0];
      var u := s.(batch := s.batch[1..], dispatched := s.dispatched + [(e, Lookup(s, e.fd))]);
      AcceptDispatchesNothing(u, a.accepts);
      hide AcceptAll;
      assert EventFds(s.batch) == [e.fd] + EventFds(s.batch[1..]);
      assert DispatchedFds(Do(s, a)) == DispatchedFds(s) + [e.fd];
    }
  }

  /** Every event the kernel reports is dispatched once, in the order reported. */
  lemma {:induction false} EachEventOnce(s: State, steps: seq<Step>, t: State)
    requires Runs(s, steps, t)
    ensures DispatchedFds(t) + EventFds(t.batch) == DispatchedFds(s) + EventFds(s.batch) + CollectedFds(steps)
    decreases |steps|
  {
    hide Do, Can, DispatchedFds, EventFds;
    if steps != [] {
      StepDispatches(s, steps[0]);
      EachEventOnce(Do(s, steps[0]), steps[1..], t);
    }
  }

  // ------------------------------------------------------------------ stopping

  /** While the server listens its registry is the open sessions; once it has stopped the
      registry is empty and every session still open has been asked to close. Only the
      wakeup and the listening descriptor are not sessions'. */
  ghost predicate ListenInv(s: State, wakeFd: int, listenFd: int)
  {
    && Lookup(s, wakeFd) == Some(Wakeup)
    && (forall fd <- s.handlers :: s.handlers[fd] == Wakeup ==> fd == wakeFd)
    && (forall fd <- s.handlers :: s.handlers[fd] == Listener ==> fd == listenFd)
    && (if Lookup(s, listenFd) == Some(Listener) then s.sessions == s.fdOf.Keys
        else s.sessions == {} && s.fdOf.Keys <= s.asked)
  }

  lemma {:induction false} AcceptListens(s: State, script: seq<AcceptResult>, wakeFd: int, listenFd: int)
    requires ListenInv(s, wakeFd, listenFd) && Inv(s) && Unused(s, script) && Lookup(s, listenFd) == Some(Listener)
    ensures ListenInv(AcceptAll(s, script), wakeFd, listenFd)
    ensures Lookup(AcceptAll(s, script), listenFd) == Some(Listener)
    decreases |script|
  {
    if script != [] {
      match script[0]
      case NewFd(fd) =>
        AcceptOneKeeps(s, fd);
        AcceptOneListens(s, fd, wakeFd, listenFd);
        hide ListenInv, Inv, AcceptOne;
        AcceptListens(AcceptOne(s, fd), script[1..], wakeFd, listenFd);
      case AcceptAgain =>
      case AcceptInterrupted => AcceptListens(s, script[1..], wakeFd, listenFd);
    }
  }

  lemma AcceptOneListens(s: State, fd: int, wakeFd: int, listenFd: int)
    requires ListenInv(s, wakeFd, listenFd) && Inv(s) && fd !in s.openFds && Lookup(s, listenFd) == Some(Listener)
    ensures ListenInv(AcceptOne(s, fd), wakeFd, listenFd)
    ensures Lookup(AcceptOne(s, fd), listenFd) == Some(Listener)
  {
    assert fd !in s.handlers.Keys && listenFd in s.handlers.Keys && wakeFd in s.handlers.Keys;
  }

  lemma CloseListens(s: State, id: nat, wakeFd: int, listenFd: int)
    requires ListenInv(s, wakeFd, listenFd) && Owns(s)
    ensures ListenInv(CloseSession(s, id), wakeFd, listenFd)
  {
    if id in s.fdOf {
      assert s.handlers[s.fdOf[id]] == Conn(id);
    }
  }

  /** A close task that runs settles what was asked. */
  lemma CloseTaskListens(s: State, id: nat, wakeFd: int, listenFd: int)
    requires ListenInv(s, wakeFd, listenFd) && Owns(s)
    ensures ListenInv(CloseSession(s.(asked := s.asked - {id}), id), wakeFd, listenFd)
  {
    if id in s.fdOf {
      assert s.handlers[s.fdOf[id]] == Conn(id);
    }
  }

  lemma StepListens(s: State, a: Step, wakeFd: int, listenFd: int)
    requires ListenInv(s, wakeFd, listenFd) && Inv(s) && Can(s, a)
    ensures ListenInv(Do(s, a), wakeFd, listenFd)
  {
    match a
    case Dispatch(closes, accepts) =>
      var e := s.batch[0];
      assert e in s.batch;
      DispatchListens(s, closes, accepts, wakeFd, listenFd);
    case CloseTask(id) => CloseTaskListens(s, id, wakeFd, listenFd);
    case StopServer(fd) => assert Lookup(Do(s, a), wakeFd) == Some(Wakeup);
    case _ =>
  }

  lemma DispatchListens(s: State, closes: bool, accepts: seq<AcceptResult>, wakeFd: int, listenFd: int)
    requires ListenInv(s, wakeFd, listenFd) && Inv(s) && Can(s, Dispatch(closes, accepts))
    ensures ListenInv(Do(s, Dispatch(closes, accepts)), wakeFd, listenFd)
  {
    var e := s.batch[0];
    assert e in s.batch && Lookup(s, e.fd) == Some(e.owner);
    var u := s.(batch := s.batch[1..], dispatched := s.dispatched + [(e, Lookup(s, e.fd))]);
    UnusedIgnoresBatch(s, u, accepts);
    assert Inv(u) by {
      assert DispatchInv(u);
      forall x | x in u.batch ensures x in s.batch {
        var i :| 0 <= i < |u.batch| && u.batch[i] == x;
        assert s.batch[i + 1] == x;
      }
    }
    hide AcceptAll, CloseSession, Unused, Inv;
    match e.owner
    case Wakeup =>
    case Listener => AcceptListens(u, accepts, wakeFd, listenFd);
    case Conn(id) => if closes { OwnsOf(u); CloseListens(u, id, wakeFd, listenFd); }
  }

  lemma OwnsOf(s: State)
    requires Inv(s)
    ensures Owns(s)
  {
  }

  lemma {:induction false} RunsListen(s: State, steps: seq<Step>, t: State, wakeFd: int, listenFd: int)
    requires ListenInv(s, wakeFd, listenFd) && Inv(s) && Runs(s, steps, t)
    ensures ListenInv(t, wakeFd, listenFd)
    ensures StopServer(listenFd) in steps || Lookup(s, listenFd) != Some(Listener) ==>
      Lookup(t, listenFd) != Some(Listener)
    decreases |steps|
  {
    hide Inv, Do, Can, ListenInv, Lookup;
    if steps != [] {
      StepKeeps(s, steps[0]);
      StepListens(s, steps[0], wakeFd, listenFd);
      ListeningEnds(s, steps[0], wakeFd, listenFd);
      RunsListen(Do(s, steps[0]), steps[1..], t, wakeFd, listenFd);
    }
  }

  /** Only stopping ends listening, and nothing resumes it. */
  lemma ListeningEnds(s: State, a: Step, wakeFd: int, listenFd: int)
    requires ListenInv(s, wakeFd, listenFd) && Inv(s) && Can(s, a)
    ensures a == StopServer(listenFd) || Lookup(s, listenFd) != Some(Listener) ==>
      Lookup(Do(s, a), listenFd) != Some(Listener)
  {
    if a.Dispatch? {
      assert s.batch[0] in s.batch;
    }
  }

  lemma ListeningInv(wakeFd: int, listenFd: int)
    requires wakeFd != listenFd
    ensures Inv(Listening(wakeFd, listenFd)) && ListenInv(Listening(wakeFd, listenFd), wakeFd, listenFd)
  {
  }

  lemma OnlyTheWakeup(t: State, fd: int, wakeFd: int, listenFd: int)
    requires ListenInv(t, wakeFd, listenFd) && Owns(t) && t.fdOf == map[] && fd in t.handlers
    requires Lookup(t, listenFd) != Some(Listener)
    ensures fd == wakeFd
  {
  }

  /** Stopping closes everything: whenever, after a stop, no posted close is left to run, no
      session is open, the registry is empty and only the wakeup descriptor remains. */
  lemma StopClosesEverything(wakeFd: int, listenFd: int, steps: seq<Step>, t: State)
    requires wakeFd != listenFd && Runs(Listening(wakeFd, listenFd), steps, t)
    requires StopServer(listenFd) in steps && t.asked == {}
    ensures t.fdOf == map[] && t.sessions == {} && t.openFds == {wakeFd}
    ensures forall id :: 1 <= id < t.nextId ==> id in t.closed
  {
    hide Runs;
    ListeningInv(wakeFd, listenFd);
    RunsListen(Listening(wakeFd, listenFd), steps, t, wakeFd, listenFd);
    RunsKeep(Listening(wakeFd, listenFd), steps, t);
    assert t.fdOf.Keys == {};
    forall fd | fd in t.openFds ensures fd == wakeFd {
      assert fd in t.handlers.Keys;
      OnlyTheWakeup(t, fd, wakeFd, listenFd);
    }
    assert wakeFd in t.handlers.Keys;
  }

  /** The accept loop and the registry as the source's fields. */
  class TcpServer {
    var handlers: map<int, Owner>
    var sessions: set<nat>
    var nextId: nat
    ghost var openFds: set<int>
    ghost var fdOf: map<nat, int>

    /** The server's part of the state, with the loop's from `s`. */
    ghost function Snapshot(s: State): State
      reads this
    {
      s.(handlers := handlers, openFds := openFds, fdOf := fdOf, sessions := sessions, nextId := nextId)
    }

    method AcceptLoop(script: seq<AcceptResult>, ghost s: State)
      requires s == Snapshot(s)
      modifies this
      ensures Snapshot(s) == AcceptAll(s, script)
    {
      var i := 0;
      assert script[0..] == script;
      while i < |script|
        invariant i <= |script|
        invariant AcceptAll(Snapshot(s), script[i..]) == AcceptAll(s, script)
      {
        assert script[i..][1..] == script[i + 1..];
        match script[i] {
          case AcceptAgain =>
            return;
          case AcceptInterrupted =>
          case NewFd(fd) =>
            var id := nextId;
            nextId := nextId + 1;
            sessions := sessions + {id};
            handlers := handlers[fd := Conn(id)];
            openFds, fdOf := openFds + {fd}, fdOf[id := fd];
        }
        i := i + 1;
      }
    }
  }
}
