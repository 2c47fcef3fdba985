/** The event loop of event_loop.cpp: the task queue and the eventfd wakeup protocol,
    between the loop thread and any number of threads that post and stop. */
module EventLoop {
  /** Tasks are known by numbers; what matters is that each runs once, in order. */
  type Task = nat

  /** Where the loop thread is. `Dispatch(true)` has the eventfd among its ready events. */
  datatype Pc = Idle | Test | Swap | Batch | Wait | Dispatch(wake: bool) | FinalSwap | FinalBatch

  /** `owing` threads have pushed a task or set `stopped_`, and not yet written the eventfd;
      `selfOwes` says the same of the loop thread, inside a callback. */
  datatype State = State(
    tasks: seq<Task>, local: seq<Task>, counter: nat, stopped: bool, pc: Pc, owing: nat, selfOwes: bool,
    posted: seq<Task>, executed: seq<Task>)

  const CREATED := State([], [], 0, false, Idle, 0, false, [], [])

  /** An eventfd counter never exceeds 2^64 - 2: a write that would is refused (EAGAIN). */
  const MAX_COUNTER: nat := 0xFFFF_FFFF_FFFF_FFFE

  function Bump(counter: nat): (r: nat)
    ensures counter > 0 ==> r > 0
    ensures r > 0
  {
    if counter >= MAX_COUNTER then counter else counter + 1
  }

  datatype Step =
    // any other thread
    | Push(task: Task) | SetStopped | Write
    // the loop thread
    | Start | TestStopped | SwapTasks | RunOne | EndBatch | Timeout | Ready(wake: bool)
    | ReadWakeup | EndDispatch
    // the loop thread, inside a callback
    | SelfPush(task: Task) | SelfStop | SelfWrite

  predicate InCallback(pc: Pc) { pc.Batch? || pc.Dispatch? || pc.FinalBatch? }

  predicate Can(s: State, a: Step)
  {
    match a
    case Push(_) => true
    case SetStopped => true
    case Write => s.owing > 0
    case SelfPush(_) => InCallback(s.pc) && !s.selfOwes
    case SelfStop => InCallback(s.pc) && !s.selfOwes
    case SelfWrite => s.selfOwes
    case Start => s.pc == Idle
    case TestStopped => s.pc == Test
    case SwapTasks => s.pc == Swap || s.pc == FinalSwap
    case RunOne => (s.pc == Batch || s.pc == FinalBatch) && s.local != [] && !s.selfOwes
    case EndBatch => (s.pc == Batch || s.pc == FinalBatch) && s.local == [] && !s.selfOwes
    case Timeout => s.pc == Wait
    case Ready(wake) => s.pc == Wait && (wake ==> s.counter > 0)
    case ReadWakeup => s.pc == Dispatch(true) && !s.selfOwes
    case EndDispatch => s.pc == Dispatch(false) && !s.selfOwes
  }

  function Do(s: State, a: Step): State
    requires Can(s, a)
  {
    match a
    case Push(t) => s.(tasks := s.tasks + [t], posted := s.posted + [t], owing := s.owing + 1)
    case SetStopped => s.(stopped := true, owing := s.owing + 1)
    case Write => s.(counter := Bump(s.counter), owing := s.owing - 1)
    case SelfPush(t) => s.(tasks := s.tasks + [t], posted := s.posted + [t], selfOwes := true)
    case SelfStop => s.(stopped := true, selfOwes := true)
    case SelfWrite => s.(counter := Bump(s.counter), selfOwes := false)
    case Start => s.(stopped := false, pc := Test)
    case TestStopped => s.(pc := if s.stopped then FinalSwap else Swap)
    case SwapTasks => s.(local := s.tasks, tasks := [], pc := if s.pc == Swap then Batch else FinalBatch)
    case RunOne => s.(local := s.local[1..], executed := s.executed + [s.local[0]])
    case EndBatch => s.(pc := if s.pc == Batch then Wait else Idle)
    case Timeout => s.(pc := Test)
    case Ready(wake) => s.(pc := Dispatch(wake))
    case ReadWakeup => if s.counter > 0 then s.(counter := 0) else s.(pc := Dispatch(false))
    case EndDispatch => s.(pc := Test)
  }

  /** Between its test of `stopped_` and the end of `epoll_wait` the loop relies on the
      eventfd to learn of a stop; between its swap and there, of a task. */
  ghost predicate Inv(s: State)
  {
    && s.executed + s.local + s.tasks == s.posted
    && (s.local != [] ==> s.pc == Batch || s.pc == FinalBatch)
    && (s.selfOwes ==> InCallback(s.pc))
    && (s.pc == Batch || s.pc == Wait ==> s.tasks != [] ==> Signalled(s))
    && (s.pc == Swap || s.pc == Batch || s.pc == Wait ==> s.stopped ==> Signalled(s))
    && (s.pc == FinalSwap || s.pc == FinalBatch ==> s.stopped)
  }

  predicate Signalled(s: State) { s.counter > 0 || s.owing > 0 || s.selfOwes }

  lemma StepKeeps(s: State, a: Step)
    requires Inv(s) && Can(s, a)
    ensures Inv(Do(s, a))
  {
    match a
    case Push(t) => assert s.executed + s.local + (s.tasks + [t]) == s.executed + s.local + s.tasks + [t];
    case SelfPush(t) => assert s.executed + s.local + (s.tasks + [t]) == s.executed + s.local + s.tasks + [t];
    case SwapTasks => assert s.executed + s.tasks + [] == s.executed + [] + s.tasks;
    case RunOne =>
      assert s.local == [s.local[0]] + s.local[1..];
      assert s.executed + [s.local[0]] + s.local[1..] == s.executed + s.local;
    case _ =>
  }

  ghost predicate Runs(s: State, steps: seq<Step>, t: State)
    decreases |steps|
  {
    if steps == [] then s == t else Can(s, steps[0]) && Runs(Do(s, steps[0]), steps[1..], t)
  }

  ghost predicate Reachable(s: State) { exists steps :: Runs(CREATED, steps, s) }

  lemma {:induction false} RunsKeep(s: State, steps: seq<Step>, t: State)
    requires Inv(s) && Runs(s, steps, t)
    ensures Inv(t)
    decreases |steps|
  {
    hide Inv, Do, Can;
    if steps != [] {
      StepKeeps(s, steps[0]);
      RunsKeep(Do(s, steps[0]), steps[1..], t);
    }
  }

  lemma ReachableInv(s: State)
    requires Reachable(s)
    ensures Inv(s)
  {
    var steps :| Runs(CREATED, steps, s);
    RunsKeep(CREATED, steps, s);
  }

  predicate IsStop(a: Step) { a.SetStopped? || a.SelfStop? }

  predicate NoStart(steps: seq<Step>) { forall j :: 0 <= j < |steps| ==> !steps[j].Start? }

  /** Some step of the history sets `stopped_`, and `run()` does not begin after it. */
  ghost predicate StopSinceStart(steps: seq<Step>)
  {
    exists i :: 0 <= i < |steps| && IsStop(steps[i]) && NoStart(steps[i + 1..])
  }

  lemma StopSinceStartCons(steps: seq<Step>)
    requires steps != []
    ensures StopSinceStart(steps) <==> StopSinceStart(steps[1..]) || (IsStop(steps[0]) && NoStart(steps[1..]))
  {
    var rest := steps[1..];
    if StopSinceStart(steps) {
      var i :| 0 <= i < |steps| && IsStop(steps[i]) && NoStart(steps[i + 1..]);
      if i > 0 {
        assert rest[i - 1] == steps[i] && rest[i..] == steps[i + 1..];
      }
    }
    if StopSinceStart(rest) {
      var i :| 0 <= i < |rest| && IsStop(rest[i]) && NoStart(rest[i + 1..]);
      assert steps[i + 1] == rest[i] && steps[i + 2..] == rest[i + 1..];
    }
  }

  /** The flag, read off the history: it is up exactly when it was up and no run has begun
      since, or a stop came after the last beginning. */
  lemma {:induction false} FlagFromHistory(s: State, steps: seq<Step>, t: State)
    requires Runs(s, steps, t)
    ensures t.stopped <==> StopSinceStart(steps) || (s.stopped && NoStart(steps))
    decreases |steps|
  {
    if steps != [] {
      var u, rest := Do(s, steps[0]), steps[1..];
      FlagFromHistory(u, rest, t);
      StopSinceStartCons(steps);
      assert NoStart(steps) <==> !steps[0].Start? && NoStart(rest) by {
        if !steps[0].Start? && NoStart(rest) {
          forall j | 0 <= j < |steps| ensures !steps[j].Start? {
            if j > 0 { assert steps[j] == rest[j - 1]; }
          }
        }
        if NoStart(steps) {
          forall j | 0 <= j < |rest| ensures !rest[j].Start? {
            assert rest[j] == steps[j + 1];
          }
        }
      }
    }
  }

  /** No lost wakeup: whenever `epoll_wait` could block on the eventfd (its counter is 0),
      a task not yet taken, or a stop issued since `run()` began, has a thread that will
      still write the eventfd. */
  lemma NoLostWakeup(steps: seq<Step>, s: State)
    requires Runs(CREATED, steps, s) && s.pc == Wait && s.counter == 0
    requires s.tasks != [] || StopSinceStart(steps)
    ensures s.owing > 0
  {
    RunsKeep(CREATED, steps, s);
    FlagFromHistory(CREATED, steps, s);
  }

  /** No task is lost, repeated or reordered: those run, then the rest of the local batch,
      then the shared queue, are the posts in order; and the loop waits only when its batch
      is done. */
  lemma TasksInOrder(s: State)
    requires Reachable(s)
    ensures s.executed + s.local + s.tasks == s.posted
    ensures s.executed <= s.posted
    ensures s.pc == Wait ==> s.local == []
  {
    ReachableInv(s);
    assert s.executed + s.local + s.tasks == s.executed + (s.local + s.tasks);
  }

  // --------------------------------------------------- what a drain has to have run

  /** Where the tasks `due`, a prefix of the posts, must have got to, for the loop to have run
      them when it next stands at `goal`. */
  ghost predicate OnTheWay(due: seq<Task>, s: State, goal: Pc)
  {
    if s.pc == goal then due <= s.executed
    else if s.pc == (if goal == Idle then FinalBatch else Batch) then due <= s.executed + s.local
    else due <= s.posted
  }

  lemma StepOnTheWay(due: seq<Task>, s: State, a: Step, goal: Pc)
    requires s.executed + s.local + s.tasks == s.posted && (s.local != [] ==> s.pc == Batch || s.pc == FinalBatch)
    requires Can(s, a) && (goal == Idle || goal == Wait) && OnTheWay(due, s, goal)
    ensures OnTheWay(due, Do(s, a), goal)
  {
    match a
    case RunOne =>
      assert s.executed + [s.local[0]] + s.local[1..] == s.executed + s.local;
    case SwapTasks =>
      assert s.executed + s.tasks == s.posted by { assert s.executed + [] + s.tasks == s.executed + s.tasks; }
    case EndBatch =>
      assert s.executed + [] == s.executed;
      assert s.executed <= s.executed + (s.local + s.tasks) == s.posted;
    case _ =>
      assert s.executed <= s.executed + (s.local + s.tasks) == s.posted;
      assert s.executed + s.local <= s.executed + s.local + s.tasks;
  }

  lemma QueuesOf(s: State)
    requires Inv(s)
    ensures s.executed + s.local + s.tasks == s.posted && (s.local != [] ==> s.pc == Batch || s.pc == FinalBatch)
  {
  }

  lemma {:induction false} RunOnTheWay(due: seq<Task>, s: State, steps: seq<Step>, t: State, goal: Pc)
    requires Inv(s) && Runs(s, steps, t) && (goal == Idle || goal == Wait) && OnTheWay(due, s, goal)
    ensures OnTheWay(due, t, goal)
    decreases |steps|
  {
    hide Inv, Do, Can, OnTheWay;
    if steps != [] {
      StepKeeps(s, steps[0]);
      QueuesOf(s);
      StepOnTheWay(due, s, steps[0], goal);
      RunOnTheWay(due, Do(s, steps[0]), steps[1..], t, goal);
    }
  }

  /** No task is left behind by `run()`: whatever had been posted at any moment before its last
      batch, as when a stop is issued, has run whenever the loop stands idle afterwards. */
  lemma ReturnRunsAllPosted(s: State, steps: seq<Step>, t: State)
    requires Reachable(s) && s.pc != Idle && s.pc != FinalBatch
    requires Runs(s, steps, t) && t.pc == Idle
    ensures s.posted <= t.executed
  {
    ReachableInv(s);
    RunOnTheWay(s.posted, s, steps, t, Idle);
  }

  /** And no turn of the loop postpones a task: whatever had been posted before a turn's swap
      has run whenever the loop next waits, or at any wait after. */
  lemma EveryTurnRunsItsTasks(s: State, steps: seq<Step>, t: State)
    requires Reachable(s) && s.pc != Batch && s.pc != Wait
    requires Runs(s, steps, t) && t.pc == Wait
    ensures s.posted <= t.executed
  {
    ReachableInv(s);
    RunOnTheWay(s.posted, s, steps, t, Wait);
  }

  // ------------------------------------------------------ every task can still be run

  /** A step of the loop thread that posts and stops nothing. */
  predicate Onward(a: Step)
  {
    !a.Push? && !a.SetStopped? && !a.Write? && !a.SelfPush? && !a.SelfStop? && !a.Start?
  }

  /** The loop's own next step. */
  function Next(s: State): (a: Step)
    requires Inv(s) && s.pc != Idle
    ensures Can(s, a) && Onward(a)
  {
    if s.selfOwes then SelfWrite
    else
      match s.pc
      case Test => TestStopped
      case Swap => SwapTasks
      case Batch => if s.local == [] then EndBatch else RunOne
      case Wait => Timeout
      case Dispatch(wake) => if wake then ReadWakeup else EndDispatch
      case FinalSwap => SwapTasks
      case FinalBatch => if s.local == [] then EndBatch else RunOne
  }

  /** How many of its own steps the loop has still to take, at most, before it stands at its
      test of `stopped_`, or idle. */
  function Distance(s: State): nat
  {
    (if s.selfOwes then 2 else 0) +
    match s.pc
    case Idle => 0
    case Test => 0
    case Wait => 1
    case Dispatch(false) => 1
    case Dispatch(true) => if s.counter > 0 then 3 else 2
    case Batch => |s.local| + 2
    case Swap => |s.tasks| + 3
    case FinalBatch => |s.local| + 1
    case FinalSwap => |s.tasks| + 2
  }

  /** Left to itself the loop gets from `s` to `goal`. */
  predicate Toward(s: State, goal: Pc)
  {
    match goal
    case Test => s.pc == Test || s.pc == Swap || s.pc == Batch || s.pc == Wait || s.pc.Dispatch?
    case Wait => s.pc == Swap || s.pc == Batch || s.pc == Wait
    case Idle => s.pc == FinalSwap || s.pc == FinalBatch || s.pc == Idle
    case _ => false
  }

  lemma NextIsNearer(s: State, goal: Pc)
    requires Inv(s) && Toward(s, goal) && s.pc != goal
    ensures var t := Do(s, Next(s));
      Distance(t) < Distance(s) && Toward(t, goal) && t.posted == s.posted && t.stopped == s.stopped
  {
  }

  lemma {:induction false} Reach(s: State, goal: Pc) returns (steps: seq<Step>, t: State)
    requires Inv(s) && Toward(s, goal)
    ensures Runs(s, steps, t) && forall a <- steps :: Onward(a)
    ensures t.pc == goal && Inv(t) && t.posted == s.posted && t.stopped == s.stopped
    decreases Distance(s)
  {
    hide Inv, Do, Can, Onward, Distance;
    if s.pc == goal {
      steps, t := [], s;
    } else {
      var a := Next(s);
      NextIsNearer(s, goal);
      StepKeeps(s, a);
      var rest;
      rest, t := Reach(Do(s, a), goal);
      steps := [a] + rest;
      assert steps[1..] == rest;
    }
  }

  lemma RunsOnward(s: State, a: seq<Step>, t: State, b: seq<Step>, u: State)
    requires Runs(s, a, t) && Runs(t, b, u)
    ensures Runs(s, a + b, u)
    decreases |a|
  {
    hide Do, Can;
    if a == [] {
      assert a + b == b;
    } else {
      assert (a + b)[1..] == a[1..] + b;
      RunsOnward(Do(s, a[0]), a[1..], t, b, u);
    }
  }

  /** No task is stuck: from every reachable state of a run that has not made its last swap,
      the loop's own steps alone lead to where everything posted has run, with the loop
      waiting, or back from `run()` if it has been stopped. */
  lemma EveryTaskCanRun(s: State) returns (steps: seq<Step>, t: State)
    requires Reachable(s) && s.pc != Idle && s.pc != FinalBatch
    ensures Runs(s, steps, t) && forall a <- steps :: Onward(a)
    ensures t.pc == (if s.stopped then Idle else Wait)
    ensures t.posted == s.posted && t.executed == s.posted
  {
    ReachableInv(s);
    hide Onward;
    var goal := if s.stopped then Idle else Wait;
    if s.pc == FinalSwap {
      steps, t := Reach(s, Idle);
      RunOnTheWay(s.posted, s, steps, t, Idle);
    } else {
      var u, v;
      var a, b;
      a, u := Reach(s, Test);
      v := Do(u, TestStopped);
      StepKeeps(u, TestStopped);
      b, t := Reach(v, goal);
      RunOnTheWay(s.posted, v, b, t, goal);
      OneStep(u, TestStopped);
      RunsOnward(u, [TestStopped], v, b, t);
      RunsOnward(s, a, u, [TestStopped] + b, t);
      steps := a + ([TestStopped] + b);
    }
    QueuesOf(t);
    assert t.executed <= t.executed + (t.local + t.tasks) == t.posted;
  }

  lemma OneStep(s: State, a: Step)
    requires Can(s, a)
    ensures Runs(s, [a], Do(s, a))
  {
    assert Runs(Do(s, a), [a][1..], Do(s, a));
  }

  // ------------------------------------------------------------- no stale wakeup

  predicate Writes(a: Step) { a.Write? || a.SelfWrite? }

  /** A dispatched wakeup empties the eventfd: unless some thread writes it after the loop
      has begun to handle the event, it is empty when the loop waits again. */
  lemma {:induction false} WakeupIsConsumed(s: State, steps: seq<Step>, t: State)
    requires Runs(s, steps, t) && forall a <- steps :: !Writes(a)
    requires s.pc == Dispatch(true) || s.counter == 0
    ensures t.pc == Dispatch(true) || t.counter == 0
    decreases |steps|
  {
    if steps != [] {
      assert steps[0] in steps;
      WakeupIsConsumed(Do(s, steps[0]), steps[1..], t);
    }
  }

  lemma StopSinceStartMeans(steps: seq<Step>)
    ensures StopSinceStart(steps) <==>
      exists i :: 0 <= i < |steps| && IsStop(steps[i]) && forall j :: i < j < |steps| ==> !steps[j].Start?
  {
    hide IsStop;
    if StopSinceStart(steps) {
      var i :| 0 <= i < |steps| && IsStop(steps[i]) && NoStart(steps[i + 1..]);
      forall j | i < j < |steps| ensures !steps[j].Start? {
        assert steps[j] == steps[i + 1..][j - i - 1];
      }
    }
    if i :| 0 <= i < |steps| && IsStop(steps[i]) && forall j :: i < j < |steps| ==> !steps[j].Start? {
      assert NoStart(steps[i + 1..]);
    }
  }

  /** A stop works exactly when it comes after `run()` has begun: in every history that
      brings the loop to its test of `stopped_`, the loop leaves if and only if some stop
      has no beginning of a run after it. */
  lemma LeavesIffStoppedDuringRun(steps: seq<Step>, s: State)
    requires Runs(CREATED, steps, s) && s.pc == Test
    ensures Do(s, TestStopped).pc == FinalSwap <==>
      exists i :: 0 <= i < |steps| && IsStop(steps[i]) && forall j :: i < j < |steps| ==> !steps[j].Start?
  {
    FlagFromHistory(CREATED, steps, s);
    StopSinceStartMeans(steps);
    hide Runs, StopSinceStart, NoStart, IsStop;
  }

  /** The losing order: a stop that is complete before `run()` starts has no effect. */
  lemma StopBeforeRunIsLost()
    ensures exists s :: Runs(CREATED, [SetStopped, Write, Start, TestStopped], s) && s.pc == Swap && !s.stopped
  {
    var a := Do(CREATED, SetStopped);
    var b := Do(a, Write);
    var c := Do(b, Start);
    var d := Do(c, TestStopped);
    assert Runs(c, [TestStopped], d);
    assert [Start, TestStopped][1..] == [TestStopped];
    assert Runs(b, [Start, TestStopped], d);
    assert [Write, Start, TestStopped][1..] == [Start, TestStopped];
    assert Runs(a, [Write, Start, TestStopped], d);
    assert [SetStopped, Write, Start, TestStopped][1..] == [Write, Start, TestStopped];
    assert Runs(CREATED, [SetStopped, Write, Start, TestStopped], d);
  }

  // ------------------------------------------------------------------- the class

  /** The queue's methods as the source writes them. A task may itself post: `spawn(t)` is
      what task `t` posts when it runs. */
  class Loop {
    var tasks: seq<Task>
    var counter: nat
    ghost var executed: seq<Task>

    constructor ()
      ensures tasks == [] && counter == 0 && executed == []
    {
      tasks, counter, executed := [], 0, [];
    }

    method Post(task: Task)
      modifies this
      ensures tasks == old(tasks) + [task] && counter == Bump(old(counter)) && executed == old(executed)
    {
      tasks := tasks + [task];
      Wakeup();
    }

    method Wakeup()
      modifies this`counter
      ensures counter == Bump(old(counter))
    {
      if counter < MAX_COUNTER {
        counter := counter + 1;
      }
    }

    /** `drain_wakeup`: reads until a read finds the counter at 0. */
    method DrainWakeup()
      modifies this`counter
      ensures counter == 0
    {
      while counter > 0 {
        counter := 0;
      }
    }

    /** `drain_tasks`: exactly the tasks queued at the swap run, in order; what they post
        waits in the queue for the next drain, in the order posted. */
    method DrainTasks(spawn: Task -> seq<Task>)
      modifies this
      ensures executed == old(executed) + old(tasks)
      ensures tasks == Posts(spawn, old(tasks))
    {
      var local := tasks;
      tasks := [];
      while local != []
        invariant executed + local == old(executed) + old(tasks)
        invariant tasks + Posts(spawn, local) == Posts(spawn, old(tasks))
        decreases |local|
      {
        var task := local[0];
        local := local[1..];
        assert executed + ([task] + local) == (executed + [task]) + local;
        executed := executed + [task];
        assert tasks + (spawn(task) + Posts(spawn, local)) == (tasks + spawn(task)) + Posts(spawn, local);
        PostAll(spawn(task));
      }
    }

    method PostAll(more: seq<Task>)
      modifies this`tasks, this`counter
      ensures tasks == old(tasks) + more
    {
      for i := 0 to |more|
        invariant tasks == old(tasks) + more[..i]
      {
        assert more[..i + 1] == more[..i] + [more[i]];
        tasks := tasks + [more[i]];
        Wakeup();
      }
    }
  }

  function Posts(spawn: Task -> seq<Task>, tasks: seq<Task>): seq<Task>
  {
    if tasks == [] then [] else spawn(tasks[0]) + Posts(spawn, tasks[1..])
  }
}
