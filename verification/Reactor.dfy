/**
 * One event loop and any number of producer threads, as a step relation: every
 * lock-protected queue operation, every eventfd operation and every stretch of
 * loop code between two of them is one step, in any interleaving.
 */
module Reactor {
  import opened Sequences
  import opened Wrappers
  import opened TimerSpec
  import opened Sleep

  const LOOP_THREAD: nat := 0

  /** What a queued closure does: a registration its producer asked for, or anything else. */
  datatype Work = UserCode(id: nat) | TimerCall(req: Request)

  datatype Task = Task(producer: nat, work: Work)

  /** Whether running the task may register just these. A timer call reads the clock when it is run. */
  predicate Does(task: Task, requests: seq<Request>) {
    task.work.TimerCall? ==> |requests| == 1 && SameCall(requests[0], task.work.req)
  }

  datatype Handler = WakeHandler | OtherHandler

  /** Where the loop thread is. */
  datatype Pc =
    | Top                                      // before getNextExpiredTime
    | Waiting(timeout: int, readAt: int)       // in epoll_wait
    | Dispatch(ready: seq<Handler>)            // handlers still to run
    | Timers                                   // before execExpiredTimesTask
    | CheckEmpty                               // doPendingTask: before empty()
    | TryPop                                   // after empty() returned false
    | Running(task: Task)                      // in task_()

  /**
   * `midCall` holds the producers between their push and their signal. `pushed`
   * and `done` are histories: all tasks ever pushed, all tasks the drain has run.
   */
  datatype State = State(
    queue: seq<Task>, counter: nat, midCall: set<nat>,
    pc: Pc, timers: Queue, clock: int,
    pushed: seq<Task>, done: seq<Task>)

  datatype Label =
    // other threads and time
    | Push(tid: nat, task: Task)
    | Signal(tid: nat)
    | Tick(later: int)
    // the loop thread
    | LoopTop
    | WaitReturns(ready: seq<Handler>, interrupted: bool)
    | Handle(requests: seq<Request>)
    | HandlersDone
    | FireRound(script: Script, until: int)
    | SeeEmpty
    | Pop
    | RunTask(requests: seq<Request>)

  predicate IsLoopStep(l: Label) {
    !l.Push? && !l.Signal? && !l.Tick?
  }

  /** Level-triggered: the eventfd is only reported while its counter is positive, and at most once. */
  ghost predicate ReadyPossible(s: State, ready: seq<Handler>) {
    && (WakeHandler in ready ==> 0 < s.counter)
    && multiset(ready)[WakeHandler] <= 1
  }

  predicate TimedOut(s: State)
    requires s.pc.Waiting?
  {
    0 <= s.pc.timeout && s.pc.readAt + s.pc.timeout * TICKS_PER_MS <= s.clock
  }

  /** Requests that read the clock do so while it shows `lo` to `hi`. */
  ghost predicate ReadBetween(requests: seq<Request>, lo: int, hi: int) {
    forall r :: r in requests && !r.RunUntil? ==> lo <= r.now <= hi
  }

  /**
   * Which steps are possible. A call of `queueInLoopThread` from the loop thread
   * runs its task on the spot and is part of the step that calls it. Requests
   * are what user code registers with the timer queue in that step. Reading the
   * eventfd retries while the counter is zero, so that step needs it positive.
   */
  ghost predicate Enabled(s: State, l: Label) {
    match l
    case Push(tid, task) => tid != LOOP_THREAD && tid !in s.midCall && task.producer == tid
    case Signal(tid) => tid in s.midCall
    case Tick(later) => s.clock <= later
    case LoopTop => s.pc.Top?
    case WaitReturns(ready, interrupted) =>
      s.pc.Waiting? && ReadyPossible(s, ready) && (ready == [] ==> interrupted || TimedOut(s))
    case Handle(requests) =>
      && s.pc.Dispatch? && s.pc.ready != [] && ReadBetween(requests, s.clock, s.clock)
      && (s.pc.ready[0].WakeHandler? ==> requests == [] && 0 < s.counter)
    case HandlersDone => s.pc == Dispatch([])
    case FireRound(script, until) =>
      && s.pc.Timers? && s.clock <= until
      && forall i: nat :: s.clock <= script(i).resetAt <= until && ReadBetween(script(i).requests, s.clock, until)
    case SeeEmpty => s.pc.CheckEmpty?
    case Pop => s.pc.TryPop?
    case RunTask(requests) =>
      s.pc.Running? && Does(s.pc.task, requests) && ReadBetween(requests, s.clock, s.clock)
  }

  ghost function Apply(s: State, l: Label): State
    requires Enabled(s, l)
  {
    match l
    case Push(tid, task) =>
      s.(queue := s.queue + [task], midCall := s.midCall + {tid}, pushed := s.pushed + [task])
    case Signal(tid) => s.(midCall := s.midCall - {tid}, counter := s.counter + 1)
    case Tick(later) => s.(clock := later)
    case LoopTop => s.(pc := Waiting(EpollTimeout(NextExpired(s.timers.timers), s.clock), s.clock))
    case WaitReturns(ready, _) => s.(pc := Dispatch(ready))
    case Handle(requests) =>
      var rest := Dispatch(s.pc.ready[1..]);
      if s.pc.ready[0].WakeHandler? then s.(pc := rest, counter := 0)
      else s.(pc := rest, timers := RegisterAll(s.timers, requests))
    case HandlersDone => s.(pc := Timers)
    case FireRound(script, until) =>
      s.(pc := CheckEmpty, clock := until, timers := Round(s.timers, s.clock, script))
    case SeeEmpty => s.(pc := if s.queue == [] then Top else TryPop)
    case Pop =>
      if s.queue == [] then s.(pc := Top) else s.(pc := Running(s.queue[0]), queue := s.queue[1..])
    case RunTask(requests) =>
      s.(pc := CheckEmpty, timers := RegisterAll(s.timers, requests), done := s.done + [s.pc.task])
  }

  ghost predicate Init(s: State) {
    && s.queue == [] && s.counter == 0 && s.midCall == {} && s.pc.Top?
    && s.timers.timers == [] && s.pushed == [] && s.done == []
  }

  ghost predicate Possible(s: State, ls: seq<Label>)
    decreases |ls|
  {
    ls == [] || (Enabled(s, ls[0]) && Possible(Apply(s, ls[0]), ls[1..]))
  }

  ghost function After(s: State, ls: seq<Label>): State
    requires Possible(s, ls)
    decreases |ls|
  {
    if ls == [] then s else After(Apply(s, ls[0]), ls[1..])
  }

  // The invariant

  function InProgress(pc: Pc): seq<Task> {
    if pc.Running? then [pc.task] else []
  }

  /** The loop has not yet consumed the wake-ups that stand for the queued tasks. */
  predicate OwesDrain(pc: Pc) {
    pc.Top? || pc.Waiting? || (pc.Dispatch? && WakeHandler in pc.ready)
  }

  /** The tasks of one producer, in their order. */
  function By(tasks: seq<Task>, tid: nat): seq<Task> {
    if tasks == [] then [] else (if tasks[0].producer == tid then [tasks[0]] else []) + By(tasks[1..], tid)
  }

  lemma {:induction false} ByConcat(a: seq<Task>, b: seq<Task>, tid: nat)
    ensures By(a + b, tid) == By(a, tid) + By(b, tid)
  {
    if a == [] {
      assert a + b == b;
    } else {
      ByConcat(a[1..], b, tid);
      assert (a + b)[1..] == a[1..] + b;
      var first := if a[0].producer == tid then [a[0]] else [];
      assert By(a + b, tid) == first + (By(a[1..], tid) + By(b, tid));
    }
  }

  lemma {:induction false} ByFinds(tasks: seq<Task>, t: Task)
    requires t in tasks
    ensures By(tasks, t.producer) != []
  {
    if tasks[0] != t {
      ByFinds(tasks[1..], t);
    }
  }

  /** How many calls of `queueInLoopThread` a producer has under way. */
  function CallsUnderWay(s: State, tid: nat): nat {
    if tid in s.midCall then 1 else 0
  }

  /**
   * Some queued task belongs to a call that has returned: its producer has more
   * tasks queued than calls under way.
   */
  ghost predicate CompletedCallQueued(s: State) {
    exists tid :: CallsUnderWay(s, tid) < |By(s.queue, tid)|
  }

  ghost predicate Inv(s: State) {
    && s.done + InProgress(s.pc) + s.queue == s.pushed
    && (OwesDrain(s.pc) ==> |s.queue| <= s.counter + |s.midCall|)
    && (OwesDrain(s.pc) ==> s.counter == 0 ==> !CompletedCallQueued(s))
    && (s.pc.Dispatch? ==> ReadyPossible(s, s.pc.ready))
    && (s.pc.TryPop? ==> s.queue != [])
    && Wf(s.timers)
    && (s.pc.Waiting? ==> s.pc.readAt <= s.clock
                          && s.pc.timeout == EpollTimeout(NextExpired(s.timers.timers), s.pc.readAt))
  }

  lemma FirstHandlerOut(ready: seq<Handler>)
    requires ready != [] && multiset(ready)[WakeHandler] <= 1
    ensures multiset(ready[1..])[WakeHandler] <= 1
    ensures ready[0].WakeHandler? ==> WakeHandler !in ready[1..]
    ensures WakeHandler in ready[1..] ==> WakeHandler in ready
  {
    assert ready == [ready[0]] + ready[1..];
    assert WakeHandler in ready[1..] ==> WakeHandler in multiset(ready[1..]);
  }

  /** A push adds one task and one call under way, both the same producer's. */
  lemma PushCompletesNothing(s: State, tid: nat, task: Task)
    requires Enabled(s, Push(tid, task)) && !CompletedCallQueued(s)
    ensures !CompletedCallQueued(Apply(s, Push(tid, task)))
  {
    var s' := Apply(s, Push(tid, task));
    forall other ensures |By(s'.queue, other)| <= CallsUnderWay(s', other) {
      ByConcat(s.queue, [task], other);
      assert |By(s.queue, other)| <= CallsUnderWay(s, other);
    }
  }

  lemma EnvironmentKeepsInv(s: State, l: Label)
    requires Inv(s) && Enabled(s, l) && !IsLoopStep(l)
    ensures Inv(Apply(s, l))
  {
    match l {
      case Push(tid, task) =>
        assert s.done + InProgress(s.pc) + (s.queue + [task]) == s.pushed + [task];
        if OwesDrain(s.pc) && s.counter == 0 {
          PushCompletesNothing(s, tid, task);
        }
      case Signal(tid) =>
      case Tick(later) => SameCalls(s, Apply(s, l));
    }
  }

  lemma SameCalls(s: State, s': State)
    requires s.queue == s'.queue && s.midCall == s'.midCall
    ensures CompletedCallQueued(s) <==> CompletedCallQueued(s')
  {
    assert forall tid :: CallsUnderWay(s, tid) == CallsUnderWay(s', tid);
  }

  lemma HandleKeepsInv(s: State, requests: seq<Request>)
    requires Inv(s) && Enabled(s, Handle(requests))
    ensures Inv(Apply(s, Handle(requests)))
  {
    FirstHandlerOut(s.pc.ready);
    RegisterAllKeeps(s.timers, requests);
  }

  lemma DrainKeepsInv(s: State, l: Label)
    requires Inv(s) && Enabled(s, l) && (l.Pop? || l.RunTask?)
    ensures Inv(Apply(s, l))
  {
    if l.Pop? {
      assert s.queue == [s.queue[0]] + s.queue[1..];
    } else {
      RegisterAllKeeps(s.timers, l.requests);
    }
  }

  lemma LoopKeepsInv(s: State, l: Label)
    requires Inv(s) && Enabled(s, l) && IsLoopStep(l)
    ensures Inv(Apply(s, l))
  {
    match l {
      case Handle(requests) => HandleKeepsInv(s, requests);
      case FireRound(script, _) => RoundKeeps(s.timers, s.clock, script);
      case Pop => DrainKeepsInv(s, l);
      case RunTask(_) => DrainKeepsInv(s, l);
      case _ =>
    }
  }

  lemma {:induction false} InvOverRuns(s: State, ls: seq<Label>)
    requires Inv(s) && Possible(s, ls)
    ensures Inv(After(s, ls))
    decreases |ls|
  {
    if ls == [] {
    } else {
      if IsLoopStep(ls[0]) {
        LoopKeepsInv(s, ls[0]);
      } else {
        EnvironmentKeepsInv(s, ls[0]);
      }
      InvOverRuns(Apply(s, ls[0]), ls[1..]);
    }
  }

  // Hand-off

  /**
   * In every interleaving of any producers with the loop, when the loop is in
   * epoll_wait and some call of `queueInLoopThread` has returned with its task
   * still queued, the wait can return at once, whatever its timeout and however
   * many other producers are stalled between their push and their signal. Every
   * queued task is matched by a pending signal or by a producer about to signal.
   */
  lemma NoLostWakeUp(init: State, ls: seq<Label>)
    requires Init(init) && Possible(init, ls) && After(init, ls).pc.Waiting?
    ensures var s := After(init, ls);
            && |s.queue| <= s.counter + |s.midCall|
            && (CompletedCallQueued(s) ==> 0 < s.counter && Enabled(s, WaitReturns([WakeHandler], false)))
  {
    InvOverRuns(init, ls);
    if CompletedCallQueued(After(init, ls)) {
      WakeReported(After(init, ls));
    }
  }

  lemma WakeReported(s: State)
    requires Inv(s) && s.pc.Waiting? && CompletedCallQueued(s)
    ensures 0 < s.counter && Enabled(s, WaitReturns([WakeHandler], false))
  {
    assert multiset([WakeHandler])[WakeHandler] == 1;
  }

  /** In particular a queued task of a producer that is not calling wakes the loop. */
  lemma IdleProducersTaskWakes(init: State, ls: seq<Label>, t: Task)
    requires Init(init) && Possible(init, ls) && After(init, ls).pc.Waiting?
    requires t in After(init, ls).queue && t.producer !in After(init, ls).midCall
    ensures Enabled(After(init, ls), WaitReturns([WakeHandler], false))
  {
    var s := After(init, ls);
    ByFinds(s.queue, t);
    assert CallsUnderWay(s, t.producer) < |By(s.queue, t.producer)|;
    NoLostWakeUp(init, ls);
  }

  /** Tasks run so far, the one running and the queue are the global push order: none lost, none twice. */
  lemma ExactlyOnceInOrder(init: State, ls: seq<Label>)
    requires Init(init) && Possible(init, ls)
    ensures var s := After(init, ls);
            s.done + InProgress(s.pc) + s.queue == s.pushed
    ensures After(init, ls).pushed == PushesIn(ls)
  {
    InvOverRuns(init, ls);
    PushedIsHistory(init, ls);
    assert [] + PushesIn(ls) == PushesIn(ls);
  }

  function PushedBy(l: Label): seq<Task> {
    if l.Push? then [l.task] else []
  }

  function PushesIn(ls: seq<Label>): seq<Task> {
    if ls == [] then [] else PushedBy(ls[0]) + PushesIn(ls[1..])
  }

  lemma StepPushes(s: State, l: Label)
    requires Enabled(s, l)
    ensures Apply(s, l).pushed == s.pushed + PushedBy(l)
  {
  }

  lemma {:induction false} PushedIsHistory(s: State, ls: seq<Label>)
    requires Possible(s, ls)
    ensures After(s, ls).pushed == s.pushed + PushesIn(ls)
    decreases |ls|
  {
    if ls == [] {
    } else {
      StepPushes(s, ls[0]);
      PushedIsHistory(Apply(s, ls[0]), ls[1..]);
      Associative(s.pushed, PushedBy(ls[0]), PushesIn(ls[1..]));
    }
  }

  /** Each producer's tasks are run in the order that producer pushed them. */
  lemma PerProducerOrder(init: State, ls: seq<Label>, tid: nat)
    requires Init(init) && Possible(init, ls)
    ensures By(After(init, ls).done, tid) <= By(PushesIn(ls), tid)
  {
    var s := After(init, ls);
    ExactlyOnceInOrder(init, ls);
    assert s.pushed == s.done + (InProgress(s.pc) + s.queue);
    ByConcat(s.done, InProgress(s.pc) + s.queue, tid);
  }

  /**
   * A completed call of `queueInLoopThread` from a producer is its two steps: the
   * task joins the end of the queue and one wake-up is added.
   */
  lemma QueueingIsTwoSteps(s: State, tid: nat, task: Task)
    requires tid != LOOP_THREAD && tid !in s.midCall && task.producer == tid
    ensures Possible(s, [Push(tid, task), Signal(tid)])
    ensures After(s, [Push(tid, task), Signal(tid)])
         == s.(queue := s.queue + [task], counter := s.counter + 1, pushed := s.pushed + [task])
  {
    var push, signal := Push(tid, task), Signal(tid);
    var mid := Apply(s, push);
    var end := Apply(mid, signal);
    assert end.midCall == s.midCall;
    OneStep(mid, signal);
    assert [push, signal][0] == push && [push, signal][1..] == [signal];
  }

  lemma OneStep(s: State, l: Label)
    requires Enabled(s, l)
    ensures Possible(s, [l]) && After(s, [l]) == Apply(s, l)
  {
    assert [l][0] == l && [l][1..] == [];
  }

  lemma OneMoreStep(s: State, ls: seq<Label>, l: Label)
    requires Possible(s, ls) && Enabled(After(s, ls), l)
    ensures Possible(s, ls + [l]) && After(s, ls + [l]) == Apply(After(s, ls), l)
  {
    OneStep(After(s, ls), l);
    AfterConcat(s, ls, [l]);
  }

  /** The eventfd read never has to retry, and `try_pop` never comes back empty-handed. */
  lemma NeverSpins(init: State, ls: seq<Label>)
    requires Init(init) && Possible(init, ls)
    ensures var s := After(init, ls);
            && (s.pc.Dispatch? && s.pc.ready != [] && s.pc.ready[0].WakeHandler? ==>
                  0 < s.counter && Enabled(s, Handle([])))
            && (s.pc.TryPop? ==> s.queue != [] && Apply(s, Pop).pc == Running(s.queue[0]))
  {
    InvOverRuns(init, ls);
    SomethingThere(After(init, ls));
  }

  lemma SomethingThere(s: State)
    requires Inv(s)
    ensures s.pc.Dispatch? && s.pc.ready != [] && s.pc.ready[0].WakeHandler? ==>
              0 < s.counter && Enabled(s, Handle([]))
    ensures s.pc.TryPop? ==> s.queue != [] && Apply(s, Pop).pc == Running(s.queue[0])
  {
  }

  // Sleeping

  /**
   * While the loop waits, its timeout was computed from the very timers pending
   * now. So the wait has run out at every reading past the earliest deadline
   * exactly when that deadline was one the timeout could express.
   */
  lemma DueTimerEndsWait(init: State, ls: seq<Label>)
    requires Init(init) && Possible(init, ls)
    requires After(init, ls).pc.Waiting? && After(init, ls).timers.timers != []
    ensures var s := After(init, ls);
            var due := NextExpired(s.timers.timers);
            && (forall t :: t in s.timers.timers ==> due <= t.exp)
            && ((forall later :: s.pc.readAt <= later && due <= later ==>
                   Enabled(s.(clock := later), WaitReturns([], false)))
                <==> due != EPOCH && Expressible(due, s.pc.readAt))
  {
    var s := After(init, ls);
    var due := NextExpired(s.timers.timers);
    InvOverRuns(init, ls);
    NextIsEarliest(s.timers.timers);
    EndsInTimeExact(due, s.pc.readAt);
    var last := if s.pc.readAt <= due then due else s.pc.readAt;
    if EndsInTime(due, s.pc.readAt, s.pc.timeout) {
      forall later | s.pc.readAt <= later && due <= later
        ensures Enabled(s.(clock := later), WaitReturns([], false))
      {
        assert TimedOut(s.(clock := later));
      }
    } else {
      assert !TimedOut(s.(clock := last));
      assert !Enabled(s.(clock := last), WaitReturns([], false));
    }
  }

  /**
   * And never much too early: with no event and no interruption the wait lasts to
   * within a millisecond of the earliest deadline if that was in range, and with
   * no timer pending it does not end.
   */
  lemma WaitNotCutShort(init: State, ls: seq<Label>, later: int)
    requires Init(init) && Possible(init, ls) && After(init, ls).pc.Waiting?
    requires Enabled(After(init, ls).(clock := later), WaitReturns([], false))
    ensures var s := After(init, ls);
            var due := NextExpired(s.timers.timers);
            && s.timers.timers != []
            && (due != EPOCH && InRange(due, s.pc.readAt) ==> due < later + TICKS_PER_MS)
  {
    var s := After(init, ls);
    InvOverRuns(init, ls);
    TimeoutExact(NextExpired(s.timers.timers), s.pc.readAt);
    NarrowCases(-1);
  }

  /** A task that registers a timer already overdue leaves the code as written waiting with no time limit. */
  lemma OverdueTimerMissed() returns (init: State, ls: seq<Label>)
    ensures Init(init) && Possible(init, ls)
    ensures var s := After(init, ls);
            && s.pc.Waiting? && s.pc.timeout < 0 && s.queue == [] && s.midCall == {} && s.counter == 0
            && s.timers.timers != [] && 0 < NextExpired(s.timers.timers) < s.clock
    ensures forall later :: After(init, ls).clock <= later ==> !TimedOut(After(init, ls).(clock := later))
  {
    var task := Task(1, UserCode(0));
    init := State([], 0, {}, Top, Queue([], 0), 1_000_000_000, [], []);
    ls := FirstTaskWakes(init, task);
    var s := After(init, ls);
    var late := FirstTaskRegisters(s, task);
    AfterConcat(init, ls, late);
    ls := ls + late;
    OneMoreStep(init, ls, SeeEmpty);
    ls := ls + [SeeEmpty];
    OneMoreStep(init, ls, LoopTop);
    ls := ls + [LoopTop];
    OverdueBlocks(1, 1_000_000_000);
  }

  lemma {:induction false} AfterConcat(s: State, a: seq<Label>, b: seq<Label>)
    requires Possible(s, a) && Possible(After(s, a), b)
    ensures Possible(s, a + b) && After(s, a + b) == After(After(s, a), b)
    decreases |a|
  {
    if a == [] {
      assert a + b == b;
    } else {
      AfterConcat(Apply(s, a[0]), a[1..], b);
      assert (a + b)[1..] == a[1..] + b;
    }
  }

  /** From the start to the drain that finds the first task. */
  lemma FirstTaskWakes(init: State, task: Task) returns (ls: seq<Label>)
    requires init == State([], 0, {}, Top, Queue([], 0), 1_000_000_000, [], []) && task.producer == 1
    ensures Possible(init, ls)
    ensures After(init, ls) == State([task], 0, {}, CheckEmpty, Queue([], 0), 1_000_000_000, [task], [])
  {
    var script: Script := _ => Firing([], 1_000_000_000);
    assert multiset([WakeHandler])[WakeHandler] == 1;
    QueueingIsTwoSteps(init, 1, task);
    ls := [Push(1, task), Signal(1)];
    OneMoreStep(init, ls, LoopTop);
    ls := ls + [LoopTop];
    OneMoreStep(init, ls, WaitReturns([WakeHandler], false));
    ls := ls + [WaitReturns([WakeHandler], false)];
    OneMoreStep(init, ls, Handle([]));
    ls := ls + [Handle([])];
    OneMoreStep(init, ls, HandlersDone);
    ls := ls + [HandlersDone];
    EmptyRound(1_000_000_000, script);
    OneMoreStep(init, ls, FireRound(script, 1_000_000_000));
    ls := ls + [FireRound(script, 1_000_000_000)];
  }

  /** That task is run and registers a timer already overdue. */
  lemma FirstTaskRegisters(s: State, task: Task) returns (ls: seq<Label>)
    requires s == State([task], 0, {}, CheckEmpty, Queue([], 0), 1_000_000_000, [task], []) && task.work.UserCode?
    ensures Possible(s, ls)
    ensures After(s, ls)
         == State([], 0, {}, CheckEmpty, Queue([Timer(0, 1, None, false)], 1), 1_000_000_000, [task], [task])
  {
    OneStep(s, SeeEmpty);
    ls := [SeeEmpty];
    OneMoreStep(s, ls, Pop);
    ls := ls + [Pop];
    RegisterInEmpty();
    OneMoreStep(s, ls, RunTask([RunUntil(0, 1)]));
    ls := ls + [RunTask([RunUntil(0, 1)])];
  }

  lemma EmptyRound(now: int, script: Script)
    ensures Round(Queue([], 0), now, script) == Queue([], 0)
  {
  }

  lemma RegisterInEmpty()
    ensures RegisterAll(Queue([], 0), [RunUntil(0, 1)]) == Queue([Timer(0, 1, None, false)], 1)
  {
    assert Register(Queue([], 0), RunUntil(0, 1)) == Queue([Timer(0, 1, None, false)], 1);
  }
}
