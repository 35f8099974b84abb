/**
 * Progress of the loop, and its timers seen as one run of the timer queue.
 */
module ReactorProgress {
  import opened Wrappers
  import opened TimerSpec
  import opened TimerRuns
  import opened Reactor

  // The eventfd

  function SignalsIn(ls: seq<Label>): nat {
    if ls == [] then 0 else (if ls[0].Signal? then 1 else 0) + SignalsIn(ls[1..])
  }

  lemma {:induction false} CounterBound(s: State, ls: seq<Label>)
    requires Possible(s, ls)
    ensures After(s, ls).counter <= s.counter + SignalsIn(ls)
    decreases |ls|
  {
    if ls == [] {
    } else {
      CounterBound(Apply(s, ls[0]), ls[1..]);
    }
  }

  /**
   * One read takes every signal there is: once the wake handler has run, at most
   * the signals given since are left, and until there is one the eventfd is not
   * reported again, by whatever run of the loop and its producers.
   */
  lemma ReadTakesAll(s: State, requests: seq<Request>, ls: seq<Label>)
    requires Enabled(s, Handle(requests)) && s.pc.ready[0].WakeHandler?
    requires Possible(Apply(s, Handle(requests)), ls)
    ensures After(Apply(s, Handle(requests)), ls).counter <= SignalsIn(ls)
    ensures SignalsIn(ls) == 0 ==>
              forall ready :: WakeHandler in ready ==> !ReadyPossible(After(Apply(s, Handle(requests)), ls), ready)
  {
    CounterBound(Apply(s, Handle(requests)), ls);
  }

  /** Whether a run reads the eventfd anywhere. */
  ghost predicate ReadsWake(s: State, ls: seq<Label>)
    requires Possible(s, ls)
    decreases |ls|
  {
    ls != [] && ((ls[0].Handle? && s.pc.ready[0].WakeHandler?) || ReadsWake(Apply(s, ls[0]), ls[1..]))
  }

  /** And no signal is lost but by a read. */
  lemma {:induction false} SignalsAddUp(s: State, ls: seq<Label>)
    requires Possible(s, ls) && !ReadsWake(s, ls)
    ensures After(s, ls).counter == s.counter + SignalsIn(ls)
    decreases |ls|
  {
    if ls == [] {
    } else {
      SignalsAddUp(Apply(s, ls[0]), ls[1..]);
    }
  }

  // The order of one pass of the loop

  function RoundsIn(ls: seq<Label>): nat {
    if ls == [] then 0 else (if ls[0].FireRound? then 1 else 0) + RoundsIn(ls[1..])
  }

  /** A wait has returned and its firing round is still to come. */
  predicate OwesRound(pc: Pc) {
    pc.Dispatch? || pc.Timers?
  }

  /** After every wait there is one firing round, behind its handlers and ahead of all tasks. */
  lemma {:induction false} OneRoundPerWait(s: State, ls: seq<Label>)
    requires Possible(s, ls)
    ensures Waits(ls) + (if OwesRound(s.pc) then 1 else 0)
         == RoundsIn(ls) + if OwesRound(After(s, ls).pc) then 1 else 0
    decreases |ls|
  {
    if ls == [] {
    } else {
      OneRoundPerWait(Apply(s, ls[0]), ls[1..]);
    }
  }

  // Bounds on the number of loop steps

  function LoopSteps(ls: seq<Label>): nat {
    if ls == [] then 0 else (if IsLoopStep(ls[0]) then 1 else 0) + LoopSteps(ls[1..])
  }

  /** What one step may add to the work ahead of the loop: three steps a task, one a reported handler. */
  function WorkFrom(l: Label): nat {
    match l
    case Push(_, _) => 3
    case WaitReturns(ready, _) => |ready|
    case _ => 0
  }

  function WorkIn(ls: seq<Label>): nat {
    if ls == [] then 0 else WorkFrom(ls[0]) + WorkIn(ls[1..])
  }

  /** No state of the run, the last one included, has an empty queue. */
  ghost predicate StaysBusy(s: State, ls: seq<Label>)
    requires Possible(s, ls)
    decreases |ls|
  {
    s.queue != [] && (ls == [] || StaysBusy(Apply(s, ls[0]), ls[1..]))
  }

  /** Loop steps left, at most, before the present queue has been drained. */
  function ToDrain(s: State): nat {
    var n := 3 * |s.queue|;
    match s.pc
    case Top => n + 4
    case Waiting(_, _) => n + 3
    case Dispatch(ready) => n + 2 + |ready|
    case Timers => n + 1
    case CheckEmpty => n
    case TryPop => if n == 0 then 0 else n - 1
    case Running(_) => n + 1
  }

  lemma StepTowardsDrain(s: State, l: Label)
    requires Enabled(s, l) && s.queue != [] && Apply(s, l).queue != []
    ensures ToDrain(Apply(s, l)) + (if IsLoopStep(l) then 1 else 0) <= ToDrain(s) + WorkFrom(l)
  {
  }

  /**
   * However the loop is scheduled against the producers, it cannot go on for
   * more steps than this with tasks still waiting: once pushes stop, the queue
   * is emptied, and a drain ends for any finite number of concurrent pushes.
   */
  lemma {:induction false} DrainBound(s: State, ls: seq<Label>)
    requires Possible(s, ls) && StaysBusy(s, ls)
    ensures LoopSteps(ls) + ToDrain(After(s, ls)) <= ToDrain(s) + WorkIn(ls)
    decreases |ls|
  {
    if ls == [] {
    } else {
      StepTowardsDrain(s, ls[0]);
      DrainBound(Apply(s, ls[0]), ls[1..]);
    }
  }

  function Waits(ls: seq<Label>): nat {
    if ls == [] then 0 else (if ls[0].WaitReturns? then 1 else 0) + Waits(ls[1..])
  }

  /** While tasks are waiting the loop returns from epoll_wait at most once. */
  lemma {:induction false} DrainNeedsOneWait(s: State, ls: seq<Label>)
    requires Possible(s, ls) && StaysBusy(s, ls)
    ensures Waits(ls) <= if s.pc.Top? || s.pc.Waiting? then 1 else 0
    decreases |ls|
  {
    if ls == [] {
    } else {
      DrainNeedsOneWait(Apply(s, ls[0]), ls[1..]);
    }
  }

  /** The loop step to take next; only in epoll_wait does it depend on anyone else. */
  function NextLoopStep(s: State): Label {
    match s.pc
    case Top => LoopTop
    case Waiting(_, _) => WaitReturns([WakeHandler], false)
    case Dispatch(ready) => if ready == [] then HandlersDone else Handle([])
    case Timers => FireRound(_ => Firing([], s.clock), s.clock)
    case CheckEmpty => SeeEmpty
    case TryPop => Pop
    case Running(task) => RunTask(if task.work.TimerCall? then [At(task.work.req, s.clock)] else [])
  }

  /**
   * The loop is never stuck: outside epoll_wait, or with the task of a returned
   * call queued, it can step by itself, whatever other producers do. Otherwise
   * every queued task's producer is about to signal.
   */
  lemma NeverStuck(init: State, ls: seq<Label>)
    requires Init(init) && Possible(init, ls)
    ensures var s := After(init, ls);
            && (!s.pc.Waiting? || CompletedCallQueued(s) ==> IsLoopStep(NextLoopStep(s)) && Enabled(s, NextLoopStep(s)))
            && (s.pc.Waiting? && !CompletedCallQueued(s) ==>
                  forall t :: t in s.queue ==> Enabled(s, Signal(t.producer)))
  {
    var s := After(init, ls);
    InvOverRuns(init, ls);
    if !s.pc.Waiting? || CompletedCallQueued(s) {
      LoopCanStep(s);
    } else {
      ProducersCanSignal(s);
    }
  }

  lemma LoopCanStep(s: State)
    requires Inv(s) && (!s.pc.Waiting? || CompletedCallQueued(s))
    ensures IsLoopStep(NextLoopStep(s)) && Enabled(s, NextLoopStep(s))
  {
    if s.pc.Waiting? {
      WakeReported(s);
    }
  }

  lemma ProducersCanSignal(s: State)
    requires !CompletedCallQueued(s)
    ensures forall t :: t in s.queue ==> Enabled(s, Signal(t.producer))
  {
    forall t | t in s.queue ensures t.producer in s.midCall {
      ByFinds(s.queue, t);
      assert |By(s.queue, t.producer)| <= CallsUnderWay(s, t.producer);
    }
  }

  // One task

  /** Loop steps left, at most, before the `n`-th pushed task has been run. */
  function ToRun(s: State, n: nat): nat
    requires |s.done| <= n
  {
    var k := 3 * (n + 1 - |s.done|);
    match s.pc
    case Top => k + 4
    case Waiting(_, _) => k + 3
    case Dispatch(ready) => k + 2 + |ready|
    case Timers => k + 1
    case CheckEmpty => k
    case TryPop => k - 1
    case Running(_) => k - 2
  }

  /** Handlers reported by the waits of a run. */
  function Reported(ls: seq<Label>): nat {
    if ls == [] then 0 else (if ls[0].WaitReturns? then |ls[0].ready| else 0) + Reported(ls[1..])
  }

  lemma StepKeepsInv(s: State, l: Label)
    requires Inv(s) && Enabled(s, l)
    ensures Inv(Apply(s, l))
  {
    if IsLoopStep(l) {
      LoopKeepsInv(s, l);
    } else {
      EnvironmentKeepsInv(s, l);
    }
  }

  lemma StepTowardsTask(s: State, l: Label, n: nat)
    requires Inv(s) && Enabled(s, l) && |s.done| <= n < |s.pushed|
    ensures |Apply(s, l).done| <= n ==>
              ToRun(Apply(s, l), n) + (if IsLoopStep(l) then 1 else 0)
              <= ToRun(s, n) + if l.WaitReturns? then |l.ready| else 0
    ensures |s.done| <= |Apply(s, l).done| && |s.pushed| <= |Apply(s, l).pushed|
  {
    assert |s.done| + |InProgress(s.pc)| + |s.queue| == |s.pushed|;
  }

  /**
   * Every task gets its turn however fast other tasks are pushed behind it: until
   * the `n`-th pushed task has been run the loop takes at most so many steps,
   * with no term for pushes in it.
   */
  lemma {:induction false} TaskRunBound(s: State, ls: seq<Label>, n: nat)
    requires Inv(s) && Possible(s, ls) && |s.done| <= n < |s.pushed|
    ensures |After(s, ls).done| <= n ==> LoopSteps(ls) + ToRun(After(s, ls), n) <= ToRun(s, n) + Reported(ls)
    decreases |ls|
  {
    if ls == [] {
    } else {
      var s' := Apply(s, ls[0]);
      StepKeepsInv(s, ls[0]);
      StepTowardsTask(s, ls[0], n);
      if |s'.done| <= n {
        TaskRunBound(s', ls[1..], n);
      } else {
        DoneGrows(s', ls[1..]);
      }
    }
  }

  lemma {:induction false} DoneGrows(s: State, ls: seq<Label>)
    requires Possible(s, ls)
    ensures |s.done| <= |After(s, ls).done|
    decreases |ls|
  {
    if ls == [] {
    } else {
      DoneGrows(Apply(s, ls[0]), ls[1..]);
    }
  }

  /** So a loop that has taken more steps than that has run it, as the `n`-th of all. */
  lemma TaskIsRun(init: State, before: seq<Label>, ls: seq<Label>, n: nat)
    requires Init(init) && Possible(init, before) && Possible(After(init, before), ls)
    requires |After(init, before).done| <= n < |After(init, before).pushed|
    requires ToRun(After(init, before), n) + Reported(ls) < LoopSteps(ls)
    ensures n < |After(After(init, before), ls).done|
    ensures After(After(init, before), ls).done[n] == After(init, before).pushed[n]
  {
    var s := After(init, before);
    InvOverRuns(init, before);
    TaskRunBound(s, ls, n);
    InvOverRuns(s, ls);
    PushedIsHistory(s, ls);
    NthIsRun(After(s, ls), s.pushed, PushesIn(ls), n);
  }

  lemma NthIsRun(e: State, before: seq<Task>, more: seq<Task>, n: nat)
    requires e.done + InProgress(e.pc) + e.queue == e.pushed == before + more
    requires n < |e.done| && n < |before|
    ensures e.done[n] == before[n]
  {
    assert e.pushed[n] == (e.done + InProgress(e.pc))[n];
  }

  ghost predicate NoRound(ls: seq<Label>) {
    forall l :: l in ls ==> !l.FireRound?
  }

  /** Loop steps left, at most, before the next firing round. */
  function ToRound(s: State): nat {
    var n := 3 * |s.queue|;
    match s.pc
    case Timers => 0
    case Dispatch(ready) => 1 + |ready|
    case Waiting(_, _) => 2
    case Top => 3
    case CheckEmpty => n + 4
    case TryPop => n + 3
    case Running(_) => n + 5
  }

  lemma StepTowardsRound(s: State, l: Label)
    requires Enabled(s, l) && !l.FireRound? && (s.pc.TryPop? ==> s.queue != [])
    ensures ToRound(Apply(s, l)) + (if IsLoopStep(l) then 1 else 0) <= ToRound(s) + WorkFrom(l)
  {
  }

  /**
   * Between two firing rounds the loop takes at most this many steps: three for
   * each task pushed meanwhile and, beyond those, no more than the state it is in
   * allows. So only pushes without end can keep it from its timers, and
   * `PushesStarveTimers` says that they do.
   */
  lemma {:induction false} RoundBound(s: State, ls: seq<Label>)
    requires Inv(s) && Possible(s, ls) && NoRound(ls)
    ensures LoopSteps(ls) + ToRound(After(s, ls)) <= ToRound(s) + WorkIn(ls)
    decreases |ls|
  {
    if ls == [] {
    } else {
      assert ls[0] in ls;
      assert forall l :: l in ls[1..] ==> l in ls;
      StepTowardsRound(s, ls[0]);
      StepKeepsInv(s, ls[0]);
      RoundBound(Apply(s, ls[0]), ls[1..]);
    }
  }

  /** A drain with one task left, and its producer ready for another call. */
  ghost predicate OneTaskLeft(s: State) {
    && s.pc.CheckEmpty? && |s.queue| == 1 && s.queue[0].work.UserCode?
    && s.queue[0].producer != LOOP_THREAD && s.queue[0].producer !in s.midCall
  }

  /** While the loop runs a task its producer pushes the same one again. */
  function PushAgain(task: Task): seq<Label> {
    [SeeEmpty, Pop, Push(task.producer, task), Signal(task.producer), RunTask([])]
  }

  lemma PushedAgain(s: State)
    requires OneTaskLeft(s)
    ensures Possible(s, PushAgain(s.queue[0]))
    ensures var t := s.queue[0];
            After(s, PushAgain(t))
            == s.(counter := s.counter + 1, pushed := s.pushed + [t], done := s.done + [t])
  {
    var t := s.queue[0];
    var call := [Push(t.producer, t), Signal(t.producer)];
    assert s.queue == [t];
    OneStep(s, SeeEmpty);
    OneMoreStep(s, [SeeEmpty], Pop);
    var ls := [SeeEmpty] + [Pop];
    assert After(s, ls) == s.(pc := Running(t), queue := []);
    QueueingIsTwoSteps(After(s, ls), t.producer, t);
    AfterConcat(s, ls, call);
    ls := ls + call;
    OneMoreStep(s, ls, RunTask([]));
    assert ls + [RunTask([])] == PushAgain(t);
  }

  lemma PushAgainCounts(task: Task)
    ensures LoopSteps(PushAgain(task)) == 3 && NoRound(PushAgain(task))
  {
    var ls := PushAgain(task);
    assert ls[1..][1..] == ls[2..] && ls[2..][1..] == ls[3..] && ls[3..][1..] == ls[4..] && ls[4..][1..] == [];
    assert LoopSteps(ls[4..]) == 1;
    assert LoopSteps(ls[3..]) == 1;
    assert LoopSteps(ls[2..]) == 1;
    assert LoopSteps(ls[1..]) == 2;
  }

  lemma {:induction false} LoopStepsConcat(a: seq<Label>, b: seq<Label>)
    ensures LoopSteps(a + b) == LoopSteps(a) + LoopSteps(b)
  {
    if a == [] {
      assert a + b == b;
    } else {
      LoopStepsConcat(a[1..], b);
      assert (a + b)[0] == a[0] && (a + b)[1..] == a[1..] + b;
    }
  }

  /**
   * One producer that pushes while each task runs keeps the loop from its timers
   * for ever: for any number of steps and however late it gets there is a run of
   * that length without a firing round.
   */
  lemma {:induction false} PushesStarveTimers(s: State, n: nat, later: int) returns (ls: seq<Label>)
    requires OneTaskLeft(s) && s.clock <= later
    ensures Possible(s, ls) && NoRound(ls) && LoopSteps(ls) == 3 * n
    ensures After(s, ls).timers == s.timers && After(s, ls).clock == later && OneTaskLeft(After(s, ls))
    decreases n
  {
    if n == 0 {
      ls := [Tick(later)];
      OneStep(s, Tick(later));
      assert LoopSteps(ls[1..]) == 0;
    } else {
      var again := PushAgain(s.queue[0]);
      PushedAgain(s);
      var s' := After(s, again);
      var rest := PushesStarveTimers(s', n - 1, later);
      ls := again + rest;
      AfterConcat(s, again, rest);
      LoopStepsConcat(again, rest);
      PushAgainCounts(s.queue[0]);
    }
  }

  /** Such a run starts in a state the loop can reach, with a timer overdue in it. */
  lemma OverdueTimerStarves(n: nat) returns (init: State, before: seq<Label>, ls: seq<Label>)
    ensures Init(init) && Possible(init, before) && Possible(After(init, before), ls)
    ensures var s := After(init, before);
            && s.timers.timers != [] && s.timers.timers[0].exp < s.clock
            && NoRound(ls) && LoopSteps(ls) == 3 * n && After(s, ls).timers == s.timers
  {
    var task := Task(1, UserCode(0));
    init := State([], 0, {}, Top, Queue([], 0), 1_000_000_000, [], []);
    before := FirstTaskWakes(init, task);
    var more := FirstTaskRegisters(After(init, before), task);
    AfterConcat(init, before, more);
    before := before + more;
    var call := [Push(1, task), Signal(1)];
    QueueingIsTwoSteps(After(init, before), 1, task);
    AfterConcat(init, before, call);
    before := before + call;
    ls := PushesStarveTimers(After(init, before), n, 1_000_000_000);
  }

  // The loop's timers are a run of the timer queue

  function Adds(requests: seq<Request>): seq<Event> {
    if requests == [] then [] else [Add(requests[0])] + Adds(requests[1..])
  }

  function EventsOf(s: State, l: Label): seq<Event> {
    match l
    case Handle(requests) => Adds(requests)
    case RunTask(requests) => Adds(requests)
    case FireRound(script, _) => [Fire(s.clock, script)]
    case _ => []
  }

  ghost function EventsIn(s: State, ls: seq<Label>): seq<Event>
    requires Possible(s, ls)
    decreases |ls|
  {
    if ls == [] then [] else EventsOf(s, ls[0]) + EventsIn(Apply(s, ls[0]), ls[1..])
  }

  lemma {:induction false} RunConcat(q: Queue, a: seq<Event>, b: seq<Event>)
    ensures Run(q, a + b) == Run(Run(q, a), b)
    decreases |a|
  {
    if a == [] {
      assert a + b == b;
    } else {
      assert (a + b)[0] == a[0] && (a + b)[1..] == a[1..] + b;
      var q' := RunFirst(q, a, a + b);
      RunConcat(q', a[1..], b);
    }
  }

  lemma RunFirst(q: Queue, es: seq<Event>, es': seq<Event>) returns (q': Queue)
    requires es != [] && es' != [] && es[0] == es'[0]
    ensures Run(q, es) == Run(q', es[1..]) && Run(q, es') == Run(q', es'[1..])
  {
    q' := Step(q, es[0]);
  }

  lemma {:induction false} RunAdds(q: Queue, requests: seq<Request>)
    ensures Run(q, Adds(requests)) == RegisterAll(q, requests)
    ensures forall e :: e in Adds(requests) ==> e.Add?
    decreases |requests|
  {
    if requests == [] {
    } else {
      RunAdds(Register(q, requests[0]), requests[1..]);
      assert Adds(requests)[1..] == Adds(requests[1..]);
    }
  }

  lemma StepIsRun(s: State, l: Label)
    requires Enabled(s, l)
    ensures Apply(s, l).timers == Run(s.timers, EventsOf(s, l))
    ensures ClockNonDecreasing(EventsOf(s, l))
  {
    match l {
      case Handle(requests) => RunAdds(s.timers, requests);
      case RunTask(requests) => RunAdds(s.timers, requests);
      case FireRound(script, _) =>
        var e: Event := Fire(s.clock, script);
        assert [e][1..] == [];
        assert Run(s.timers, [e]) == Step(s.timers, e);
      case _ =>
    }
  }

  /**
   * In any interleaving the timer queue goes through a run of registrations and
   * rounds, with clock readings that never go back within a round.
   */
  lemma {:induction false} TimersAreARun(s: State, ls: seq<Label>)
    requires Possible(s, ls)
    ensures After(s, ls).timers == Run(s.timers, EventsIn(s, ls))
    ensures ClockNonDecreasing(EventsIn(s, ls))
    decreases |ls|
  {
    if ls == [] {
    } else {
      var s' := Apply(s, ls[0]);
      StepIsRun(s, ls[0]);
      TimersAreARun(s', ls[1..]);
      RunConcat(s.timers, EventsOf(s, ls[0]), EventsIn(s', ls[1..]));
    }
  }

  /** So every one-shot timer pending in the loop fires exactly once, in the first round that reaches its deadline. */
  lemma OneShotInLoop(s: State, ls: seq<Label>, t: Timer)
    requires Inv(s) && Possible(s, ls) && t in s.timers.timers && t.interval.None?
    ensures Firings(s.timers, EventsIn(s, ls), t.id, 0)
         == match FirstReaching(EventsIn(s, ls), t.exp, 0) case None => [] case Some(m) => [m]
    ensures HasId(After(s, ls).timers.timers, t.id) <==> FirstReaching(EventsIn(s, ls), t.exp, 0).None?
  {
    TimersAreARun(s, ls);
    OneShotExact(s.timers, EventsIn(s, ls), t, 0);
  }

  /** And every repeating timer the loop ever holds keeps its rate from then on and is never lost. */
  lemma RepeatingInLoop(init: State, before: seq<Label>, ls: seq<Label>, t: Timer)
    requires Init(init) && Possible(init, before) && Possible(After(init, before), ls)
    requires t in After(init, before).timers.timers && t.interval.Some?
    ensures var s := After(init, before);
            && Spaced(Firings(s.timers, EventsIn(s, ls), t.id, 0), t.exp, Period(t))
            && HasId(After(s, ls).timers.timers, t.id)
  {
    var s := After(init, before);
    InvOverRuns(init, before);
    TimersAreARun(init, before);
    RunCancelsNone(init.timers, EventsIn(init, before));
    TimersAreARun(s, ls);
    RepeatRate(s.timers, EventsIn(s, ls), t, 0);
    RepeatingStays(s.timers, EventsIn(s, ls), t, 0);
  }

  lemma StepTime(s: State, l: Label)
    requires Enabled(s, l)
    ensures s.clock <= Apply(s, l).clock
    ensures forall e :: e in EventsOf(s, l) && e.Fire? ==>
              e.now <= Apply(s, l).clock && forall i: nat :: e.script(i).resetAt <= Apply(s, l).clock
  {
    match l {
      case Handle(requests) => RunAdds(s.timers, requests);
      case RunTask(requests) => RunAdds(s.timers, requests);
      case _ =>
    }
  }

  /** No clock reading of a round is later than the end of the run. */
  lemma {:induction false} RoundsBeforeEnd(s: State, ls: seq<Label>)
    requires Possible(s, ls)
    ensures s.clock <= After(s, ls).clock
    ensures forall e :: e in EventsIn(s, ls) && e.Fire? ==>
              e.now <= After(s, ls).clock && forall i: nat :: e.script(i).resetAt <= After(s, ls).clock
    decreases |ls|
  {
    if ls == [] {
    } else {
      StepTime(s, ls[0]);
      RoundsBeforeEnd(Apply(s, ls[0]), ls[1..]);
    }
  }

  /**
   * A task or a handler may register any timers, reading the clock as it runs;
   * each is queued, live, due when the call said or that long after the reading.
   */
  lemma UserCodeRegisters(s: State, l: Label, requests: seq<Request>, i: nat) returns (t: Timer)
    requires i < |requests| && ReadBetween(requests, s.clock, s.clock)
    requires || (l == RunTask(requests) && s.pc.Running? && Does(s.pc.task, requests))
             || (l == Handle(requests) && s.pc.Dispatch? && s.pc.ready != [] && s.pc.ready[0].OtherHandler?)
    ensures Enabled(s, l) && t in Apply(s, l).timers.timers && !t.canceled
    ensures requests[i].RunUntil? ==> t.interval.None? && t.exp == requests[i].exp
    ensures requests[i].RunAfter? ==> t.interval.None? && t.exp == s.clock + requests[i].ms * TICKS_PER_MS
    ensures requests[i].RunEvery? ==>
              t.interval == Some(requests[i].period) && t.exp == s.clock + requests[i].period * TICKS_PER_MS
  {
    t := RequestIsQueued(s.timers, requests, i);
    assert requests[i] in requests;
  }

  /**
   * A round is possible with any callbacks and readings, and a wait may report any
   * handlers, the wake handler once and only if there is something to read.
   */
  lemma AnythingMayHappen(s: State, script: Script, until: int, ready: seq<Handler>, interrupted: bool)
    ensures && s.pc.Timers? && s.clock <= until
            && (forall i: nat :: s.clock <= script(i).resetAt <= until)
            && (forall i: nat :: ReadBetween(script(i).requests, s.clock, until))
            ==> Enabled(s, FireRound(script, until))
    ensures s.pc.Waiting? && ready != [] && WakeHandler !in ready ==> Enabled(s, WaitReturns(ready, interrupted))
    ensures s.pc.Waiting? && ready != [] && 0 < s.counter && multiset(ready)[WakeHandler] == 1
            ==> Enabled(s, WaitReturns(ready, interrupted))
  {
    assert WakeHandler in ready <==> 0 < multiset(ready)[WakeHandler];
  }

  /**
   * A `runUntil`, `runAfter` or `runEvery` called on another thread: when its task
   * is run the timer is queued as if the call were made then.
   */
  lemma TimerCallRegisters(s: State, requests: seq<Request>) returns (t: Timer)
    requires Enabled(s, RunTask(requests)) && s.pc.task.work.TimerCall?
    ensures t in Apply(s, RunTask(requests)).timers.timers && !t.canceled
    ensures var req := s.pc.task.work.req;
            && (req.RunUntil? ==> t.interval.None? && t.exp == req.exp)
            && (req.RunAfter? ==> t.interval.None? && t.exp == s.clock + req.ms * TICKS_PER_MS)
            && (req.RunEvery? ==> t.interval == Some(req.period) && t.exp == s.clock + req.period * TICKS_PER_MS)
  {
    t := UserCodeRegisters(s, RunTask(requests), requests, 0);
  }

  /** From then on it has fired at most (now - registration) / period times, at any point of any run of the loop. */
  lemma RepeatCountInLoop(init: State, before: seq<Label>, requests: seq<Request>, i: nat, ls: seq<Label>)
      returns (t: Timer)
    requires Init(init) && Possible(init, before)
    requires Enabled(After(init, before), RunTask(requests)) && i < |requests| && requests[i].RunEvery?
    requires Possible(Apply(After(init, before), RunTask(requests)), ls)
    ensures var s := After(init, before);
            var s' := Apply(s, RunTask(requests));
            && t in s'.timers.timers && t.interval == Some(requests[i].period)
            && |Firings(s'.timers, EventsIn(s', ls), t.id, 0)| * Period(t) <= After(s', ls).clock - s.clock
  {
    var s := After(init, before);
    var s' := Apply(s, RunTask(requests));
    InvOverRuns(init, before);
    LoopKeepsInv(s, RunTask(requests));
    t := UserCodeRegisters(s, RunTask(requests), requests, i);
    TimersAreARun(s', ls);
    RoundsBeforeEnd(s', ls);
    RepeatCount(s'.timers, EventsIn(s', ls), t, s.clock, After(s', ls).clock);
  }
}
