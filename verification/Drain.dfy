/**
 * `EventLoop::doPendingTask` on values: what a drain runs, in turns with other
 * threads pushing, and that it is a run of the loop's step relation.
 */
module Drains {
  import opened Sequences
  import opened TimerSpec
  import opened Reactor

  /** The task queue, the tasks run so far and the timers. */
  datatype Drain = Drain(queue: seq<Task>, ran: seq<Task>, timers: Queue)

  /** What a task registers if it is run after turn `j` of the other threads. */
  type Plan = (Task, nat) -> seq<Request>

  ghost predicate Sound(does: Plan) {
    forall task, j: nat :: Does(task, does(task, j))
  }

  /** What other threads push in their `j`-th turn, if anything. */
  function Arrival(arrivals: seq<seq<Task>>, j: nat): seq<Task> {
    if j < |arrivals| then arrivals[j] else []
  }

  function Upto(n: nat, limit: nat): nat {
    if n < limit then n else limit
  }

  /** The other threads have a turn before each of two locks: for the look at the queue, and for the pop. */
  function DrainNext(d: Drain, arrivals: seq<seq<Task>>, does: Plan, j: nat): Drain
    requires d.queue + Arrival(arrivals, j) != []
  {
    var queue := d.queue + Arrival(arrivals, j) + Arrival(arrivals, j + 1);
    Drain(queue[1..], d.ran + [queue[0]], RegisterAll(d.timers, does(queue[0], j + 1)))
  }

  /** One task after another until the queue is seen empty. */
  function DrainFrom(d: Drain, arrivals: seq<seq<Task>>, does: Plan, j: nat): Drain
    decreases |arrivals| - Upto(j, |arrivals|), |d.queue|
  {
    if d.queue + Arrival(arrivals, j) == [] then d
    else DrainFrom(DrainNext(d, arrivals, does, j), arrivals, does, j + 2)
  }

  lemma DrainFromNext(d: Drain, arrivals: seq<seq<Task>>, does: Plan, j: nat)
    requires d.queue + Arrival(arrivals, j) != []
    ensures var d' := DrainNext(d, arrivals, does, j);
            && DrainFrom(d, arrivals, does, j) == DrainFrom(d', arrivals, does, j + 2)
            && (Upto(j, |arrivals|) < Upto(j + 2, |arrivals|)
                || (Upto(j, |arrivals|) == Upto(j + 2, |arrivals|) && |d'.queue| < |d.queue|))
  {
  }

  function Flatten<T>(xss: seq<seq<T>>): seq<T> {
    if xss == [] then [] else xss[0] + Flatten(xss[1..])
  }

  lemma {:induction false} FlattenSnoc<T>(xss: seq<seq<T>>, xs: seq<T>)
    ensures Flatten(xss + [xs]) == Flatten(xss) + xs
  {
    if xss == [] {
      assert xss + [xs] == [xs];
    } else {
      FlattenSnoc(xss[1..], xs);
      assert (xss + [xs])[1..] == xss[1..] + [xs];
    }
  }

  function Arrived(arrivals: seq<seq<Task>>, j: nat): seq<Task> {
    Flatten(arrivals[..Upto(j, |arrivals|)])
  }

  lemma ArrivedNext(arrivals: seq<seq<Task>>, j: nat)
    ensures Arrived(arrivals, j + 1) == Arrived(arrivals, j) + Arrival(arrivals, j)
  {
    if j < |arrivals| {
      assert arrivals[..j + 1] == arrivals[..j] + [arrivals[j]];
      FlattenSnoc(arrivals[..j], arrivals[j]);
    }
  }

  /**
   * A drain ends with nothing queued, having run what was queued and all that
   * arrived before its last look at the queue, each once and in order.
   */
  lemma {:induction false} DrainRunsAll(d: Drain, arrivals: seq<seq<Task>>, does: Plan, j: nat, start: seq<Task>)
      returns (turns: nat)
    requires d.ran + d.queue == start + Arrived(arrivals, j)
    ensures var r := DrainFrom(d, arrivals, does, j);
            && turns == j + 2 * (|r.ran| - |d.ran|) + 1 && j < turns
            && r.queue == [] && r.ran == start + Arrived(arrivals, turns)
    decreases |arrivals| - Upto(j, |arrivals|), |d.queue|
  {
    if d.queue + Arrival(arrivals, j) == [] {
      turns := j + 1;
      TurnKeeps(d.ran, d.queue, arrivals, j, start);
      assert d.ran + [] == d.ran;
    } else {
      var d' := PassKeeps(d, arrivals, does, j, start);
      turns := DrainRunsAll(d', arrivals, does, j + 2, start);
    }
  }

  lemma PassKeeps(d: Drain, arrivals: seq<seq<Task>>, does: Plan, j: nat, start: seq<Task>) returns (d': Drain)
    requires d.ran + d.queue == start + Arrived(arrivals, j) && d.queue + Arrival(arrivals, j) != []
    ensures DrainFrom(d, arrivals, does, j) == DrainFrom(d', arrivals, does, j + 2)
    ensures Upto(j, |arrivals|) < Upto(j + 2, |arrivals|)
            || (Upto(j, |arrivals|) == Upto(j + 2, |arrivals|) && |d'.queue| < |d.queue|)
    ensures d'.ran + d'.queue == start + Arrived(arrivals, j + 2) && |d'.ran| == |d.ran| + 1
  {
    d' := DrainNext(d, arrivals, does, j);
    DrainFromNext(d, arrivals, does, j);
    var seen := d.queue + Arrival(arrivals, j);
    var queue := seen + Arrival(arrivals, j + 1);
    TurnKeeps(d.ran, d.queue, arrivals, j, start);
    TurnKeeps(d.ran, seen, arrivals, j + 1, start);
    assert queue == [queue[0]] + queue[1..];
    Associative(d.ran, [queue[0]], queue[1..]);
  }

  lemma TurnKeeps(ran: seq<Task>, queue: seq<Task>, arrivals: seq<seq<Task>>, j: nat, start: seq<Task>)
    requires ran + queue == start + Arrived(arrivals, j)
    ensures ran + (queue + Arrival(arrivals, j)) == start + Arrived(arrivals, j + 1)
  {
    ArrivedNext(arrivals, j);
    Associative(ran, queue, Arrival(arrivals, j));
    Associative(start, Arrived(arrivals, j), Arrival(arrivals, j));
  }

  // The drain as steps of the loop

  function Drained(s: State): Drain {
    Drain(s.queue, s.done, s.timers)
  }

  /** Tasks that other threads may push in the state `s`. */
  ghost predicate Pushable(s: State, tasks: seq<Task>) {
    forall t :: t in tasks ==> t.producer != LOOP_THREAD && t.producer !in s.midCall
  }

  lemma {:induction false} PushAll(s: State, tasks: seq<Task>) returns (ls: seq<Label>)
    requires Pushable(s, tasks)
    ensures Possible(s, ls)
    ensures After(s, ls) == s.(queue := s.queue + tasks, pushed := s.pushed + tasks, counter := s.counter + |tasks|)
    decreases |tasks|
  {
    if tasks == [] {
      ls := [];
      assert s.queue + tasks == s.queue && s.pushed + tasks == s.pushed;
    } else {
      var t := tasks[0];
      var call := [Push(t.producer, t), Signal(t.producer)];
      QueueingIsTwoSteps(s, t.producer, t);
      var rest := PushAll(After(s, call), tasks[1..]);
      ls := call + rest;
      AfterConcat(s, call, rest);
      assert tasks == [t] + tasks[1..];
      Associative(s.queue, [t], tasks[1..]);
      Associative(s.pushed, [t], tasks[1..]);
    }
  }

  ghost predicate AllPushable(s: State, arrivals: seq<seq<Task>>) {
    forall i :: 0 <= i < |arrivals| ==> Pushable(s, arrivals[i])
  }

  /** Clock readings for the turns of a drain: none goes back, none is before the drain. */
  ghost predicate Readings(s: State, clock: nat -> int, j: nat) {
    s.clock <= clock(j) && forall i: nat :: clock(i) <= clock(i + 1)
  }

  ghost predicate ReadsAt(does: Plan, clock: nat -> int) {
    forall task, j: nat :: ReadBetween(does(task, j), clock(j), clock(j))
  }

  /** One pass: the turns of the others, the two looks at the queue, and the task run. */
  lemma DrainPass(s: State, arrivals: seq<seq<Task>>, does: Plan, clock: nat -> int, j: nat)
      returns (ls: seq<Label>)
    requires s.pc.CheckEmpty? && Sound(does) && ReadsAt(does, clock) && Readings(s, clock, j)
    requires Pushable(s, Arrival(arrivals, j)) && Pushable(s, Arrival(arrivals, j + 1))
    requires s.queue + Arrival(arrivals, j) != []
    ensures Possible(s, ls)
    ensures var e := After(s, ls);
            && e.pc.CheckEmpty? && e.midCall == s.midCall && e.clock == clock(j + 1)
            && Drained(e) == DrainNext(Drained(s), arrivals, does, j)
  {
    ls := PushAll(s, Arrival(arrivals, j));
    OneMoreStep(s, ls, SeeEmpty);
    ls := ls + [SeeEmpty];
    var second := PushAll(After(s, ls), Arrival(arrivals, j + 1));
    AfterConcat(s, ls, second);
    ls := ls + second;
    OneMoreStep(s, ls, Pop);
    ls := ls + [Pop];
    assert clock(j) <= clock(j + 1);
    OneMoreStep(s, ls, Tick(clock(j + 1)));
    ls := ls + [Tick(clock(j + 1))];
    var run := RunTask(does(After(s, ls).pc.task, j + 1));
    OneMoreStep(s, ls, run);
    ls := ls + [run];
  }

  lemma DrainPassOn(s: State, arrivals: seq<seq<Task>>, does: Plan, clock: nat -> int, j: nat)
      returns (ls: seq<Label>, s': State)
    requires s.pc.CheckEmpty? && Sound(does) && ReadsAt(does, clock) && Readings(s, clock, j)
    requires AllPushable(s, arrivals) && s.queue + Arrival(arrivals, j) != []
    ensures Possible(s, ls) && s' == After(s, ls)
    ensures s'.pc.CheckEmpty? && AllPushable(s', arrivals) && Readings(s', clock, j + 2)
    ensures DrainFrom(Drained(s), arrivals, does, j) == DrainFrom(Drained(s'), arrivals, does, j + 2)
    ensures Upto(j, |arrivals|) < Upto(j + 2, |arrivals|)
            || (Upto(j, |arrivals|) == Upto(j + 2, |arrivals|) && |s'.queue| < |s.queue|)
  {
    ls := DrainPass(s, arrivals, does, clock, j);
    s' := After(s, ls);
    DrainFromNext(Drained(s), arrivals, does, j);
    assert clock(j + 1) <= clock(j + 2);
    forall i | 0 <= i < |arrivals| ensures Pushable(s', arrivals[i]) {
      assert Pushable(s, arrivals[i]);
    }
  }

  /**
   * A drain is a run of the loop from `CheckEmpty` to `Top` with the pushes of
   * the other threads, and the passing of time, in between: it leaves the same
   * queue, runs the same tasks and registers the same timers.
   */
  lemma {:induction false} DrainIsRun(s: State, arrivals: seq<seq<Task>>, does: Plan, clock: nat -> int, j: nat)
      returns (ls: seq<Label>)
    requires s.pc.CheckEmpty? && Sound(does) && ReadsAt(does, clock) && Readings(s, clock, j)
    requires AllPushable(s, arrivals)
    ensures Possible(s, ls)
    ensures var e := After(s, ls);
            e.pc.Top? && Drained(e) == DrainFrom(Drained(s), arrivals, does, j)
    decreases |arrivals| - Upto(j, |arrivals|), |s.queue|
  {
    if s.queue + Arrival(arrivals, j) == [] {
      ls := [SeeEmpty];
      OneStep(s, SeeEmpty);
    } else {
      var pass, s' := DrainPassOn(s, arrivals, does, clock, j);
      var rest := DrainIsRun(s', arrivals, does, clock, j + 2);
      ls := pass + rest;
      AfterConcat(s, pass, rest);
    }
  }
}
