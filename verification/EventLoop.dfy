/**
 * `BlockQueue`, the eventfd behind `WakeUp`, and the parts of `EventLoop` that
 * work on them: queueing a task, draining the queue, firing the timers.
 */
module EventLoops {
  import opened Wrappers
  import opened TimerQueues
  import opened Drains
  import Spec = TimerSpec
  import Reactor

  class BlockQueue<T> {
    var tasks: seq<T>

    constructor ()
      ensures tasks == []
    {
      tasks := [];
    }

    method Push(task: T)
      modifies this
      ensures tasks == old(tasks) + [task]
    {
      tasks := tasks + [task];
    }

    /** None is the original's `false`. */
    method TryPop() returns (task: Option<T>)
      modifies this
      ensures task.None? <==> old(tasks) == []
      ensures (if task.Some? then [task.value] else []) + tasks == old(tasks)
    {
      if tasks == [] {
        return None;
      }
      task := Some(tasks[0]);
      tasks := tasks[1..];
    }

    method Empty() returns (b: bool)
      ensures b <==> tasks == []
    {
      b := |tasks| == 0;
    }
  }

  /** An eventfd: writes add up, a read takes everything and needs something to take. */
  class WakeUp {
    var counter: nat

    constructor ()
      ensures counter == 0
    {
      counter := 0;
    }

    method Signal()
      modifies this
      ensures counter == old(counter) + 1
      ensures forall s: Reactor.State, tid: nat :: tid in s.midCall && s.counter == old(counter) ==>
                Reactor.Apply(s, Reactor.Signal(tid)).counter == counter
    {
      counter := counter + 1;
    }

    /**
     * Reads until a read succeeds; `writes` are what other threads add after each
     * failed attempt. None stands for the attempts never ending, which happens
     * exactly if nothing has been signalled and nothing ever will be. A positive
     * counter, the only case the loop meets (`Reactor.NeverSpins`), is read at once.
     */
    method HandleRead(writes: seq<nat>) returns (value: Option<nat>)
      modifies this
      ensures counter == 0
      ensures value.None? <==> old(counter) == 0 && forall i :: 0 <= i < |writes| ==> writes[i] == 0
      ensures 0 < old(counter) ==> value == Some(old(counter))
      ensures forall s: Reactor.State ::
                s.counter == old(counter) && Reactor.Enabled(s, Reactor.Handle([])) && s.pc.ready[0].WakeHandler? ==>
                  Reactor.Apply(s, Reactor.Handle([])).counter == counter
      ensures value.Some? && old(counter) == 0 ==>
                exists i :: 0 <= i < |writes| && value == Some(writes[i]) && forall j :: 0 <= j < i ==> writes[j] == 0
    {
      var i := 0;
      while counter == 0
        invariant 0 <= i <= |writes|
        invariant forall j :: 0 <= j < i - 1 ==> writes[j] == 0
        invariant i == 0 ==> counter == old(counter)
        invariant 0 < i ==> old(counter) == 0 && counter == writes[i - 1]
        decreases |writes| - i, counter == 0
      {
        if i == |writes| {
          return None;
        }
        counter := counter + writes[i];
        i := i + 1;
      }
      value := Some(counter);
      counter := 0;
    }
  }

  class EventLoop {
    const pending: BlockQueue<Reactor.Task>
    const wake: WakeUp
    const timers: TimerQueue
    var expiration: seq<Timer>
    /** Every task the loop has run, oldest first. */
    var ran: seq<Reactor.Task>

    constructor (ids: TimerIds)
      ensures fresh(pending) && fresh(wake) && fresh(timers) && timers.ids == ids
      ensures pending.tasks == [] && wake.counter == 0 && timers.timers == [] && expiration == [] && ran == []
    {
      pending := new BlockQueue();
      wake := new WakeUp();
      timers := new TimerQueue(ids);
      expiration, ran := [], [];
    }

    /** `task_()`: what the task does to the loop is what it registers. */
    method RunTask(task: Reactor.Task, requests: seq<Spec.Request>)
      requires Reactor.Does(task, requests)
      modifies this`ran, timers`timers, timers.ids
      ensures ran == old(ran) + [task]
      ensures timers.View() == Spec.RegisterAll(old(timers.View()), requests)
      ensures forall u :: u in timers.timers && u !in old(timers.timers) ==> fresh(u)
    {
      ran := ran + [task];
      RegisterEach(requests);
    }

    /**
     * On the loop's own thread the task runs on the spot, ahead of everything
     * queued; any other thread leaves it behind all earlier ones, with one more
     * wake-up. Either way it goes to exactly one place.
     */
    method QueueInLoopThread(caller: nat, task: Reactor.Task, requests: seq<Spec.Request>)
      requires Reactor.Does(task, requests)
      modifies this`ran, timers`timers, timers.ids, pending, wake
      ensures ran == old(ran) + if caller == Reactor.LOOP_THREAD then [task] else []
      ensures pending.tasks == old(pending.tasks) + if caller == Reactor.LOOP_THREAD then [] else [task]
      ensures wake.counter - |pending.tasks| == old(wake.counter) - old(|pending.tasks|)
      ensures timers.View() == if caller == Reactor.LOOP_THREAD then Spec.RegisterAll(old(timers.View()), requests)
                               else old(timers.View())
    {
      if caller == Reactor.LOOP_THREAD {
        RunTask(task, requests);
      } else {
        pending.Push(task);
        wake.Signal();
      }
    }

    /** Other threads get the lock: what they push, if anything, in their `j`-th turn. */
    method OthersPush(arrivals: seq<seq<Reactor.Task>>, j: nat)
      modifies pending
      ensures pending.tasks == old(pending.tasks) + Arrival(arrivals, j)
    {
      if j < |arrivals| {
        pending.tasks := pending.tasks + arrivals[j];
      }
    }

    ghost function Draining(): Drain
      reads this`ran, pending, timers, timers.ids, timers.timers
    {
      Drain(pending.tasks, ran, timers.View())
    }

    /**
     * The drain, other threads pushing before every lock it takes. It ends for
     * any finite number of pushes, with the queue seen empty, having run the old
     * tasks and then those that arrived, each once and in order, and does what
     * the drain on values does, which is a run of the loop (`Drains.DrainIsRun`).
     */
    method DoPendingTask(arrivals: seq<seq<Reactor.Task>>, does: Plan)
      requires Sound(does)
      modifies this`ran, pending, timers`timers, timers.ids
      ensures Draining() == DrainFrom(old(Draining()), arrivals, does, 0)
      ensures pending.tasks == [] && old(|ran|) <= |ran|
      ensures ran == old(ran) + old(pending.tasks) + Arrived(arrivals, 2 * (|ran| - old(|ran|)) + 1)
    {
      ghost var start := Draining();
      DrainQueue(arrivals, does);
      assert Arrived(arrivals, 0) == [];
      ghost var turns := DrainRunsAll(start, arrivals, does, 0, start.ran + start.queue);
    }

    method DrainQueue(arrivals: seq<seq<Reactor.Task>>, does: Plan)
      requires Sound(does)
      modifies this`ran, pending, timers`timers, timers.ids
      ensures Draining() == DrainFrom(old(Draining()), arrivals, does, 0)
    {
      ghost var start := Draining();
      var j := 0;
      while true
        invariant DrainFrom(Draining(), arrivals, does, j) == DrainFrom(start, arrivals, does, 0)
        decreases |arrivals| - Upto(j, |arrivals|), |pending.tasks|
      {
        ghost var d := Draining();
        var more := RunNext(arrivals, does, j);
        if !more {
          break;
        }
        DrainFromNext(d, arrivals, does, j);
        j := j + 2;
      }
    }

    /** `!empty() && try_pop(task_)`, then the task. */
    method RunNext(arrivals: seq<seq<Reactor.Task>>, does: Plan, j: nat) returns (more: bool)
      requires Sound(does)
      modifies this`ran, pending, timers`timers, timers.ids
      ensures more <==> old(pending.tasks) + Arrival(arrivals, j) != []
      ensures Draining() == if more then DrainNext(old(Draining()), arrivals, does, j) else old(Draining())
    {
      ghost var d := Draining();
      OthersPush(arrivals, j);
      var empty := pending.Empty();
      if empty {
        assert d.queue + Arrival(arrivals, j) == [] && pending.tasks == d.queue;
        return false;
      }
      OthersPush(arrivals, j + 1);
      ghost var queue := d.queue + Arrival(arrivals, j) + Arrival(arrivals, j + 1);
      assert pending.tasks == queue;
      PopAndRun(does, j + 1);
      assert Draining() == Drain(queue[1..], d.ran + [queue[0]], Spec.RegisterAll(d.timers, does(queue[0], j + 1)));
      more := true;
    }

    method PopAndRun(does: Plan, j: nat)
      requires Sound(does) && pending.tasks != []
      modifies this`ran, pending, timers`timers, timers.ids
      ensures pending.tasks == old(pending.tasks[1..]) && ran == old(ran + [pending.tasks[0]])
      ensures timers.View() == Spec.RegisterAll(old(timers.View()), does(old(pending.tasks[0]), j))
    {
      ghost var queue := pending.tasks;
      var task := pending.TryPop();
      if task.None? {
        assert false;
        return;
      }
      assert task.value == queue[0] && pending.tasks == queue[1..];
      RunTask(task.value, does(task.value, j));
    }

    /**
     * The `runUntil`, `runAfter` and `runEvery` of the loop: from its own thread
     * the timer is queued on the spot, from any other a task is left that will
     * make the same call when it is run (`Reactor.Does`).
     */
    method RequestTimer(caller: nat, req: Spec.Request)
      modifies (if caller == Reactor.LOOP_THREAD then {timers} else {})`timers
      modifies if caller == Reactor.LOOP_THREAD then {timers.ids} else {}
      modifies if caller == Reactor.LOOP_THREAD then {} else {pending}
      modifies if caller == Reactor.LOOP_THREAD then {} else {wake}
      ensures caller == Reactor.LOOP_THREAD ==>
                && timers.View() == Spec.Register(old(timers.View()), req)
                && forall u :: u in timers.timers && u !in old(timers.timers) ==> fresh(u)
      ensures caller != Reactor.LOOP_THREAD ==>
                && pending.tasks == old(pending.tasks) + [Reactor.Task(caller, Reactor.TimerCall(req))]
                && wake.counter == old(wake.counter) + 1
    {
      if caller == Reactor.LOOP_THREAD {
        timers.RegisterOne(req);
      } else {
        pending.Push(Reactor.Task(caller, Reactor.TimerCall(req)));
        wake.Signal();
      }
    }

    /** What one callback, or one task, registers while it runs on the loop thread. */
    method RegisterEach(requests: seq<Spec.Request>)
      modifies timers`timers, timers.ids
      ensures timers.View() == Spec.RegisterAll(old(timers.View()), requests)
      ensures forall u :: u in timers.timers && u !in old(timers.timers) ==> fresh(u)
    {
      var i := 0;
      assert requests[0..] == requests;
      while i < |requests|
        invariant 0 <= i <= |requests|
        invariant Spec.RegisterAll(timers.View(), requests[i..]) == Spec.RegisterAll(old(timers.View()), requests)
        invariant forall u :: u in timers.timers && u !in old(timers.timers) ==> fresh(u)
      {
        Spec.RegisterAllFrom(timers.View(), requests, i);
        RequestTimer(Reactor.LOOP_THREAD, requests[i]);
        i := i + 1;
      }
    }

    /** One drained timer: its callback, then, if it repeats, re-arming and back into the queue. */
    method FireOne(t: Timer, f: Spec.Firing)
      requires t !in timers.timers
      requires !Spec.HasId(Spec.RegisterAll(timers.View(), f.requests).timers, t.id)
      modifies timers`timers, timers.ids, t`expTime
      ensures timers.View() == Spec.FireOne(old(t.Value()), old(timers.View()), f)
      ensures forall u :: u in timers.timers && u !in old(timers.timers) ==> u == t || fresh(u)
    {
      RegisterEach(f.requests);
      if t.interval.Some? {
        ghost var q := timers.View();
        t.Reset(f.resetAt);
        assert t !in timers.timers;
        assert timers.View() == q;
        timers.AddTimer(t);
      }
    }

    /** The loop over the drained timers; `batch` is what they were worth when drained. */
    method FireExpired(script: Spec.Script, ghost batch: seq<Spec.Timer>)
      requires batch == Values(expiration) && Spec.Detached(batch, timers.View())
      modifies timers`timers, timers.ids, expiration
      ensures timers.View() == Spec.FireAll(batch, old(timers.View()), script, 0)
      ensures forall u :: u in timers.timers && u !in old(timers.timers) ==> u in expiration || fresh(u)
    {
      var i := 0;
      assert batch[0..] == batch;
      while i < |expiration|
        invariant 0 <= i <= |expiration|
        invariant Spec.Detached(batch[i..], timers.View())
        invariant forall j :: i <= j < |expiration| ==> expiration[j].Value() == batch[j]
        invariant forall u :: u in timers.timers && u !in old(timers.timers) ==> u in expiration || fresh(u)
        invariant Spec.FireAll(batch[i..], timers.View(), script, i)
               == Spec.FireAll(batch, old(timers.View()), script, 0)
      {
        Spec.FireAllFrom(batch, timers.View(), script, i);
        FireAt(i, script(i), batch);
        i := i + 1;
      }
    }

    /** One pass of that loop; the timers behind position `i` are still as drained, and still apart from the queue. */
    method FireAt(i: nat, f: Spec.Firing, ghost batch: seq<Spec.Timer>)
      requires i < |expiration| == |batch| && Spec.Detached(batch[i..], timers.View())
      requires forall j :: i <= j < |expiration| ==> expiration[j].Value() == batch[j]
      modifies timers`timers, timers.ids, expiration[i]
      ensures timers.View() == Spec.FireOne(batch[i], old(timers.View()), f)
      ensures Spec.Detached(batch[i + 1..], timers.View())
      ensures forall j :: i < j < |expiration| ==> expiration[j].Value() == batch[j]
      ensures forall u :: u in timers.timers && u !in old(timers.timers) ==> u == expiration[i] || fresh(u)
    {
      var t := expiration[i];
      Spec.DetachedFirst(batch, i, timers.View(), f);
      if t in timers.timers {
        QueuedHasId(timers.timers, t);
        assert false;
      }
      forall j | i < j < |expiration| ensures expiration[j] != t {
        Spec.DetachedDiffer(batch, i, j, timers.View());
      }
      FireOne(t, f);
    }

    /** One timer round of the loop: exactly the round of the specification. */
    method ExecExpiredTimesTask(now: int, script: Spec.Script)
      requires timers.Valid() && expiration == []
      modifies this`expiration, timers`timers, timers.ids, timers.timers
      ensures timers.Valid() && expiration == []
      ensures timers.View() == Spec.Round(old(timers.View()), now, script)
    {
      ghost var q := timers.View();
      Spec.DueDetached(q, now);
      Spec.RoundKeeps(q, now, script);
      ExecRound(now, script, Spec.Due(q.timers, now), Spec.Rest(q.timers, now));
    }

    method ExecRound(now: int, script: Spec.Script, ghost due: seq<Spec.Timer>, ghost rest: seq<Spec.Timer>)
      requires expiration == []
      requires due == Spec.Due(timers.View().timers, now) && rest == Spec.Rest(timers.View().timers, now)
      requires Spec.Detached(due, timers.View().(timers := rest))
      modifies this`expiration, timers`timers, timers.ids, timers.timers
      ensures expiration == []
      ensures timers.View() == Spec.FireAll(due, old(timers.View()).(timers := rest), script, 0)
    {
      ghost var all := timers.timers;
      TakeExpired(now, due, rest);
      assert forall i :: 0 <= i < |expiration| ==> expiration[i] in all;
      FireExpired(script, due);
      expiration := [];
    }

    method TakeExpired(now: int, ghost due: seq<Spec.Timer>, ghost rest: seq<Spec.Timer>)
      requires expiration == []
      requires due == Spec.Due(timers.View().timers, now) && rest == Spec.Rest(timers.View().timers, now)
      modifies this`expiration, timers`timers
      ensures Values(expiration) == due
      ensures timers.View() == old(timers.View()).(timers := rest)
      ensures forall i :: 0 <= i < |expiration| ==> expiration[i] in old(timers.timers)
    {
      expiration := timers.GetExpiredTimes(expiration, now);
    }
  }
}
