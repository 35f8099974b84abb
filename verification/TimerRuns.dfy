/**
 * Whole runs of a timer queue: registrations interleaved with firing rounds in
 * any order, callbacks registering more timers while a round is under way.
 */
module TimerRuns {
  import opened Wrappers
  import opened TimerSpec

  datatype Event =
    | Add(req: Request)
    | Fire(now: int, script: Script)

  function Step(q: Queue, e: Event): Queue {
    match e
    case Add(req) => Register(q, req)
    case Fire(now, script) => Round(q, now, script)
  }

  function Run(q: Queue, es: seq<Event>): Queue
    decreases |es|
  {
    if es == [] then q else Run(Step(q, es[0]), es[1..])
  }

  /** A firing: which event of the run it happened in, and that round's clock reading. */
  datatype Mark = Mark(event: nat, now: int)

  /** One mark for every time the batch runs the callback of timer `id`. */
  function BatchMarks(batch: seq<Timer>, id: nat, m: Mark): seq<Mark> {
    if batch == [] then [] else (if batch[0].id == id then [m] else []) + BatchMarks(batch[1..], id, m)
  }

  function StepMarks(q: Queue, e: Event, id: nat, at: nat): seq<Mark> {
    if e.Fire? then BatchMarks(Due(q.timers, e.now), id, Mark(at, e.now)) else []
  }

  /** Every firing of timer `id` in the run, in order; `at` numbers the first event. */
  function Firings(q: Queue, es: seq<Event>, id: nat, at: nat): seq<Mark>
    decreases |es|
  {
    if es == [] then [] else StepMarks(q, es[0], id, at) + Firings(Step(q, es[0]), es[1..], id, at + 1)
  }

  /** The first round whose clock reading has reached `deadline`. */
  function FirstReaching(es: seq<Event>, deadline: int, at: nat): Option<Mark>
    decreases |es|
  {
    if es == [] then None
    else if es[0].Fire? && deadline <= es[0].now then Some(Mark(at, es[0].now))
    else FirstReaching(es[1..], deadline, at + 1)
  }

  // One step, one timer

  lemma StepKeeps(q: Queue, e: Event)
    requires Wf(q)
    ensures Wf(Step(q, e)) && q.nextId <= Step(q, e).nextId
  {
    match e {
      case Add(req) => RegisterKeeps(q, req);
      case Fire(now, script) => RoundKeeps(q, now, script);
    }
  }

  /** In every run the queue stays strictly ordered with distinct ids below the counter. */
  lemma {:induction false} RunKeeps(q: Queue, es: seq<Event>)
    requires Wf(q)
    ensures Wf(Run(q, es)) && q.nextId <= Run(q, es).nextId
    decreases |es|
  {
    if es == [] {
    } else {
      StepKeeps(q, es[0]);
      RunKeeps(Step(q, es[0]), es[1..]);
    }
  }

  lemma {:induction false} MarksOf(batch: seq<Timer>, id: nat, m: Mark)
    requires DistinctIds(batch)
    ensures BatchMarks(batch, id, m) == if HasId(batch, id) then [m] else []
  {
    if batch == [] {
    } else {
      MarksOf(batch[1..], id, m);
      assert batch[0] in batch;
      forall t | t in batch[1..] ensures t in batch && t.id != batch[0].id {
        var i :| 0 <= i < |batch[1..]| && batch[1..][i] == t;
        assert batch[i + 1] == t;
      }
      assert forall t :: t in batch ==> t == batch[0] || t in batch[1..];
    }
  }

  lemma {:induction false} RearmedComeFromBatch(batch: seq<Timer>, script: Script, i: nat)
    ensures forall u :: u in Rearmed(batch, script, i) ==>
              exists t, k: nat :: t in batch && t.interval.Some? && u == Reset(t, script(k).resetAt)
    decreases |batch|
  {
    if batch == [] {
    } else {
      RearmedComeFromBatch(batch[1..], script, i + 1);
      forall u | u in Rearmed(batch, script, i)
        ensures exists t, k: nat :: t in batch && t.interval.Some? && u == Reset(t, script(k).resetAt)
      {
        if u in Rearmed(batch[1..], script, i + 1) {
          var t, k: nat :| t in batch[1..] && t.interval.Some? && u == Reset(t, script(k).resetAt);
          assert t in batch;
        } else {
          assert batch[0] in batch && u == Reset(batch[0], script(i).resetAt);
        }
      }
    }
  }

  lemma {:induction false} BatchIsRearmed(batch: seq<Timer>, script: Script, i: nat, t: Timer) returns (k: nat)
    requires t in batch && t.interval.Some?
    ensures i <= k < i + |batch| && batch[k - i] == t
    ensures Reset(t, script(k).resetAt) in Rearmed(batch, script, i)
    decreases |batch|
  {
    if batch[0] == t {
      k := i;
    } else {
      k := BatchIsRearmed(batch[1..], script, i + 1, t);
    }
  }

  /** Where a timer found after the round was before it. */
  lemma RoundOrigin(q: Queue, now: int, script: Script, u: Timer)
    requires Wf(q) && u in Round(q, now, script).timers
    ensures || (u in q.timers && now < u.exp)
            || q.nextId <= u.id
            || exists t, k: nat :: t in q.timers && t.exp <= now && t.interval.Some? && u == Reset(t, script(k).resetAt)
  {
    var due := Due(q.timers, now);
    RoundConserves(q, now, script);
    DrainExact(q.timers, now);
    RearmedComeFromBatch(due, script, 0);
    assert u in multiset(Round(q, now, script).timers);
    assert u in multiset(Rest(q.timers, now)) || u in Rearmed(due, script, 0) || u in Spawned(due, q.nextId, script, 0);
    if u in Rearmed(due, script, 0) {
      var t, k: nat :| t in due && t.interval.Some? && u == Reset(t, script(k).resetAt);
      assert t in q.timers && t.exp <= now;
    }
  }

  /** An id that is neither pending nor yet to be allocated never comes back. */
  lemma AbsentStaysAbsent(q: Queue, e: Event, id: nat, at: nat)
    requires Wf(q) && id < q.nextId && !HasId(q.timers, id)
    ensures !HasId(Step(q, e).timers, id) && StepMarks(q, e, id, at) == []
  {
    match e {
      case Add(req) => InsertContents(q.timers, Make(req, q.nextId + req.gap));
      case Fire(now, script) => AbsentAfterRound(q, now, script, id, Mark(at, now));
    }
  }

  lemma AbsentAfterRound(q: Queue, now: int, script: Script, id: nat, m: Mark)
    requires Wf(q) && id < q.nextId && !HasId(q.timers, id)
    ensures !HasId(Round(q, now, script).timers, id) && BatchMarks(Due(q.timers, now), id, m) == []
  {
    forall u | u in Round(q, now, script).timers ensures u.id != id {
      RoundOrigin(q, now, script, u);
    }
    DueApart(q, now);
    DueMembers(q.timers, now);
    MarksOf(Due(q.timers, now), id, m);
  }

  /** A timer that is not due rides through any step untouched. */
  lemma NotDueStays(q: Queue, e: Event, t: Timer, at: nat)
    requires Wf(q) && t in q.timers && (e.Fire? ==> e.now < t.exp)
    ensures t in Step(q, e).timers && StepMarks(q, e, t.id, at) == []
  {
    match e {
      case Add(req) => InsertContents(q.timers, Make(req, q.nextId + req.gap));
      case Fire(now, script) =>
        NotDueIsQueued(q, now, script, t);
        NotDueUnmarked(q, now, t, Mark(at, now));
    }
  }

  lemma NotDueIsQueued(q: Queue, now: int, script: Script, t: Timer)
    requires Wf(q) && t in q.timers && now < t.exp
    ensures t in Round(q, now, script).timers
  {
    RoundConserves(q, now, script);
    DrainExact(q.timers, now);
    var ts := Round(q, now, script).timers;
    assert t in multiset(Rest(q.timers, now));
    assert t in multiset(ts);
  }

  lemma NotDueUnmarked(q: Queue, now: int, t: Timer, m: Mark)
    requires Wf(q) && t in q.timers && now < t.exp
    ensures BatchMarks(Due(q.timers, now), t.id, m) == []
  {
    DueApart(q, now);
    DrainExact(q.timers, now);
    MarksOf(Due(q.timers, now), t.id, m);
  }

  lemma DueFiresOnce(q: Queue, now: int, t: Timer, m: Mark)
    requires Wf(q) && t in q.timers && t.exp <= now
    ensures BatchMarks(Due(q.timers, now), t.id, m) == [m]
  {
    DueApart(q, now);
    DrainExact(q.timers, now);
    MarksOf(Due(q.timers, now), t.id, m);
  }

  lemma DueOneShotLeaves(q: Queue, now: int, script: Script, t: Timer)
    requires Wf(q) && t in q.timers && t.exp <= now && t.interval.None?
    ensures !HasId(Round(q, now, script).timers, t.id)
  {
    forall u | u in Round(q, now, script).timers ensures u.id != t.id {
      if u.id == t.id {
        RoundOrigin(q, now, script, u);
        forall w | w in q.timers && w.id == t.id ensures w == t {
          SameIdSameTimer(q.timers, t, w);
        }
      }
    }
  }

  lemma DueRepeatingReturns(q: Queue, now: int, script: Script, t: Timer) returns (k: nat)
    requires Wf(q) && t in q.timers && t.exp <= now && t.interval.Some?
    ensures k < |Due(q.timers, now)| && Due(q.timers, now)[k] == t
    ensures Reset(t, script(k).resetAt) in Round(q, now, script).timers
  {
    DueMembers(q.timers, now);
    k := BatchIsRearmed(Due(q.timers, now), script, 0, t);
    RearmedIsQueued(q, now, script, Reset(t, script(k).resetAt));
  }

  lemma RearmedIsQueued(q: Queue, now: int, script: Script, t: Timer)
    requires Wf(q) && t in Rearmed(Due(q.timers, now), script, 0)
    ensures t in Round(q, now, script).timers
  {
    RoundConserves(q, now, script);
    var ts := Round(q, now, script).timers;
    assert t in multiset(Rearmed(Due(q.timers, now), script, 0));
    assert t in multiset(ts);
  }

  /**
   * Where a round leaves a repeating timer that was due: live, one interval after
   * the clock reading taken behind its own callback; cancelled, at the epoch.
   */
  lemma RoundRearms(q: Queue, now: int, script: Script, t: Timer) returns (k: nat)
    requires Wf(q) && t in q.timers && t.exp <= now && t.interval.Some?
    ensures k < |Due(q.timers, now)| && Due(q.timers, now)[k] == t
    ensures !t.canceled ==>
              t.(exp := script(k).resetAt + t.interval.value * TICKS_PER_MS) in Round(q, now, script).timers
    ensures t.canceled ==> t.(exp := EPOCH) in Round(q, now, script).timers
    ensures Rearms(t, script(k).resetAt, Reset(t, script(k).resetAt))
    ensures Reset(t, script(k).resetAt) in Round(q, now, script).timers
  {
    k := DueRepeatingReturns(q, now, script, t);
  }

  ghost predicate Rearms(t: Timer, resetAt: int, t': Timer)
    requires t.interval.Some?
  {
    t' == t.(exp := if t.canceled then EPOCH else resetAt + t.interval.value * TICKS_PER_MS)
  }

  /** What a callback registers is queued when the round is over, due or not: no round fires it at once. */
  lemma CallbackRegisters(q: Queue, now: int, script: Script, k: nat, i: nat) returns (t: Timer)
    requires Wf(q) && k < |Due(q.timers, now)| && i < |script(k).requests|
    ensures t in Round(q, now, script).timers && q.nextId <= t.id && !t.canceled
    ensures var r := script(k).requests[i];
            && (r.RunUntil? ==> t.interval.None? && t.exp == r.exp)
            && (r.RunAfter? ==> t.interval.None? && t.exp == r.now + r.ms * TICKS_PER_MS)
            && (r.RunEvery? ==> t.interval == Some(r.period) && t.exp == r.now + r.period * TICKS_PER_MS)
  {
    var id := CallbackSpawns(Due(q.timers, now), q.nextId, script, 0, k, i);
    t := Make(script(k).requests[i], id);
    SpawnedIsQueued(q, now, script, t);
  }

  lemma SpawnedIsQueued(q: Queue, now: int, script: Script, t: Timer)
    requires Wf(q) && t in Spawned(Due(q.timers, now), q.nextId, script, 0)
    ensures t in Round(q, now, script).timers && q.nextId <= t.id
  {
    RoundConserves(q, now, script);
    var ts := Round(q, now, script).timers;
    assert t in multiset(Spawned(Due(q.timers, now), q.nextId, script, 0));
    assert t in multiset(ts);
  }

  lemma {:induction false} CallbackSpawns(batch: seq<Timer>, nextId: nat, script: Script, at: nat, k: nat, i: nat)
      returns (id: nat)
    requires k < |batch| && i < |script(at + k).requests|
    ensures Make(script(at + k).requests[i], id) in Spawned(batch, nextId, script, at)
    decreases |batch|
  {
    if k == 0 {
      id := RequestIsAdded(nextId, script(at).requests, i);
    } else {
      id := CallbackSpawns(batch[1..], NextAfter(nextId, script(at).requests), script, at + 1, k - 1, i);
    }
  }

  // Whole runs

  lemma {:induction false} AbsentNeverFires(q: Queue, es: seq<Event>, id: nat, at: nat)
    requires Wf(q) && id < q.nextId && !HasId(q.timers, id)
    ensures Firings(q, es, id, at) == [] && !HasId(Run(q, es).timers, id)
    decreases |es|
  {
    if es == [] {
    } else {
      AbsentStaysAbsent(q, es[0], id, at);
      StepKeeps(q, es[0]);
      AbsentNeverFires(Step(q, es[0]), es[1..], id, at + 1);
    }
  }

  /**
   * A one-shot timer fires in the first round whose reading reaches its deadline,
   * once, and in no other round of the run, whatever is registered meanwhile.
   */
  lemma {:induction false} OneShotExact(q: Queue, es: seq<Event>, t: Timer, at: nat)
    requires Wf(q) && t in q.timers && t.interval.None?
    ensures Firings(q, es, t.id, at) == match FirstReaching(es, t.exp, at) case None => [] case Some(m) => [m]
    ensures HasId(Run(q, es).timers, t.id) <==> FirstReaching(es, t.exp, at).None?
    decreases |es|
  {
    if es == [] {
    } else {
      StepKeeps(q, es[0]);
      if es[0].Fire? && t.exp <= es[0].now {
        DueFiresOnce(q, es[0].now, t, Mark(at, es[0].now));
        DueOneShotLeaves(q, es[0].now, es[0].script, t);
        AbsentNeverFires(Step(q, es[0]), es[1..], t.id, at + 1);
      } else {
        NotDueStays(q, es[0], t, at);
        OneShotExact(Step(q, es[0]), es[1..], t, at + 1);
      }
    }
  }

  /** The re-arming reading of a timer is not taken before the reading that drained it. */
  ghost predicate ClockNonDecreasing(es: seq<Event>) {
    forall e :: e in es && e.Fire? ==> forall i: nat :: e.now <= e.script(i).resetAt
  }

  ghost function Period(t: Timer): int
    requires t.interval.Some?
  {
    t.interval.value * TICKS_PER_MS
  }

  ghost predicate Spaced(f: seq<Mark>, from: int, period: int) {
    && (forall k :: 0 <= k < |f| ==> from + k * period <= f[k].now)
    && (forall k :: 0 < k < |f| ==> f[k - 1].now + period <= f[k].now)
  }

  lemma OneMoreFiring(m: Mark, f: seq<Mark>, from: int, next: int, period: int)
    requires from <= m.now && m.now + period <= next && Spaced(f, next, period)
    ensures Spaced([m] + f, from, period)
  {
    var g := [m] + f;
    forall k | 0 < k < |g| ensures from + k * period <= g[k].now && g[k - 1].now + period <= g[k].now {
      assert k * period == (k - 1) * period + period;
      assert next + (k - 1) * period <= f[k - 1].now;
      if k == 1 {
        assert next + 0 * period <= f[0].now;
      }
    }
  }

  lemma RearmedLater(q: Queue, e: Event, t: Timer) returns (t': Timer)
    requires Wf(q) && t in q.timers && t.interval.Some? && !t.canceled
    requires e.Fire? && t.exp <= e.now && forall i: nat :: e.now <= e.script(i).resetAt
    ensures t' in Step(q, e).timers && t' == t.(exp := t'.exp) && e.now + Period(t) <= t'.exp
  {
    var i := DueRepeatingReturns(q, e.now, e.script, t);
    t' := Reset(t, e.script(i).resetAt);
  }

  /**
   * The first firing of a repeating timer comes no earlier than its deadline, and
   * the k-th one after that no earlier than k periods later.
   */
  lemma {:induction false} RepeatRate(q: Queue, es: seq<Event>, t: Timer, at: nat)
    requires Wf(q) && t in q.timers && t.interval.Some? && !t.canceled && ClockNonDecreasing(es)
    ensures Spaced(Firings(q, es, t.id, at), t.exp, Period(t))
    decreases |es|
  {
    if es == [] {
    } else {
      var e, q' := es[0], Step(q, es[0]);
      StepKeeps(q, e);
      assert forall d :: d in es[1..] ==> d in es;
      if e.Fire? && t.exp <= e.now {
        DueFiresOnce(q, e.now, t, Mark(at, e.now));
        assert e in es;
        var t' := RearmedLater(q, e, t);
        RepeatRate(q', es[1..], t', at + 1);
        OneMoreFiring(Mark(at, e.now), Firings(q', es[1..], t.id, at + 1), t.exp, t'.exp, Period(t));
      } else {
        NotDueStays(q, e, t, at);
        RepeatRate(q', es[1..], t, at + 1);
        assert Firings(q, es, t.id, at) == Firings(q', es[1..], t.id, at + 1);
      }
    }
  }

  /** A repeating timer is never lost, and fires first in the first round that reaches its deadline. */
  lemma {:induction false} RepeatingStays(q: Queue, es: seq<Event>, t: Timer, at: nat)
    requires Wf(q) && t in q.timers && t.interval.Some?
    ensures HasId(Run(q, es).timers, t.id)
    ensures match FirstReaching(es, t.exp, at)
            case None => Firings(q, es, t.id, at) == []
            case Some(m) => Firings(q, es, t.id, at) != [] && Firings(q, es, t.id, at)[0] == m
    decreases |es|
  {
    if es == [] {
    } else {
      StepKeeps(q, es[0]);
      if es[0].Fire? && t.exp <= es[0].now {
        DueFiresOnce(q, es[0].now, t, Mark(at, es[0].now));
        var i := DueRepeatingReturns(q, es[0].now, es[0].script, t);
        RepeatingStays(Step(q, es[0]), es[1..], Reset(t, es[0].script(i).resetAt), at + 1);
      } else {
        NotDueStays(q, es[0], t, at);
        RepeatingStays(Step(q, es[0]), es[1..], t, at + 1);
      }
    }
  }

  lemma {:induction false} FirstReachingIs(es: seq<Event>, deadline: int, at: nat)
    requires FirstReaching(es, deadline, at).Some?
    ensures var m := FirstReaching(es, deadline, at).value;
            && at <= m.event < at + |es| && es[m.event - at].Fire?
            && es[m.event - at].now == m.now && deadline <= m.now
    decreases |es|
  {
    if !(es[0].Fire? && deadline <= es[0].now) {
      FirstReachingIs(es[1..], deadline, at + 1);
    }
  }

  /**
   * Timer `t` fires in event `k` of the run and not before; after that round it
   * is pending as `t'`, due one interval after a reading of that round, and its
   * remaining firings are those of the remaining run.
   */
  ghost predicate FiresNextIn(q: Queue, es: seq<Event>, t: Timer, at: nat, k: nat, t': Timer)
    requires t.interval.Some?
  {
    && k < |es| && es[k].Fire?
    && (exists i: nat :: Rearms(t, es[k].script(i).resetAt, t'))
    && Wf(Run(q, es[..k + 1])) && t' in Run(q, es[..k + 1]).timers
    && Firings(q, es, t.id, at)
       == [Mark(at + k, es[k].now)] + Firings(Run(q, es[..k + 1]), es[k + 1..], t.id, at + k + 1)
  }

  lemma FiresNow(q: Queue, es: seq<Event>, t: Timer, at: nat) returns (t': Timer)
    requires Wf(q) && t in q.timers && t.interval.Some? && es != [] && es[0].Fire? && t.exp <= es[0].now
    ensures FiresNextIn(q, es, t, at, 0, t')
  {
    var e := es[0];
    StepKeeps(q, e);
    DueFiresOnce(q, e.now, t, Mark(at, e.now));
    var i := RoundRearms(q, e.now, e.script, t);
    t' := Reset(t, e.script(i).resetAt);
    assert Rearms(t, e.script(i).resetAt, t');
    assert es[..1][0] == e && es[..1][1..] == [];
    assert Run(q, es[..1]) == Step(q, e);
  }

  lemma FiresLater(q: Queue, es: seq<Event>, t: Timer, at: nat, k: nat, t': Timer)
    requires Wf(q) && t in q.timers && t.interval.Some? && es != [] && (es[0].Fire? ==> es[0].now < t.exp)
    requires FiresNextIn(Step(q, es[0]), es[1..], t, at + 1, k, t')
    ensures FiresNextIn(q, es, t, at, k + 1, t')
  {
    NotDueStays(q, es[0], t, at);
    RunLater(q, es, k);
    var q' := Step(q, es[0]);
    assert Firings(q, es, t.id, at) == Firings(q', es[1..], t.id, at + 1);
    assert es[1..][k] == es[k + 1];
  }

  lemma RunLater(q: Queue, es: seq<Event>, k: nat)
    requires k + 1 < |es|
    ensures Run(q, es[..k + 2]) == Run(Step(q, es[0]), es[1..][..k + 1])
    ensures es[1..][k + 1..] == es[k + 2..]
  {
    var front := es[..k + 2];
    assert front[0] == es[0] && front[1..] == es[1..][..k + 1];
  }

  /**
   * Every firing of a repeating timer, not only the first, is in the first round
   * reaching the deadline it then has: the first is, and the rest are those of
   * `t'`, of which the same holds.
   */
  lemma RepeatingNext(q: Queue, es: seq<Event>, t: Timer, at: nat) returns (t': Timer)
    requires Wf(q) && t in q.timers && t.interval.Some? && FirstReaching(es, t.exp, at).Some?
    ensures at <= FirstReaching(es, t.exp, at).value.event
    ensures FiresNextIn(q, es, t, at, FirstReaching(es, t.exp, at).value.event - at, t')
  {
    FirstReachingIs(es, t.exp, at);
    t' := FiresAfter(q, es, t, at, FirstReaching(es, t.exp, at).value.event - at);
  }

  lemma {:induction false} FiresAfter(q: Queue, es: seq<Event>, t: Timer, at: nat, k: nat) returns (t': Timer)
    requires Wf(q) && t in q.timers && t.interval.Some? && k < |es| && es[k].Fire?
    requires FirstReaching(es, t.exp, at) == Some(Mark(at + k, es[k].now))
    ensures FiresNextIn(q, es, t, at, k, t')
    decreases k
  {
    NotBefore(es, t.exp, at);
    if k == 0 {
      t' := FiresNow(q, es, t, at);
    } else {
      var q' := StillPending(q, es[0], t);
      t' := FiresAfter(q', es[1..], t, at + 1, k - 1);
      FiresLater(q, es, t, at, k - 1, t');
    }
  }

  /** The first round reaching a deadline is the next event or is found behind it. */
  lemma NotBefore(es: seq<Event>, deadline: int, at: nat)
    requires FirstReaching(es, deadline, at).Some?
    ensures var m := FirstReaching(es, deadline, at).value;
            if m.event == at then es[0].Fire? && deadline <= es[0].now
            else (es[0].Fire? ==> es[0].now < deadline) && FirstReaching(es[1..], deadline, at + 1) == Some(m)
  {
    if !(es[0].Fire? && deadline <= es[0].now) {
      FirstReachingIs(es[1..], deadline, at + 1);
    }
  }

  lemma StillPending(q: Queue, e: Event, t: Timer) returns (q': Queue)
    requires Wf(q) && t in q.timers && (e.Fire? ==> e.now < t.exp)
    ensures q' == Step(q, e) && Wf(q') && t in q'.timers
  {
    q' := Step(q, e);
    StepKeeps(q, e);
    NotDueStays(q, e, t, 0);
  }

  /** Registered at reading `s`, a repeating timer has fired at most (T - s) / period times by time T. */
  lemma RepeatCount(q: Queue, es: seq<Event>, t: Timer, s: int, end: int)
    requires Wf(q) && t in q.timers && t.interval.Some? && !t.canceled && ClockNonDecreasing(es)
    requires t.exp == s + Period(t) && s <= end
    requires forall e :: e in es && e.Fire? ==> e.now <= end
    ensures |Firings(q, es, t.id, 0)| * Period(t) <= end - s
  {
    var f := Firings(q, es, t.id, 0);
    RepeatRate(q, es, t, 0);
    FiringsHappenInRounds(q, es, t.id, 0, end);
    if f != [] {
      CountFromLast(|f|, Period(t), s, f[|f| - 1].now);
    }
  }

  lemma CountFromLast(n: nat, period: int, s: int, last: int)
    requires 0 < n && s + period + (n - 1) * period <= last
    ensures n * period <= last - s
  {
    assert n * period == (n - 1) * period + period;
  }

  lemma {:induction false} FiringsHappenInRounds(q: Queue, es: seq<Event>, id: nat, at: nat, end: int)
    requires Wf(q)
    requires forall e :: e in es && e.Fire? ==> e.now <= end
    ensures forall m :: m in Firings(q, es, id, at) ==> m.now <= end
    decreases |es|
  {
    if es == [] {
    } else {
      StepKeeps(q, es[0]);
      if es[0].Fire? {
        DueApart(q, es[0].now);
        MarksOf(Due(q.timers, es[0].now), id, Mark(at, es[0].now));
      }
      FiringsHappenInRounds(Step(q, es[0]), es[1..], id, at + 1, end);
    }
  }

  // Cancellation

  ghost predicate NoneCanceled(ts: seq<Timer>) {
    forall t :: t in ts ==> !t.canceled
  }

  lemma {:induction false} AddedAreLive(nextId: nat, reqs: seq<Request>)
    ensures NoneCanceled(Added(nextId, reqs))
    decreases |reqs|
  {
    if reqs == [] {
    } else {
      AddedAreLive(nextId + reqs[0].gap + 1, reqs[1..]);
    }
  }

  lemma {:induction false} SpawnedAreLive(batch: seq<Timer>, nextId: nat, script: Script, i: nat)
    ensures NoneCanceled(Spawned(batch, nextId, script, i))
    decreases |batch|
  {
    if batch == [] {
    } else {
      AddedAreLive(nextId, script(i).requests);
      SpawnedAreLive(batch[1..], NextAfter(nextId, script(i).requests), script, i + 1);
    }
  }

  /** Neither registration nor firing ever cancels a timer. */
  lemma {:induction false} RunCancelsNone(q: Queue, es: seq<Event>)
    requires Wf(q) && NoneCanceled(q.timers)
    ensures NoneCanceled(Run(q, es).timers)
    decreases |es|
  {
    if es == [] {
    } else {
      StepKeeps(q, es[0]);
      StepCancelsNone(q, es[0]);
      RunCancelsNone(Step(q, es[0]), es[1..]);
    }
  }

  lemma StepCancelsNone(q: Queue, e: Event)
    requires Wf(q) && NoneCanceled(q.timers)
    ensures NoneCanceled(Step(q, e).timers)
  {
    match e {
      case Add(req) => InsertContents(q.timers, Make(req, q.nextId + req.gap));
      case Fire(now, script) => RoundCancelsNone(q, now, script);
    }
  }

  lemma RoundCancelsNone(q: Queue, now: int, script: Script)
    requires Wf(q) && NoneCanceled(q.timers)
    ensures NoneCanceled(Round(q, now, script).timers)
  {
    var due, ts := Due(q.timers, now), Round(q, now, script).timers;
    RoundConserves(q, now, script);
    DrainExact(q.timers, now);
    RearmedComeFromBatch(due, script, 0);
    SpawnedAreLive(due, q.nextId, script, 0);
    forall u | u in ts ensures !u.canceled {
      assert u in multiset(ts);
      assert u in multiset(Rest(q.timers, now)) || u in Rearmed(due, script, 0)
          || u in Spawned(due, q.nextId, script, 0);
    }
  }

  function RoundsIn(es: seq<Event>): nat {
    if es == [] then 0 else (if es[0].Fire? then 1 else 0) + RoundsIn(es[1..])
  }

  /** What is left of the run from the first round reaching `deadline` on. */
  function FromReaching(es: seq<Event>, deadline: int): seq<Event> {
    if es == [] || (es[0].Fire? && deadline <= es[0].now) then es else FromReaching(es[1..], deadline)
  }

  /**
   * What `cancel` would do to a repeating timer, whatever its deadline: it still
   * fires in the first round reaching that, and then in every single round, its
   * deadline having been reset to the epoch.
   */
  lemma {:induction false} CanceledFiresEveryRound(q: Queue, es: seq<Event>, t: Timer, at: nat)
    requires Wf(q) && t in q.timers && t.interval.Some? && t.canceled
    requires forall e :: e in es && e.Fire? ==> EPOCH <= e.now
    ensures |Firings(q, es, t.id, at)| == RoundsIn(FromReaching(es, t.exp))
    decreases |es|
  {
    if es == [] {
    } else {
      var e := es[0];
      StepKeeps(q, e);
      assert forall d :: d in es[1..] ==> d in es;
      if e.Fire? && t.exp <= e.now {
        DueFiresOnce(q, e.now, t, Mark(at, e.now));
        var i := DueRepeatingReturns(q, e.now, e.script, t);
        CanceledFiresEveryRound(Step(q, e), es[1..], Reset(t, e.script(i).resetAt), at + 1);
        AllReachEpoch(es[1..]);
      } else {
        NotDueStays(q, e, t, at);
        CanceledFiresEveryRound(Step(q, e), es[1..], t, at + 1);
      }
    }
  }

  lemma {:induction false} AllReachEpoch(es: seq<Event>)
    requires forall e :: e in es && e.Fire? ==> EPOCH <= e.now
    ensures RoundsIn(FromReaching(es, EPOCH)) == RoundsIn(es)
  {
    if es == [] {
    } else {
      assert es[0] in es;
      assert forall d :: d in es[1..] ==> d in es;
      AllReachEpoch(es[1..]);
    }
  }
}
