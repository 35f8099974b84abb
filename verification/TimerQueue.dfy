/**
 * `Timer`, `TimerId`'s counter and `TimerQueue` as mutable objects. The queue
 * owns its timers; a timer's deadline changes only while it is out of the queue.
 */
module TimerQueues {
  import opened Wrappers
  import Sleep
  import Spec = TimerSpec

  /** The process-wide `gId_`; `elsewhere` counts the ids other loops took meanwhile. */
  class TimerIds {
    var next: nat

    method FetchAdd(elsewhere: nat) returns (id: nat)
      modifies this
      ensures id == old(next) + elsewhere && next == id + 1
    {
      id := next + elsewhere;
      next := id + 1;
    }
  }

  class Timer {
    const id: nat
    const interval: Option<Spec.Interval>
    var expTime: int
    var canceled: bool

    function Value(): Spec.Timer
      reads this
    {
      Spec.Timer(id, expTime, interval, canceled)
    }

    constructor (id: nat, expTime: int, interval: Option<Spec.Interval>)
      ensures Value() == Spec.Timer(id, expTime, interval, false)
    {
      this.id, this.expTime, this.interval, canceled := id, expTime, interval, false;
    }

    method Reset(now: int)
      modifies this`expTime
      ensures expTime == if interval.Some? && !canceled then now + interval.value * Spec.TICKS_PER_MS else Spec.EPOCH
      ensures Value() == Spec.Reset(old(Value()), now)
    {
      if interval.Some? && !canceled {
        expTime := now + interval.value * Spec.TICKS_PER_MS;
      } else {
        expTime := Spec.EPOCH;
      }
    }

    method Cancel()
      modifies this`canceled
      ensures Value() == old(Value()).(canceled := true)
    {
      canceled := true;
    }
  }

  function Values(ts: seq<Timer>): (vs: seq<Spec.Timer>)
    reads ts
    ensures |vs| == |ts| && forall i :: 0 <= i < |ts| ==> vs[i] == ts[i].Value()
  {
    seq(|ts|, i requires 0 <= i < |ts| reads ts => ts[i].Value())
  }

  lemma QueuedHasId(ts: seq<Timer>, t: Timer)
    requires t in ts
    ensures Spec.HasId(Values(ts), t.id)
  {
    var i :| 0 <= i < |ts| && ts[i] == t;
    assert Values(ts)[i] in Values(ts);
  }

  lemma ValuesSlice(ts: seq<Timer>, lo: nat, hi: nat)
    requires lo <= hi <= |ts|
    ensures Values(ts[lo..hi]) == Values(ts)[lo..hi]
  {
  }

  lemma ValuesConcat(a: seq<Timer>, b: seq<Timer>)
    ensures Values(a + b) == Values(a) + Values(b)
  {
  }

  lemma ValuesInsert(ts: seq<Timer>, t: Timer, p: nat)
    requires p <= |ts|
    ensures Values(ts[..p] + [t] + ts[p..]) == Values(ts)[..p] + [t.Value()] + Values(ts)[p..]
    ensures forall u :: u in ts[..p] + [t] + ts[p..] <==> u == t || u in ts
  {
    assert ts == ts[..p] + ts[p..];
  }

  class TimerQueue {
    var timers: seq<Timer>
    const ids: TimerIds

    ghost function View(): Spec.Queue
      reads this, ids, timers
    {
      Spec.Queue(Values(timers), ids.next)
    }

    ghost predicate Valid()
      reads this, ids, timers
    {
      Spec.Wf(View())
    }

    constructor (ids: TimerIds)
      ensures Valid() && timers == [] && this.ids == ids
    {
      timers := [];
      this.ids := ids;
    }

    /** Its assertion, that no equivalent timer is queued yet, follows from the id being a new one. */
    method AddTimer(t: Timer)
      requires !Spec.HasId(View().timers, t.id)
      modifies this`timers
      ensures View() == old(View()).(timers := Spec.Insert(old(View().timers), t.Value()))
      ensures forall u :: u in timers <==> u == t || u in old(timers)
    {
      assert forall u :: u in View().timers ==> Spec.Less(u, t.Value()) || Spec.Less(t.Value(), u);
      InsertTimer(t);
    }

    /** `std::multiset::insert` */
    method InsertTimer(t: Timer)
      modifies this`timers
      ensures Values(timers) == Spec.Insert(old(Values(timers)), t.Value())
      ensures forall u :: u in timers <==> u == t || u in old(timers)
    {
      var p := Spec.UpperBound(Values(timers), t.Value());
      ValuesInsert(timers, t, p);
      timers := timers[..p] + [t] + timers[p..];
    }

    /** A new timer made for request `req` against the queue `q` enters it. */
    method Enter(t: Timer, ghost req: Spec.Request, ghost q: Spec.Queue)
      requires t.Value() == Spec.Make(req, q.nextId + req.gap)
      requires Values(timers) == q.timers && ids.next == q.nextId + req.gap + 1
      modifies this`timers
      ensures View() == Spec.Register(q, req)
      ensures forall u :: u in timers <==> u == t || u in old(timers)
    {
      InsertTimer(t);
    }

    method RunUntil(gap: nat, exp: int)
      modifies this`timers, ids
      ensures View() == Spec.Register(old(View()), Spec.RunUntil(gap, exp))
      ensures forall u :: u in timers && u !in old(timers) ==> fresh(u)
    {
      ghost var q := View();
      var id := ids.FetchAdd(gap);
      var t := new Timer(id, exp, None);
      Enter(t, Spec.RunUntil(gap, exp), q);
    }

    method RunAfter(gap: nat, now: int, ms: int)
      modifies this`timers, ids
      ensures View() == Spec.Register(old(View()), Spec.RunAfter(gap, now, ms))
      ensures forall u :: u in timers && u !in old(timers) ==> fresh(u)
    {
      RunUntil(gap, now + ms * Spec.TICKS_PER_MS);
    }

    method RunEvery(gap: nat, now: int, period: Spec.Interval)
      modifies this`timers, ids
      ensures View() == Spec.Register(old(View()), Spec.RunEvery(gap, now, period))
      ensures forall u :: u in timers && u !in old(timers) ==> fresh(u)
    {
      ghost var q := View();
      var id := ids.FetchAdd(gap);
      var t := new Timer(id, now + period * Spec.TICKS_PER_MS, Some(period));
      Enter(t, Spec.RunEvery(gap, now, period), q);
    }

    method RegisterOne(req: Spec.Request)
      modifies this`timers, ids
      ensures View() == Spec.Register(old(View()), req)
      ensures forall u :: u in timers && u !in old(timers) ==> fresh(u)
    {
      match req {
        case RunUntil(gap, exp) => RunUntil(gap, exp);
        case RunAfter(gap, now, ms) => RunAfter(gap, now, ms);
        case RunEvery(gap, now, period) => RunEvery(gap, now, period);
      }
    }

    method GetNextExpiredTime() returns (next: int)
      requires Valid()
      ensures next == Sleep.NextExpired(View().timers)
      ensures timers == [] ==> next == Spec.EPOCH
      ensures timers != [] ==> (exists t :: t in timers && t.expTime == next)
      ensures forall t :: t in timers ==> next <= t.expTime
    {
      if timers == [] {
        return Spec.EPOCH;
      }
      next := timers[0].expTime;
      Sleep.NextIsEarliest(View().timers);
      forall t | t in timers ensures next <= t.expTime {
        var i :| 0 <= i < |timers| && timers[i] == t;
        assert View().timers[i] in View().timers;
      }
    }

    /** The drain loop: the front timers that are due move behind `expired`. */
    method DrainFront(expired: seq<Timer>, now: int) returns (r: seq<Timer>, ghost k: nat)
      modifies this`timers
      ensures k <= |old(timers)| && timers == old(timers)[k..] && r == expired + old(timers)[..k]
      ensures forall i :: 0 <= i < k ==> old(timers)[i].expTime <= now
      ensures k < |old(timers)| ==> now < old(timers)[k].expTime
    {
      r, k := expired, 0;
      while timers != [] && timers[0].expTime <= now
        invariant 0 <= k <= |old(timers)|
        invariant timers == old(timers)[k..] && r == expired + old(timers)[..k]
        invariant forall i :: 0 <= i < k ==> old(timers)[i].expTime <= now
        decreases |timers|
      {
        r := r + [timers[0]];
        timers := timers[1..];
        k := k + 1;
      }
    }

    /** Takes out what is due at the one reading `now`, in order, leaving the rest. */
    method GetExpiredTimes(expired: seq<Timer>, now: int) returns (r: seq<Timer>)
      modifies this`timers
      ensures var k := Spec.DueCount(old(View()).timers, now);
              r == expired + old(timers)[..k] && timers == old(timers)[k..]
      ensures Values(r) == old(Values(expired)) + Spec.Due(old(View()).timers, now)
      ensures View() == old(View()).(timers := Spec.Rest(old(View()).timers, now))
    {
      ghost var all, q := timers, View();
      ghost var k;
      r, k := DrainFront(expired, now);
      DueCountIs(q.timers, now, k);
      ValuesSlice(all, k, |all|);
      ValuesSlice(all, 0, k);
      ValuesConcat(expired, all[0..k]);
    }
  }

  lemma {:induction false} DueCountIs(ts: seq<Spec.Timer>, now: int, k: nat)
    requires k <= |ts| && forall i :: 0 <= i < k ==> ts[i].exp <= now
    requires k < |ts| ==> now < ts[k].exp
    ensures Spec.DueCount(ts, now) == k
  {
    var d := Spec.DueCount(ts, now);
  }
}
