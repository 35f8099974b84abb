/**
 * The timer scheduler on values: timers ordered by (deadline, id), the firing
 * round of `EventLoop::execExpiredTimesTask`, and what holds over all runs of
 * registrations and rounds. Times are ticks of the system clock (nanoseconds)
 * relative to the epoch; intervals are whole milliseconds.
 */
module TimerSpec {
  import opened Wrappers

  const TICKS_PER_MS: int := 1_000_000
  /** `Timestamp {}` */
  const EPOCH: int := 0

  /** The (expTime, interval) constructor asserts a positive interval. */
  type Interval = i: int | 0 < i witness 1

  /** `interval` is None for a one-shot timer. */
  datatype Timer = Timer(id: nat, exp: int, interval: Option<Interval>, canceled: bool)

  predicate Less(a: Timer, b: Timer) {
    a.exp < b.exp || (a.exp == b.exp && a.id < b.id)
  }

  /** The live queue and the global id counter. */
  datatype Queue = Queue(timers: seq<Timer>, nextId: nat)

  ghost predicate Sorted(ts: seq<Timer>) {
    forall i, j :: 0 <= i < j < |ts| ==> Less(ts[i], ts[j])
  }

  ghost predicate DistinctIds(ts: seq<Timer>) {
    forall i, j :: 0 <= i < j < |ts| ==> ts[i].id != ts[j].id
  }

  ghost predicate IdsBelow(ts: seq<Timer>, n: nat) {
    forall t :: t in ts ==> t.id < n
  }

  ghost predicate Wf(q: Queue) {
    Sorted(q.timers) && DistinctIds(q.timers) && IdsBelow(q.timers, q.nextId)
  }

  ghost predicate HasId(ts: seq<Timer>, id: nat) {
    exists t :: t in ts && t.id == id
  }

  // Insertion and extraction

  /** Where `std::multiset::insert` puts an element: behind everything not greater. */
  function UpperBound(ts: seq<Timer>, t: Timer): (p: nat)
    ensures p <= |ts|
    ensures forall i :: 0 <= i < p ==> !Less(t, ts[i])
    ensures p < |ts| ==> Less(t, ts[p])
  {
    if ts == [] || Less(t, ts[0]) then 0 else 1 + UpperBound(ts[1..], t)
  }

  function Insert(ts: seq<Timer>, t: Timer): seq<Timer> {
    var p := UpperBound(ts, t);
    ts[..p] + [t] + ts[p..]
  }

  lemma LessIsStrictTotal(a: Timer, b: Timer, c: Timer)
    ensures !Less(a, a)
    ensures Less(a, b) && Less(b, c) ==> Less(a, c)
    ensures a.id != b.id ==> Less(a, b) != Less(b, a)
  {
  }

  lemma InsertContents(ts: seq<Timer>, t: Timer)
    ensures multiset(Insert(ts, t)) == multiset(ts) + multiset{t}
    ensures forall u :: u in Insert(ts, t) <==> u == t || u in ts
  {
    var p := UpperBound(ts, t);
    assert ts == ts[..p] + ts[p..];
  }

  /** Inserting a timer with an id of its own keeps the queue strictly ordered. */
  lemma InsertKeepsOrder(ts: seq<Timer>, t: Timer, n: nat)
    requires Sorted(ts) && DistinctIds(ts) && IdsBelow(ts, n) && t.id < n
    requires !HasId(ts, t.id)
    ensures Wf(Queue(Insert(ts, t), n))
  {
    var p := UpperBound(ts, t);
    var r := Insert(ts, t);
    InsertContents(ts, t);
    forall i | 0 <= i < |ts| ensures ts[i].id != t.id {
      assert ts[i] in ts;
    }
    forall i, j | 0 <= i < j < |r| ensures Less(r[i], r[j]) && r[i].id != r[j].id {
      InsertedInOrder(ts, t, i, j);
    }
  }

  lemma InsertedInOrder(ts: seq<Timer>, t: Timer, i: nat, j: nat)
    requires Sorted(ts) && DistinctIds(ts) && i < j <= |ts|
    requires forall k :: 0 <= k < |ts| ==> ts[k].id != t.id
    ensures Less(Insert(ts, t)[i], Insert(ts, t)[j]) && Insert(ts, t)[i].id != Insert(ts, t)[j].id
  {
    var p := UpperBound(ts, t);
    var i', j' := if i < p then i else i - 1, if j < p then j else j - 1;
    if i == p {
      assert Insert(ts, t)[i] == t && Insert(ts, t)[j] == ts[j'];
      LessIsStrictTotal(t, ts[p], ts[j']);
    } else if j == p {
      assert Insert(ts, t)[i] == ts[i'] && Insert(ts, t)[j] == t;
      LessIsStrictTotal(t, ts[i'], t);
    } else {
      assert Insert(ts, t)[i] == ts[i'] && Insert(ts, t)[j] == ts[j'];
    }
  }

  /** How many timers at the front of the queue are due. */
  function DueCount(ts: seq<Timer>, now: int): (k: nat)
    ensures k <= |ts|
    ensures forall i :: 0 <= i < k ==> ts[i].exp <= now
    ensures k < |ts| ==> now < ts[k].exp
  {
    if ts == [] || now < ts[0].exp then 0 else 1 + DueCount(ts[1..], now)
  }

  function Due(ts: seq<Timer>, now: int): seq<Timer> {
    ts[..DueCount(ts, now)]
  }

  function Rest(ts: seq<Timer>, now: int): seq<Timer> {
    ts[DueCount(ts, now)..]
  }

  /**
   * What is drained is exactly what is due, earlier deadlines first and, of equal
   * ones, the timer registered first; what stays is not due.
   */
  lemma DrainExact(ts: seq<Timer>, now: int)
    requires Sorted(ts)
    ensures multiset(Due(ts, now)) + multiset(Rest(ts, now)) == multiset(ts)
    ensures Sorted(Due(ts, now)) && Sorted(Rest(ts, now))
    ensures var due := Due(ts, now);
            forall i, j :: 0 <= i < j < |due| ==>
              due[i].exp < due[j].exp || (due[i].exp == due[j].exp && due[i].id < due[j].id)
    ensures forall t :: t in Due(ts, now) <==> t in ts && t.exp <= now
    ensures forall t :: t in Rest(ts, now) <==> t in ts && now < t.exp
  {
    DrainSplits(ts, now);
    DrainSorted(ts, now);
    DueMembers(ts, now);
    RestMembers(ts, now);
  }

  lemma DrainSplits(ts: seq<Timer>, now: int)
    ensures multiset(Due(ts, now)) + multiset(Rest(ts, now)) == multiset(ts)
  {
    assert ts == Due(ts, now) + Rest(ts, now);
    MultisetOfConcat(Due(ts, now), Rest(ts, now));
  }

  lemma DrainSorted(ts: seq<Timer>, now: int)
    requires Sorted(ts)
    ensures Sorted(Due(ts, now)) && Sorted(Rest(ts, now))
  {
  }

  /** Behind the first timer that is not due none is. */
  lemma NotDueBehind(ts: seq<Timer>, now: int, i: nat)
    requires Sorted(ts) && i < |ts|
    ensures ts[i].exp <= now <==> i < DueCount(ts, now)
  {
    var k := DueCount(ts, now);
    if k < i {
      assert Less(ts[k], ts[i]);
    }
  }

  lemma DueMembers(ts: seq<Timer>, now: int)
    requires Sorted(ts)
    ensures forall t :: t in Due(ts, now) <==> t in ts && t.exp <= now
  {
    forall t | t in ts && t.exp <= now ensures t in Due(ts, now) {
      var i :| 0 <= i < |ts| && ts[i] == t;
      NotDueBehind(ts, now, i);
      assert Due(ts, now)[i] == t;
    }
  }

  lemma RestMembers(ts: seq<Timer>, now: int)
    requires Sorted(ts)
    ensures forall t :: t in Rest(ts, now) <==> t in ts && now < t.exp
  {
    var k := DueCount(ts, now);
    forall t ensures t in Rest(ts, now) <==> t in ts && now < t.exp {
      if t in ts && now < t.exp {
        var i :| 0 <= i < |ts| && ts[i] == t;
        NotDueBehind(ts, now, i);
        assert ts[k..][i - k] == t;
      }
      if t in ts[k..] {
        var i :| 0 <= i < |ts[k..]| && ts[k..][i] == t;
        NotDueBehind(ts, now, k + i);
      }
    }
  }

  // Registration

  /**
   * `gap` counts the ids the process-wide counter hands to other queues first.
   * `now` is the clock reading the registering function takes.
   */
  datatype Request =
    | RunUntil(gap: nat, exp: int)
    | RunAfter(gap: nat, now: int, ms: int)
    | RunEvery(gap: nat, now: int, period: Interval)

  /** The call `req` makes, as made when the clock shows `now`. */
  function At(req: Request, now: int): Request {
    match req
    case RunUntil(gap, exp) => RunUntil(gap, exp)
    case RunAfter(gap, _, ms) => RunAfter(gap, now, ms)
    case RunEvery(gap, _, period) => RunEvery(gap, now, period)
  }

  /** The same function called with the same arguments, whenever. */
  predicate SameCall(a: Request, b: Request) {
    match a
    case RunUntil(_, exp) => b.RunUntil? && b.exp == exp
    case RunAfter(_, _, ms) => b.RunAfter? && b.ms == ms
    case RunEvery(_, _, period) => b.RunEvery? && b.period == period
  }

  function Make(req: Request, id: nat): Timer {
    match req
    case RunUntil(_, exp) => Timer(id, exp, None, false)
    case RunAfter(_, now, ms) => Timer(id, now + ms * TICKS_PER_MS, None, false)
    case RunEvery(_, now, period) => Timer(id, now + period * TICKS_PER_MS, Some(period), false)
  }

  function Register(q: Queue, req: Request): Queue {
    var id := q.nextId + req.gap;
    Queue(Insert(q.timers, Make(req, id)), id + 1)
  }

  function RegisterAll(q: Queue, reqs: seq<Request>): Queue
    decreases |reqs|
  {
    if reqs == [] then q else RegisterAll(Register(q, reqs[0]), reqs[1..])
  }

  lemma RegisterAllFrom(q: Queue, reqs: seq<Request>, i: nat)
    requires i < |reqs|
    ensures RegisterAll(q, reqs[i..]) == RegisterAll(Register(q, reqs[i]), reqs[i + 1..])
  {
    assert reqs[i..][1..] == reqs[i + 1..];
  }

  /** The first timer of a batch fires, then the rest of them. */
  lemma FireAllFrom(batch: seq<Timer>, q: Queue, script: Script, i: nat)
    requires i < |batch|
    ensures FireAll(batch[i..], q, script, i) == FireAll(batch[i + 1..], FireOne(batch[i], q, script(i)), script, i + 1)
  {
    assert batch[i..][0] == batch[i] && batch[i..][1..] == batch[i + 1..];
  }

  /** The timers `RegisterAll` adds, in registration order. */
  function Added(nextId: nat, reqs: seq<Request>): seq<Timer>
    decreases |reqs|
  {
    if reqs == [] then []
    else [Make(reqs[0], nextId + reqs[0].gap)] + Added(nextId + reqs[0].gap + 1, reqs[1..])
  }

  function NextAfter(nextId: nat, reqs: seq<Request>): nat
    decreases |reqs|
  {
    if reqs == [] then nextId else NextAfter(nextId + reqs[0].gap + 1, reqs[1..])
  }

  // Firing

  /** What one callback does to the queue, and the clock reading `reset` takes afterwards. */
  datatype Firing = Firing(requests: seq<Request>, resetAt: int)

  /** The callbacks of one round, by position in the drained batch. */
  type Script = nat -> Firing

  function Reset(t: Timer, now: int): Timer {
    if t.interval.Some? && !t.canceled then t.(exp := now + t.interval.value * TICKS_PER_MS)
    else t.(exp := EPOCH)
  }

  function FireOne(t: Timer, q: Queue, f: Firing): Queue {
    var q' := RegisterAll(q, f.requests);
    if t.interval.Some? then q'.(timers := Insert(q'.timers, Reset(t, f.resetAt))) else q'
  }

  function FireAll(batch: seq<Timer>, q: Queue, script: Script, i: nat): Queue
    decreases |batch|
  {
    if batch == [] then q else FireAll(batch[1..], FireOne(batch[0], q, script(i)), script, i + 1)
  }

  function Round(q: Queue, now: int, script: Script): Queue {
    FireAll(Due(q.timers, now), q.(timers := Rest(q.timers, now)), script, 0)
  }

  /** Repeating timers of a batch as they go back into the queue. */
  function Rearmed(batch: seq<Timer>, script: Script, i: nat): seq<Timer>
    decreases |batch|
  {
    if batch == [] then []
    else (if batch[0].interval.Some? then [Reset(batch[0], script(i).resetAt)] else [])
         + Rearmed(batch[1..], script, i + 1)
  }

  /** Everything the callbacks of a batch register. */
  function Spawned(batch: seq<Timer>, nextId: nat, script: Script, i: nat): seq<Timer>
    decreases |batch|
  {
    if batch == [] then []
    else Added(nextId, script(i).requests)
         + Spawned(batch[1..], NextAfter(nextId, script(i).requests), script, i + 1)
  }

  // What registration and firing keep

  lemma RegisterKeeps(q: Queue, req: Request)
    requires Wf(q)
    ensures Wf(Register(q, req)) && q.nextId < Register(q, req).nextId
  {
    var id := q.nextId + req.gap;
    var t := Make(req, id);
    InsertKeepsOrder(q.timers, t, id + 1);
    assert Register(q, req) == Queue(Insert(q.timers, t), id + 1);
  }

  lemma {:induction false} RegisterAllKeeps(q: Queue, reqs: seq<Request>)
    requires Wf(q)
    ensures Wf(RegisterAll(q, reqs)) && q.nextId <= RegisterAll(q, reqs).nextId
    decreases |reqs|
  {
    if reqs == [] {
    } else {
      RegisterKeeps(q, reqs[0]);
      RegisterAllKeeps(Register(q, reqs[0]), reqs[1..]);
    }
  }

  lemma RegisterContents(q: Queue, req: Request)
    ensures multiset(Register(q, req).timers) == multiset(q.timers) + multiset{Make(req, q.nextId + req.gap)}
  {
    var t := Make(req, q.nextId + req.gap);
    var r := Insert(q.timers, t);
    InsertContents(q.timers, t);
    assert multiset(r) == multiset(q.timers) + multiset{t};
    assert Register(q, req).timers == r;
  }

  lemma LaterAdded(nextId: nat, reqs: seq<Request>, nextId': nat, t: Timer) returns (later: multiset<Timer>)
    requires reqs != [] && nextId' == nextId + reqs[0].gap + 1 && t == Make(reqs[0], nextId + reqs[0].gap)
    ensures later == multiset(Added(nextId', reqs[1..])) && multiset(Added(nextId, reqs)) == multiset{t} + later
  {
    later := multiset(Added(nextId', reqs[1..]));
    MultisetOfConcat([t], Added(nextId', reqs[1..]));
    assert multiset([t]) == multiset{t};
  }

  /** Registering adds exactly the requested timers. */
  lemma {:induction false} RegisterAllContents(q: Queue, reqs: seq<Request>)
    ensures multiset(RegisterAll(q, reqs).timers) == multiset(q.timers) + multiset(Added(q.nextId, reqs))
    decreases |reqs|
  {
    if reqs == [] {
      assert Added(q.nextId, reqs) == [];
    } else {
      var q', t := RegisterFirst(q, reqs);
      var later := LaterAdded(q.nextId, reqs, q'.nextId, t);
      RegisterAllContents(q', reqs[1..]);
      Regroup(multiset(RegisterAll(q', reqs[1..]).timers), multiset(q'.timers), later, multiset(q.timers), t,
              multiset(Added(q.nextId, reqs)));
    }
  }

  /** Where the first registration leads, and what it adds. */
  lemma RegisterFirst(q: Queue, reqs: seq<Request>) returns (q': Queue, t: Timer)
    requires reqs != []
    ensures RegisterAll(q, reqs) == RegisterAll(q', reqs[1..])
    ensures q'.nextId == q.nextId + reqs[0].gap + 1 && t == Make(reqs[0], q.nextId + reqs[0].gap)
    ensures multiset(q'.timers) == multiset(q.timers) + multiset{t}
  {
    q', t := Register(q, reqs[0]), Make(reqs[0], q.nextId + reqs[0].gap);
    RegisterContents(q, reqs[0]);
  }

  lemma Regroup(end: multiset<Timer>, first: multiset<Timer>, later: multiset<Timer>,
                held: multiset<Timer>, t: Timer, all: multiset<Timer>)
    requires end == first + later && first == held + multiset{t} && all == multiset{t} + later
    ensures end == held + all
  {
  }

  lemma {:induction false} RegisterAllNextId(q: Queue, reqs: seq<Request>)
    ensures RegisterAll(q, reqs).nextId == NextAfter(q.nextId, reqs)
    decreases |reqs|
  {
    if reqs == [] {
    } else {
      RegisterAllNextId(Register(q, reqs[0]), reqs[1..]);
    }
  }

  /** Each request becomes a timer of its own. */
  lemma {:induction false} RequestIsAdded(nextId: nat, reqs: seq<Request>, i: nat) returns (id: nat)
    requires i < |reqs|
    ensures Make(reqs[i], id) in Added(nextId, reqs)
    decreases |reqs|
  {
    if i == 0 {
      id := nextId + reqs[0].gap;
    } else {
      id := RequestIsAdded(nextId + reqs[0].gap + 1, reqs[1..], i - 1);
    }
  }

  /** Which is live, one-shot unless a period was asked for, and due when the caller said. */
  /** Ids are handed out in the order of registration. */
  lemma {:induction false} AddedInOrder(nextId: nat, reqs: seq<Request>, i: nat, j: nat)
    requires i < j < |reqs|
    ensures |Added(nextId, reqs)| == |reqs| && Added(nextId, reqs)[i].id < Added(nextId, reqs)[j].id
    decreases |reqs|
  {
    AddedLength(nextId, reqs);
    if i == 0 {
      var next := nextId + reqs[0].gap + 1;
      AddedLength(next, reqs[1..]);
      AddedIdsAreNew(next, reqs[1..]);
      assert Added(next, reqs[1..])[j - 1] in Added(next, reqs[1..]);
    } else {
      AddedInOrder(nextId + reqs[0].gap + 1, reqs[1..], i - 1, j - 1);
    }
  }

  lemma {:induction false} AddedLength(nextId: nat, reqs: seq<Request>)
    ensures |Added(nextId, reqs)| == |reqs|
    decreases |reqs|
  {
    if reqs != [] {
      AddedLength(nextId + reqs[0].gap + 1, reqs[1..]);
    }
  }

  lemma RequestIsQueued(q: Queue, reqs: seq<Request>, i: nat) returns (t: Timer)
    requires i < |reqs|
    ensures t in RegisterAll(q, reqs).timers && !t.canceled
    ensures reqs[i].RunUntil? ==> t.interval.None? && t.exp == reqs[i].exp
    ensures reqs[i].RunAfter? ==> t.interval.None? && t.exp == reqs[i].now + reqs[i].ms * TICKS_PER_MS
    ensures reqs[i].RunEvery? ==>
              t.interval == Some(reqs[i].period) && t.exp == reqs[i].now + reqs[i].period * TICKS_PER_MS
  {
    var id := RequestIsAdded(q.nextId, reqs, i);
    t := Make(reqs[i], id);
    RegisterAllContents(q, reqs);
    assert t in multiset(RegisterAll(q, reqs).timers);
  }

  /** Registered ids were never used before. */
  lemma {:induction false} AddedIdsAreNew(nextId: nat, reqs: seq<Request>)
    ensures nextId <= NextAfter(nextId, reqs)
    ensures forall t :: t in Added(nextId, reqs) ==> nextId <= t.id < NextAfter(nextId, reqs)
    decreases |reqs|
  {
    if reqs == [] {
    } else {
      AddedIdsAreNew(nextId + reqs[0].gap + 1, reqs[1..]);
    }
  }

  /** Extracted timers and queued timers never share an id. */
  ghost predicate Apart(batch: seq<Timer>, ts: seq<Timer>) {
    forall t :: t in batch ==> !HasId(ts, t.id)
  }

  lemma FireOneKeeps(t: Timer, others: seq<Timer>, q: Queue, f: Firing)
    requires Wf(q) && DistinctIds([t] + others) && IdsBelow([t] + others, q.nextId) && Apart([t] + others, q.timers)
    ensures Wf(FireOne(t, q, f)) && q.nextId <= FireOne(t, q, f).nextId
    ensures Apart(others, FireOne(t, q, f).timers) && IdsBelow(others, FireOne(t, q, f).nextId)
    ensures var at := RegisterAll(q, f.requests).timers; !HasId(at, t.id)
  {
    var q' := RegisterAll(q, f.requests);
    RegisterAllKeeps(q, f.requests);
    RegisterAllContents(q, f.requests);
    RegisterAllNextId(q, f.requests);
    AddedIdsAreNew(q.nextId, f.requests);
    forall u | u in [t] + others ensures !HasId(q'.timers, u.id) {
      forall w | w in q'.timers ensures w.id != u.id {
        assert w in multiset(q'.timers);
        assert w in q.timers || w in Added(q.nextId, f.requests);
      }
    }
    assert t in [t] + others;
    forall u | u in others ensures u in [t] + others && u.id != t.id {
      var i :| 0 <= i < |others| && others[i] == u;
      assert ([t] + others)[0] == t && ([t] + others)[i + 1] == u;
    }
    if t.interval.Some? {
      var r := Reset(t, f.resetAt);
      InsertContents(q'.timers, r);
      InsertKeepsOrder(q'.timers, r, q'.nextId);
    }
  }

  /** An extracted batch and the queue it came from: ids all distinct and below the counter. */
  ghost predicate Detached(batch: seq<Timer>, q: Queue) {
    Wf(q) && DistinctIds(batch) && IdsBelow(batch, q.nextId) && Apart(batch, q.timers)
  }

  lemma DetachedFirst(batch: seq<Timer>, i: nat, q: Queue, f: Firing)
    requires i < |batch| && Detached(batch[i..], q)
    ensures !HasId(q.timers, batch[i].id) && !HasId(RegisterAll(q, f.requests).timers, batch[i].id)
    ensures Detached(batch[i + 1..], FireOne(batch[i], q, f))
  {
    assert batch[i..] == [batch[i]] + batch[i + 1..];
    assert batch[i] in batch[i..];
    FireOneKeeps(batch[i], batch[i + 1..], q, f);
    SliceDistinct(batch[i..], 1, |batch| - i);
    assert batch[i..][1..|batch| - i] == batch[i + 1..];
  }

  lemma DetachedDiffer(batch: seq<Timer>, i: nat, j: nat, q: Queue)
    requires i < j < |batch| && Detached(batch[i..], q)
    ensures batch[i].id != batch[j].id
  {
    assert batch[i..][0] == batch[i] && batch[i..][j - i] == batch[j];
  }

  lemma DueDetached(q: Queue, now: int)
    requires Wf(q)
    ensures Detached(Due(q.timers, now), q.(timers := Rest(q.timers, now)))
  {
    DueApart(q, now);
  }

  lemma {:induction false} FireAllKeeps(batch: seq<Timer>, q: Queue, script: Script, i: nat)
    requires Wf(q) && DistinctIds(batch) && IdsBelow(batch, q.nextId) && Apart(batch, q.timers)
    ensures Wf(FireAll(batch, q, script, i)) && q.nextId <= FireAll(batch, q, script, i).nextId
    decreases |batch|
  {
    if batch == [] {
    } else {
      assert batch == [batch[0]] + batch[1..];
      FireOneKeeps(batch[0], batch[1..], q, script(i));
      FireAllKeeps(batch[1..], FireOne(batch[0], q, script(i)), script, i + 1);
    }
  }

  lemma DueApart(q: Queue, now: int)
    requires Wf(q)
    ensures Wf(q.(timers := Rest(q.timers, now)))
    ensures DistinctIds(Due(q.timers, now)) && IdsBelow(Due(q.timers, now), q.nextId)
    ensures Apart(Due(q.timers, now), Rest(q.timers, now))
  {
    DrainExact(q.timers, now);
    SliceDistinct(q.timers, 0, DueCount(q.timers, now));
    SliceDistinct(q.timers, DueCount(q.timers, now), |q.timers|);
    forall t | t in Due(q.timers, now) ensures !HasId(Rest(q.timers, now), t.id) {
      forall u | u in Rest(q.timers, now) ensures u.id != t.id {
        if u.id == t.id {
          SameIdSameTimer(q.timers, t, u);
        }
      }
    }
  }

  lemma SliceDistinct(ts: seq<Timer>, lo: nat, hi: nat)
    requires lo <= hi <= |ts| && DistinctIds(ts)
    ensures DistinctIds(ts[lo..hi])
  {
  }

  lemma SameIdSameTimer(ts: seq<Timer>, t: Timer, u: Timer)
    requires DistinctIds(ts) && t in ts && u in ts && t.id == u.id
    ensures t == u
  {
  }

  /** The round keeps the queue strictly sorted, its ids distinct and below the counter. */
  lemma RoundKeeps(q: Queue, now: int, script: Script)
    requires Wf(q)
    ensures Wf(Round(q, now, script)) && q.nextId <= Round(q, now, script).nextId
  {
    DueApart(q, now);
    FireAllKeeps(Due(q.timers, now), q.(timers := Rest(q.timers, now)), script, 0);
  }

  lemma FireOneContents(t: Timer, q: Queue, f: Firing)
    ensures multiset(FireOne(t, q, f).timers)
         == multiset(q.timers) + multiset(Added(q.nextId, f.requests))
            + if t.interval.Some? then multiset{Reset(t, f.resetAt)} else multiset{}
  {
    RegisterAllContents(q, f.requests);
    InsertContents(RegisterAll(q, f.requests).timers, Reset(t, f.resetAt));
  }

  lemma RearmedContents(batch: seq<Timer>, script: Script, i: nat)
    requires batch != []
    ensures multiset(Rearmed(batch, script, i))
         == multiset(Rearmed(batch[1..], script, i + 1))
            + if batch[0].interval.Some? then multiset{Reset(batch[0], script(i).resetAt)} else multiset{}
  {
    MultisetOfConcat(if batch[0].interval.Some? then [Reset(batch[0], script(i).resetAt)] else [],
                     Rearmed(batch[1..], script, i + 1));
  }

  lemma {:induction false} FireAllContents(batch: seq<Timer>, q: Queue, script: Script, i: nat)
    ensures multiset(FireAll(batch, q, script, i).timers)
         == multiset(q.timers) + multiset(Rearmed(batch, script, i)) + multiset(Spawned(batch, q.nextId, script, i))
    decreases |batch|
  {
    if batch == [] {
    } else {
      var f := script(i);
      FireOneContents(batch[0], q, f);
      RegisterAllNextId(q, f.requests);
      FireAllContents(batch[1..], FireOne(batch[0], q, f), script, i + 1);
      RearmedContents(batch, script, i);
      MultisetOfConcat(Added(q.nextId, f.requests),
                       Spawned(batch[1..], NextAfter(q.nextId, f.requests), script, i + 1));
    }
  }

  lemma {:induction false} SpawnedIdsAreNew(batch: seq<Timer>, nextId: nat, script: Script, i: nat)
    ensures forall t :: t in Spawned(batch, nextId, script, i) ==> nextId <= t.id
    decreases |batch|
  {
    if batch == [] {
    } else {
      AddedIdsAreNew(nextId, script(i).requests);
      SpawnedIdsAreNew(batch[1..], NextAfter(nextId, script(i).requests), script, i + 1);
    }
  }

  lemma MultisetOfConcat(a: seq<Timer>, b: seq<Timer>)
    ensures multiset(a + b) == multiset(a) + multiset(b)
  {
  }

  /**
   * A round conserves timers: afterwards the queue holds exactly those that were
   * not due, the due repeating ones re-armed, and those the callbacks registered.
   */
  lemma RoundConserves(q: Queue, now: int, script: Script)
    requires Wf(q)
    ensures multiset(Round(q, now, script).timers)
         == multiset(q.timers) - multiset(Due(q.timers, now))
            + multiset(Rearmed(Due(q.timers, now), script, 0))
            + multiset(Spawned(Due(q.timers, now), q.nextId, script, 0))
    ensures forall t :: t in Spawned(Due(q.timers, now), q.nextId, script, 0) ==> q.nextId <= t.id
  {
    DrainExact(q.timers, now);
    FireAllContents(Due(q.timers, now), q.(timers := Rest(q.timers, now)), script, 0);
    SpawnedIdsAreNew(Due(q.timers, now), q.nextId, script, 0);
  }
}
