/**
 * What `Buffer` promises, on values: where the readable bytes sit in the
 * container, when room for more is found, and what every run of operations
 * keeps. The class that moves real bytes around is in Buffer.dfy.
 */
module BufferSpec {
  import opened Wrappers
  import opened Sequences
  import opened Search

  /** `expandFactor_`; a negative double has no `size_t` value. */
  type Factor = f: real | 0.0 <= f witness 2.0

  /**
   * `AsWritten` is the code: the container is resized TO `max(needed, factor * size)`.
   * `Intended` resizes it BY that amount, which is what the comment-free code
   * evidently meant.
   */
  datatype Growth = AsWritten | Intended

  datatype Config = Config(prepend: nat, factor: Factor, growth: Growth)

  const DEFAULT_CONFIG := Config(64, 2.0, AsWritten)
  const INIT_BUFFER_SIZE: nat := 1024
  /**
   * The area `readFromFD` hands to `readv` behind the container. There is one for
   * the whole process. Here a call has it to itself; SharedSpill.dfy shares it.
   */
  const SPILL_SIZE: nat := 65536

  /** Container size, read index and readable bytes; the write index follows from them. */
  datatype View = View(size: nat, read: nat, data: string) {
    function Write(): nat {
      read + |data|
    }
  }

  predicate Wf(c: Config, v: View) {
    c.prepend <= v.read && v.Write() <= v.size
  }

  predicate HasRoom(v: View, n: nat) {
    v.Write() + n <= v.size
  }

  /** Bytes that would be writable once the readable ones sit right behind the prepend space. */
  function Reclaimable(c: Config, v: View): int {
    v.size - c.prepend - |v.data|
  }

  function Expanded(size: nat, factor: Factor): nat {
    ScaledIsNat(size, factor);
    (size as real * factor).Floor
  }

  lemma ScaledIsNat(size: nat, factor: Factor)
    ensures 0.0 <= size as real * factor
    ensures 1.0 <= factor ==> size as real <= size as real * factor
    ensures 2.0 <= factor ==> (2 * size) as real <= size as real * factor
  {
  }

  lemma ExpandedBounds(size: nat, factor: Factor)
    ensures Expanded(size, factor) as real <= size as real * factor
    ensures 1.0 <= factor ==> size <= Expanded(size, factor)
    ensures 2.0 <= factor ==> 2 * size <= Expanded(size, factor)
  {
    ScaledIsNat(size, factor);
    FloorBounds(size as real * factor, size);
    FloorBounds(size as real * factor, 2 * size);
  }

  lemma FloorBounds(x: real, n: nat)
    ensures x.Floor as real <= x
    ensures n as real <= x ==> n <= x.Floor
  {
  }

  lemma ScaledMonotone(a: nat, b: nat, factor: Factor)
    requires a <= b
    ensures a as real * factor <= b as real * factor
  {
  }

  /** The container size chosen by the growth branch, entered only when `n` exceeds what is reclaimable. */
  function GrownSize(c: Config, v: View, n: nat): nat
    requires Reclaimable(c, v) < n
  {
    var needed: nat := n - Reclaimable(c, v);
    var factorExpand := Expanded(v.size, c.factor);
    var amount := if needed < factorExpand then factorExpand else needed;
    if c.growth.AsWritten? then amount else v.size + amount
  }

  /** The layout `ensureCapacity(n)` leaves. */
  function Reserved(c: Config, v: View, n: nat): View {
    if HasRoom(v, n) then v
    else if n <= Reclaimable(c, v) then v.(read := c.prepend)
    else View(GrownSize(c, v, n), c.prepend, v.data)
  }

  /** Checkable before the call: the request is met where the container is, or growth reaches far enough. */
  predicate GrowthGuard(c: Config, v: View, n: nat) {
    || n <= Reclaimable(c, v)
    || c.growth.Intended?
    || v.size == 0
    || c.prepend + |v.data| + n <= Expanded(v.size, c.factor)
  }

  /**
   * `ensureCapacity` delivers the room it was asked for exactly when the guard
   * holds, whatever the factor; with the intended resize the guard is no condition.
   */
  lemma CapacityExact(c: Config, v: View, n: nat)
    requires Wf(c, v)
    ensures HasRoom(Reserved(c, v, n), n) <==> GrowthGuard(c, v, n)
    ensures c.growth.Intended? ==> HasRoom(Reserved(c, v, n), n)
    ensures HasRoom(Reserved(c, v, n), n) ==> Wf(c, Reserved(c, v, n))
    ensures 1.0 <= c.factor ==> Wf(c, Reserved(c, v, n)) && v.size <= Reserved(c, v, n).size
  {
    if Reclaimable(c, v) < n {
      ExpandedBounds(v.size, c.factor);
    }
  }

  /** The default buffer, still empty, does not find room for 2000 bytes. */
  lemma CapacityFailsAsWritten()
    ensures var v := View(INIT_BUFFER_SIZE, 64, "");
            Wf(DEFAULT_CONFIG, v)
            && !HasRoom(Reserved(DEFAULT_CONFIG, v, 2000), 2000)
            && HasRoom(Reserved(DEFAULT_CONFIG.(growth := Intended), v, 2000), 2000)
  {
    var v := View(INIT_BUFFER_SIZE, 64, "");
    assert Expanded(1024, 2.0) == 2048;
    CapacityExact(DEFAULT_CONFIG, v, 2000);
    CapacityExact(DEFAULT_CONFIG.(growth := Intended), v, 2000);
  }

  /** Bytes are moved only if there is no room behind them, and memory is asked for only if moving is not enough. */
  lemma ReservedFrugal(c: Config, v: View, n: nat)
    requires Wf(c, v)
    ensures Reserved(c, v, n).data == v.data
    ensures Reserved(c, v, n).read == if v.Write() + n <= v.size then v.read else c.prepend
    ensures c.prepend + |v.data| + n <= v.size ==> Reserved(c, v, n).size == v.size
  {
  }

  /**
   * A growth is by the factor, rounded down, wherever it makes the room asked for;
   * the intended one by that much or by what is missing, whichever is more.
   */
  lemma GrowthExact(c: Config, v: View, n: nat)
    requires Wf(c, v) && 0 < v.size && Reclaimable(c, v) < n && HasRoom(Reserved(c, v, n), n)
    ensures var size := Reserved(c, v, n).size;
            && (c.growth.AsWritten? ==> size as real <= v.size as real * c.factor < (size + 1) as real)
            && (c.growth.Intended? ==>
                  var more: int := size - v.size;
                  var missing := c.prepend + |v.data| + n - v.size;
                  && (more == missing || more as real <= v.size as real * c.factor)
                  && missing <= more && v.size as real * c.factor < (more + 1) as real)
  {
    CapacityExact(c, v, n);
  }

  /** With a factor of at least two, no request up to the container's own size is ever refused. */
  lemma ModestRequestsFit(c: Config, v: View, n: nat)
    requires Wf(c, v) && 2.0 <= c.factor && n <= v.size
    ensures GrowthGuard(c, v, n)
  {
    ExpandedBounds(v.size, c.factor);
  }

  // Operations

  function Appended(c: Config, v: View, xs: string): View {
    var u := Reserved(c, v, |xs|);
    u.(data := u.data + xs)
  }

  /** How many delivered bytes land in the container itself. */
  function DirectPart(v: View, xs: string): nat
    requires v.Write() <= v.size
  {
    if |xs| <= v.size - v.Write() then |xs| else v.size - v.Write()
  }

  /** The state in which `readFromFD` appends what spilled over. */
  function Filled(v: View, xs: string): View
    requires v.Write() <= v.size
  {
    v.(data := v.data + xs[..DirectPart(v, xs)])
  }

  function Received(c: Config, v: View, xs: string): View
    requires v.Write() <= v.size
  {
    if DirectPart(v, xs) == |xs| then v.(data := v.data + xs)
    else Appended(c, Filled(v, xs), xs[DirectPart(v, xs)..])
  }

  predicate ReceiveGuard(c: Config, v: View, xs: string)
    requires v.Write() <= v.size
  {
    DirectPart(v, xs) < |xs| ==> GrowthGuard(c, Filled(v, xs), |xs| - DirectPart(v, xs))
  }

  /**
   * Checkable before the read: whatever the kernel may deliver, up to the whole
   * spill area beyond what fits, can be stored.
   */
  predicate ReceiveReady(c: Config, v: View) {
    || c.growth.Intended?
    || SPILL_SIZE <= v.read - c.prepend
    || v.size == 0
    || c.prepend + (v.size - v.read) + SPILL_SIZE <= Expanded(v.size, c.factor)
  }

  /** `readFromFD` is safe against every delivery, up to 64 KiB more than fits, exactly in these states. */
  lemma ReceiveExact(c: Config, v: View)
    requires Wf(c, v)
    ensures (forall xs: string :: |xs| <= v.size - v.Write() + 65536 ==> ReceiveGuard(c, v, xs))
            <==> ReceiveReady(c, v)
  {
    if ReceiveReady(c, v) {
      forall xs: string | |xs| <= v.size - v.Write() + SPILL_SIZE ensures ReceiveGuard(c, v, xs) {
      }
    } else {
      var xs := seq(v.size - v.Write() + SPILL_SIZE, _ => 'x');
      assert DirectPart(v, xs) == v.size - v.Write();
      assert |Filled(v, xs).data| == v.size - v.read;
      assert !ReceiveGuard(c, v, xs);
    }
  }

  /** 1985 bytes arriving at the default buffer, still empty, are one more than it can store. */
  lemma ReceiveFailsAsWritten(xs: string)
    requires |xs| == 1985
    ensures var v := View(INIT_BUFFER_SIZE, 64, "");
            Wf(DEFAULT_CONFIG, v) && |xs| <= v.size - v.Write() + SPILL_SIZE
            && !ReceiveGuard(DEFAULT_CONFIG, v, xs) && ReceiveGuard(DEFAULT_CONFIG, v, xs[1..])
            && ReceiveGuard(DEFAULT_CONFIG.(growth := Intended), v, xs)
  {
    var v := View(INIT_BUFFER_SIZE, 64, "");
    assert Expanded(1024, 2.0) == 2048;
    assert DirectPart(v, xs) == DirectPart(v, xs[1..]) == 960;
    assert |Filled(v, xs).data| == |Filled(v, xs[1..]).data| == 960;
  }

  datatype Op =
    | Append(xs: string)
    | Receive(xs: string)
    | ReceiveFailed
    | Retrieve(n: nat)
    | RetrieveAsString(n: nat)

  predicate Allowed(c: Config, v: View, op: Op)
    requires Wf(c, v)
  {
    match op
    case Append(xs) => GrowthGuard(c, v, |xs|)
    case Receive(xs) => |xs| <= v.size - v.Write() + SPILL_SIZE && ReceiveGuard(c, v, xs)
    case ReceiveFailed => true
    case Retrieve(n) => n <= |v.data|
    case RetrieveAsString(n) => true
  }

  function Dropped(v: View, n: nat): View
    requires n <= |v.data|
  {
    View(v.size, v.read + n, v.data[n..])
  }

  function Apply(c: Config, v: View, op: Op): View
    requires Wf(c, v) && Allowed(c, v, op)
  {
    match op
    case Append(xs) => Appended(c, v, xs)
    case Receive(xs) => Received(c, v, xs)
    case ReceiveFailed => v
    case Retrieve(n) => Dropped(v, n)
    case RetrieveAsString(n) => if |v.data| < n then v else Dropped(v, n)
  }

  // The plain byte queue that a buffer stands for

  function Arriving(op: Op): string {
    match op
    case Append(xs) => xs
    case Receive(xs) => xs
    case _ => ""
  }

  function Leaving(data: string, op: Op): string {
    match op
    case Retrieve(n) => if n <= |data| then data[..n] else data
    case RetrieveAsString(n) => if n <= |data| then data[..n] else ""
    case _ => ""
  }

  lemma AppendIsQueueStep(c: Config, v: View, xs: string)
    requires Wf(c, v) && GrowthGuard(c, v, |xs|)
    ensures Wf(c, Appended(c, v, xs)) && Appended(c, v, xs).data == v.data + xs
  {
    CapacityExact(c, v, |xs|);
  }

  /** Delivered bytes follow the readable ones, those that spilled behind those that did not. */
  lemma ReceiveIsQueueStep(c: Config, v: View, xs: string)
    requires Wf(c, v) && ReceiveGuard(c, v, xs)
    ensures Wf(c, Received(c, v, xs)) && Received(c, v, xs).data == v.data + xs
  {
    var k := DirectPart(v, xs);
    if k < |xs| {
      AppendIsQueueStep(c, Filled(v, xs), xs[k..]);
      Associative(v.data, xs[..k], xs[k..]);
      assert xs[..k] + xs[k..] == xs;
    }
  }

  /** What fits behind the readable bytes is put there and nothing else moves; only what does not is appended. */
  lemma ReceivedInPlace(c: Config, v: View, xs: string)
    requires Wf(c, v)
    ensures var room := v.size - v.Write();
            if |xs| <= room then Received(c, v, xs) == View(v.size, v.read, v.data + xs)
            else Received(c, v, xs) == Appended(c, View(v.size, v.read, v.data + xs[..room]), xs[room..])
  {
  }

  /** Every permitted operation keeps the layout in order and is one step of the byte queue. */
  lemma ApplyIsQueueStep(c: Config, v: View, op: Op)
    requires Wf(c, v) && Allowed(c, v, op)
    ensures Wf(c, Apply(c, v, op))
    ensures Leaving(v.data, op) + Apply(c, v, op).data == v.data + Arriving(op)
  {
    match op {
      case Append(xs) => AppendIsQueueStep(c, v, xs);
      case Receive(xs) => ReceiveIsQueueStep(c, v, xs);
      case Retrieve(n) => assert v.data[..n] + v.data[n..] == v.data;
      case RetrieveAsString(n) => assert n <= |v.data| ==> v.data[..n] + v.data[n..] == v.data;
      case ReceiveFailed =>
    }
  }

  // Runs

  predicate RunAllowed(c: Config, v: View, ops: seq<Op>)
    requires Wf(c, v)
    decreases |ops|
  {
    ops == [] ||
    (Allowed(c, v, ops[0]) && (ApplyIsQueueStep(c, v, ops[0]); RunAllowed(c, Apply(c, v, ops[0]), ops[1..])))
  }

  function Final(c: Config, v: View, ops: seq<Op>): View
    requires Wf(c, v) && RunAllowed(c, v, ops)
    decreases |ops|
  {
    if ops == [] then v
    else (ApplyIsQueueStep(c, v, ops[0]); Final(c, Apply(c, v, ops[0]), ops[1..]))
  }

  function Fed(ops: seq<Op>): string {
    if ops == [] then "" else Arriving(ops[0]) + Fed(ops[1..])
  }

  lemma {:induction false} FedConcat(a: seq<Op>, b: seq<Op>)
    ensures Fed(a + b) == Fed(a) + Fed(b)
  {
    if a == [] {
      assert a + b == b;
    } else {
      FedConcat(a[1..], b);
      assert (a + b)[1..] == a[1..] + b;
      Associative(Arriving(a[0]), Fed(a[1..]), Fed(b));
    }
  }

  function Consumed(c: Config, v: View, ops: seq<Op>): string
    requires Wf(c, v) && RunAllowed(c, v, ops)
    decreases |ops|
  {
    if ops == [] then ""
    else (ApplyIsQueueStep(c, v, ops[0]);
          Leaving(v.data, ops[0]) + Consumed(c, Apply(c, v, ops[0]), ops[1..]))
  }

  /** The largest number of readable bytes held at any point of the run. */
  function Peak(c: Config, v: View, ops: seq<Op>): nat
    requires Wf(c, v) && RunAllowed(c, v, ops)
    decreases |ops|
  {
    if ops == [] then |v.data|
    else
      ApplyIsQueueStep(c, v, ops[0]);
      var rest := Peak(c, Apply(c, v, ops[0]), ops[1..]);
      if rest < |v.data| then |v.data| else rest
  }

  lemma Regroup(left: string, mid: string, start: string, came: string, out: string, end: string, more: string)
    requires left + mid == start + came && out + end == mid + more
    ensures (left + out) + end == start + (came + more)
  {
    assert (left + out) + end == left + (out + end);
    assert left + (mid + more) == (left + mid) + more;
  }

  /** Nothing is lost, duplicated or reordered by any run, whatever compactions and growths happen in it. */
  lemma {:induction false} StreamConservation(c: Config, v: View, ops: seq<Op>)
    requires Wf(c, v) && RunAllowed(c, v, ops)
    ensures Wf(c, Final(c, v, ops))
    ensures Consumed(c, v, ops) + Final(c, v, ops).data == v.data + Fed(ops)
    decreases |ops|
  {
    if ops == [] {
    } else {
      var u := Apply(c, v, ops[0]);
      ApplyIsQueueStep(c, v, ops[0]);
      StreamConservation(c, u, ops[1..]);
      Regroup(Leaving(v.data, ops[0]), u.data, v.data, Arriving(ops[0]),
              Consumed(c, u, ops[1..]), Final(c, u, ops[1..]).data, Fed(ops[1..]));
    }
  }

  /** A found delimiter stays put, relative to the stream, until the reader consumes past it. */
  lemma SearchStableOverRuns(c: Config, v: View, ops: seq<Op>, pat: string)
    requires Wf(c, v) && RunAllowed(c, v, ops)
    requires Find(v.data, pat).Some? && |Consumed(c, v, ops)| <= Find(v.data, pat).value
    ensures Find(Final(c, v, ops).data, pat) == Some(Find(v.data, pat).value - |Consumed(c, v, ops)|)
  {
    var gone, stream := Consumed(c, v, ops), v.data + Fed(ops);
    StreamConservation(c, v, ops);
    FindStableUnderAppend(v.data, Fed(ops), pat);
    FindAfterRetrieve(stream, pat, |gone|);
    SuffixIs(stream, gone, Final(c, v, ops).data);
  }

  lemma SuffixIs(s: string, front: string, back: string)
    requires front + back == s
    ensures s[|front|..] == back
  {
  }

  // Memory

  ghost function MemoryBound(c: Config, readable: nat): real {
    (c.prepend + readable) as real * c.factor
  }

  lemma MemoryBoundMonotone(c: Config, a: nat, b: nat)
    requires a <= b
    ensures MemoryBound(c, a) <= MemoryBound(c, b)
  {
    ScaledMonotone(c.prepend + a, c.prepend + b, c.factor);
  }

  lemma ReservedBound(c: Config, v: View, n: nat)
    requires Wf(c, v) && c.growth.AsWritten? && 1.0 <= c.factor
    ensures var size := Reserved(c, v, n).size;
            size <= v.size || size as real <= MemoryBound(c, |v.data| + n)
  {
    if Reclaimable(c, v) < n {
      var need := c.prepend + |v.data| + n;
      var needed: nat := n - Reclaimable(c, v);
      NeededBound(needed, need, c.factor);
      ExpandedBound(v.size, need, c.factor);
      assert GrownSize(c, v, n) == needed || GrownSize(c, v, n) == Expanded(v.size, c.factor);
    }
  }

  lemma NeededBound(needed: nat, need: nat, factor: Factor)
    requires needed <= need && 1.0 <= factor
    ensures needed as real <= need as real * factor
  {
    ScaledIsNat(need, factor);
  }

  lemma ExpandedBound(size: nat, need: nat, factor: Factor)
    requires size <= need
    ensures Expanded(size, factor) as real <= need as real * factor
  {
    ExpandedBounds(size, factor);
    ScaledMonotone(size, need, factor);
  }

  lemma StepBound(c: Config, v: View, op: Op)
    requires Wf(c, v) && Allowed(c, v, op) && c.growth.AsWritten? && 1.0 <= c.factor
    ensures var u := Apply(c, v, op);
            u.size <= v.size || u.size as real <= MemoryBound(c, |u.data|)
  {
    match op {
      case Append(xs) => ReservedBound(c, v, |xs|);
      case Receive(xs) =>
        var k := DirectPart(v, xs);
        ReservedBound(c, Filled(v, xs), |xs| - k);
      case _ =>
    }
  }

  /** The container never outgrows the factor times the prepend space and the fullest moment of the run. */
  lemma {:induction false} MemoryBoundOverRuns(c: Config, v: View, ops: seq<Op>)
    requires Wf(c, v) && RunAllowed(c, v, ops) && c.growth.AsWritten? && 1.0 <= c.factor
    ensures var size := Final(c, v, ops).size;
            size <= v.size || size as real <= MemoryBound(c, Peak(c, v, ops))
    decreases |ops|
  {
    if ops == [] {
    } else {
      var u := Apply(c, v, ops[0]);
      ApplyIsQueueStep(c, v, ops[0]);
      StepBound(c, v, ops[0]);
      MemoryBoundOverRuns(c, u, ops[1..]);
      PeakCoversStart(c, u, ops[1..]);
      MemoryBoundMonotone(c, |u.data|, Peak(c, v, ops));
      MemoryBoundMonotone(c, Peak(c, u, ops[1..]), Peak(c, v, ops));
    }
  }

  function Growths(c: Config, v: View, ops: seq<Op>): nat
    requires Wf(c, v) && RunAllowed(c, v, ops)
    decreases |ops|
  {
    if ops == [] then 0
    else
      ApplyIsQueueStep(c, v, ops[0]);
      var u := Apply(c, v, ops[0]);
      (if u.size != v.size then 1 else 0) + Growths(c, u, ops[1..])
  }

  function Pow2(k: nat): nat {
    if k == 0 then 1 else 2 * Pow2(k - 1)
  }

  lemma ReservedDoubles(c: Config, v: View, n: nat)
    requires Wf(c, v) && 2.0 <= c.factor
    ensures Reserved(c, v, n).size == v.size || 2 * v.size <= Reserved(c, v, n).size
  {
    ExpandedBounds(v.size, c.factor);
  }

  lemma StepDoubles(c: Config, v: View, op: Op)
    requires Wf(c, v) && Allowed(c, v, op) && 2.0 <= c.factor
    ensures Apply(c, v, op).size == v.size || 2 * v.size <= Apply(c, v, op).size
  {
    match op {
      case Append(xs) => ReservedDoubles(c, v, |xs|);
      case Receive(xs) => ReservedDoubles(c, Filled(v, xs), |xs| - DirectPart(v, xs));
      case _ =>
    }
  }

  /**
   * Each growth at least doubles the container, so a run that ends with a
   * container of some size has grown it no more than logarithmically often; with
   * `MemoryBoundOverRuns`, in the most bytes ever held.
   */
  lemma {:induction false} GrowthsAreFew(c: Config, v: View, ops: seq<Op>)
    requires Wf(c, v) && RunAllowed(c, v, ops) && 2.0 <= c.factor
    ensures Pow2(Growths(c, v, ops)) * v.size <= Final(c, v, ops).size
    decreases |ops|
  {
    if ops == [] {
    } else {
      var u := Apply(c, v, ops[0]);
      ApplyIsQueueStep(c, v, ops[0]);
      StepDoubles(c, v, ops[0]);
      GrowthsAreFew(c, u, ops[1..]);
      if u.size != v.size {
        OneMoreDoubling(Growths(c, u, ops[1..]), v.size, u.size);
      }
    }
  }

  lemma OneMoreDoubling(k: nat, a: nat, b: nat)
    requires 2 * a <= b
    ensures Pow2(k + 1) * a <= Pow2(k) * b
  {
    var p := Pow2(k);
    assert (2 * p) * a == p * (2 * a);
    ScaleUp(p, 2 * a, b);
  }

  lemma ScaleUp(k: nat, a: nat, b: nat)
    requires a <= b
    ensures k * a <= k * b
  {
  }

  lemma PeakCoversStart(c: Config, v: View, ops: seq<Op>)
    requires Wf(c, v) && RunAllowed(c, v, ops)
    ensures |v.data| <= Peak(c, v, ops)
  {
  }
}
