/**
 * `readFromFD` in a process with any number of loops. The spill area it hands to
 * `readv` is one static array for all buffers and all threads, and nothing locks
 * it: between the `readv` that fills it and the append that copies from it,
 * another thread's `readv` may fill it too.
 */
module SharedSpill {
  import opened Sequences
  import opened Search
  import opened BufferSpec

  /** What arrives is written over the front of the area. */
  function Over(area: string, xs: string): string
    requires |xs| <= |area|
  {
    xs + area[|xs|..]
  }

  function OverAll(area: string, others: seq<string>): (r: string)
    requires forall i :: 0 <= i < |others| ==> |others[i]| <= |area|
    ensures |r| == |area|
    decreases |others|
  {
    if others == [] then area else OverAll(Over(area, others[0]), others[1..])
  }

  function Spilled(v: View, xs: string): string
    requires v.Write() <= v.size
  {
    xs[DirectPart(v, xs)..]
  }

  /** What one call takes for the `xs` it was sent, if `others` spill before it copies. */
  function Taken(v: View, xs: string, area: string, others: seq<string>): string
    requires v.Write() <= v.size && |Spilled(v, xs)| <= |area|
    requires forall i :: 0 <= i < |others| ==> |others[i]| <= |area|
  {
    xs[..DirectPart(v, xs)] + OverAll(Over(area, Spilled(v, xs)), others)[..|Spilled(v, xs)|]
  }

  ghost predicate Sizes(others: seq<string>, sizes: seq<nat>) {
    |others| == |sizes| && forall i :: 0 <= i < |sizes| ==> |others[i]| == sizes[i]
  }

  lemma {:induction false} NothingOver(area: string, others: seq<string>)
    requires forall i :: 0 <= i < |others| ==> others[i] == ""
    ensures OverAll(area, others) == area
    decreases |others|
  {
    if others != [] {
      assert Over(area, others[0]) == area;
      NothingOver(area, others[1..]);
    }
  }

  lemma {:induction false} FrontOver(area: string, others: seq<string>, ch: char)
    requires area != "" && forall i :: 0 <= i < |others| ==> |others[i]| <= |area|
    requires forall i :: 0 <= i < |others| ==> others[i] == "" || others[i][0] == ch
    requires area[0] == ch || exists i :: 0 <= i < |others| && others[i] != ""
    ensures OverAll(area, others)[0] == ch
    decreases |others|
  {
    if others != [] {
      FrontOver(Over(area, others[0]), others[1..], ch);
    }
  }

  /**
   * One call gets what it was sent, whatever the other calls in between bring in
   * the given sizes, exactly if nothing of its own spilled or nothing of theirs.
   */
  lemma SpillSurvivesExact(v: View, xs: string, area: string, sizes: seq<nat>)
    requires v.Write() <= v.size && |Spilled(v, xs)| <= |area|
    requires forall i :: 0 <= i < |sizes| ==> sizes[i] <= |area|
    ensures (forall others :: Sizes(others, sizes) ==> Taken(v, xs, area, others) == xs)
            <==> Spilled(v, xs) == "" || forall i :: 0 <= i < |sizes| ==> sizes[i] == 0
  {
    var k, own := DirectPart(v, xs), Spilled(v, xs);
    assert xs == xs[..k] + own;
    if own == "" || forall i :: 0 <= i < |sizes| ==> sizes[i] == 0 {
      forall others | Sizes(others, sizes) ensures Taken(v, xs, area, others) == xs {
        if own != "" {
          NothingOver(Over(area, own), others);
        }
      }
    } else {
      var ch := if own[0] == 'x' then 'y' else 'x';
      var others := seq(|sizes|, i requires 0 <= i < |sizes| => seq(sizes[i], _ => ch));
      assert Sizes(others, sizes);
      var i :| 0 <= i < |sizes| && sizes[i] != 0;
      assert others[i] != "";
      FrontOver(Over(area, own), others, ch);
      assert Taken(v, xs, area, others)[k] == ch && xs[k] == own[0];
    }
  }

  // Any number of threads

  /**
   * Buffer `r` belongs to one thread. `owed[r]` is what the kernel has spilled for
   * a call of `readFromFD` that has yet to append it; the call itself keeps only
   * how much that is.
   */
  datatype System = System(bufs: seq<View>, owed: seq<string>, area: string)

  predicate SystemWf(c: Config, s: System) {
    && |s.bufs| == |s.owed| && |s.area| == SPILL_SIZE
    && forall r :: 0 <= r < |s.bufs| ==> Wf(c, s.bufs[r]) && |s.owed[r]| <= SPILL_SIZE
  }

  datatype Label =
    | Do(r: nat, op: Op)        // any call but readFromFD
    | Read(r: nat, xs: string)  // readv
    | Copy(r: nat)              // the append of what spilled

  predicate Enabled(c: Config, s: System, l: Label)
    requires SystemWf(c, s)
  {
    && l.r < |s.bufs|
    && match l
       case Do(r, op) => s.owed[r] == "" && !op.Receive? && Allowed(c, s.bufs[r], op)
       case Read(r, xs) => s.owed[r] == "" && |xs| <= s.bufs[r].size - s.bufs[r].Write() + SPILL_SIZE
       case Copy(r) => s.owed[r] != "" && GrowthGuard(c, s.bufs[r], |s.owed[r]|)
  }

  function Next(c: Config, s: System, l: Label): System
    requires SystemWf(c, s) && Enabled(c, s, l)
  {
    var v := s.bufs[l.r];
    match l
    case Do(r, op) => s.(bufs := s.bufs[r := Apply(c, v, op)])
    case Read(r, xs) =>
      System(s.bufs[r := Filled(v, xs)], s.owed[r := Spilled(v, xs)], Over(s.area, Spilled(v, xs)))
    case Copy(r) =>
      s.(bufs := s.bufs[r := Appended(c, v, s.area[..|s.owed[r]|])], owed := s.owed[r := ""])
  }

  lemma NextKeeps(c: Config, s: System, l: Label)
    requires SystemWf(c, s) && Enabled(c, s, l)
    ensures SystemWf(c, Next(c, s, l))
  {
    match l {
      case Do(r, op) => ApplyIsQueueStep(c, s.bufs[r], op);
      case Read(r, xs) =>
      case Copy(r) => AppendIsQueueStep(c, s.bufs[r], s.area[..|s.owed[r]|]);
    }
  }

  predicate Possible(c: Config, s: System, ls: seq<Label>)
    requires SystemWf(c, s)
    decreases |ls|
  {
    ls == [] || (Enabled(c, s, ls[0]) && (NextKeeps(c, s, ls[0]); Possible(c, Next(c, s, ls[0]), ls[1..])))
  }

  function After(c: Config, s: System, ls: seq<Label>): (e: System)
    requires SystemWf(c, s) && Possible(c, s, ls)
    ensures SystemWf(c, e) && |e.bufs| == |s.bufs|
    decreases |ls|
  {
    if ls == [] then s else (NextKeeps(c, s, ls[0]); After(c, Next(c, s, ls[0]), ls[1..]))
  }

  /** Another call spills while one of `r` has yet to copy. */
  predicate Disturbs(c: Config, s: System, l: Label, r: nat)
    requires SystemWf(c, s) && Enabled(c, s, l) && r < |s.bufs|
  {
    l.Read? && l.r != r && s.owed[r] != "" && Spilled(s.bufs[l.r], l.xs) != ""
  }

  predicate Undisturbed(c: Config, s: System, ls: seq<Label>, r: nat)
    requires SystemWf(c, s) && Possible(c, s, ls) && r < |s.bufs|
    decreases |ls|
  {
    ls == []
    || (!Disturbs(c, s, ls[0], r) && (NextKeeps(c, s, ls[0]); Undisturbed(c, Next(c, s, ls[0]), ls[1..], r)))
  }

  /** The area still holds what one call of `r` has to copy. */
  predicate Intact(c: Config, s: System, r: nat)
    requires SystemWf(c, s) && r < |s.bufs|
  {
    s.area[..|s.owed[r]|] == s.owed[r]
  }

  lemma NextKeepsIntact(c: Config, s: System, l: Label, r: nat)
    requires SystemWf(c, s) && Enabled(c, s, l) && r < |s.bufs| && !Disturbs(c, s, l, r) && Intact(c, s, r)
    ensures SystemWf(c, Next(c, s, l)) && Intact(c, Next(c, s, l), r)
  {
    NextKeeps(c, s, l);
    if l.Read? && l.r != r && s.owed[r] != "" {
      assert Over(s.area, "") == s.area;
    }
  }

  // Undisturbed runs are runs of the buffer alone

  /** What the thread of `r` calls, `readFromFD` being one call. */
  function Calls(ls: seq<Label>, r: nat): seq<Op> {
    if ls == [] then [] else
      (if ls[0].r != r then [] else match ls[0]
                                    case Do(_, op) => [op]
                                    case Read(_, xs) => [Receive(xs)]
                                    case Copy(_) => [])
      + Calls(ls[1..], r)
  }

  /** The buffer of `r` once the call under way, if any, has copied its own bytes. */
  function Settled(c: Config, s: System, r: nat): View
    requires SystemWf(c, s) && r < |s.bufs|
    requires s.owed[r] != "" ==> GrowthGuard(c, s.bufs[r], |s.owed[r]|)
  {
    if s.owed[r] == "" then s.bufs[r] else Appended(c, s.bufs[r], s.owed[r])
  }

  ghost predicate IsRunOf(c: Config, v: View, ops: seq<Op>, end: View) {
    Wf(c, v) && RunAllowed(c, v, ops) && Final(c, v, ops) == end
  }

  lemma OneMoreCall(c: Config, v: View, op: Op, ops: seq<Op>, end: View)
    requires Wf(c, v) && Allowed(c, v, op) && IsRunOf(c, Apply(c, v, op), ops, end)
    ensures IsRunOf(c, v, [op] + ops, end)
  {
    assert ([op] + ops)[1..] == ops;
    ApplyIsQueueStep(c, v, op);
  }

  ghost predicate Completes(c: Config, s: System, ls: seq<Label>, r: nat, end: View)
    requires SystemWf(c, s) && r < |s.bufs|
  {
    && (s.owed[r] != "" ==> GrowthGuard(c, s.bufs[r], |s.owed[r]|))
    && IsRunOf(c, Settled(c, s, r), Calls(ls, r), end)
  }

  lemma ReadCompletes(c: Config, s: System, ls: seq<Label>, xs: string, r: nat, end: View)
    requires SystemWf(c, s) && ls != [] && ls[0] == Read(r, xs) && Enabled(c, s, ls[0])
    requires SystemWf(c, Next(c, s, ls[0])) && Completes(c, Next(c, s, ls[0]), ls[1..], r, end)
    ensures Completes(c, s, ls, r, end)
  {
    var v := s.bufs[r];
    assert Settled(c, Next(c, s, ls[0]), r) == Received(c, v, xs);
    OneMoreCall(c, v, Receive(xs), Calls(ls[1..], r), end);
  }

  lemma StepCompletes(c: Config, s: System, ls: seq<Label>, r: nat, end: View)
    requires SystemWf(c, s) && ls != [] && Enabled(c, s, ls[0]) && r < |s.bufs| && Intact(c, s, r)
    requires SystemWf(c, Next(c, s, ls[0])) && Completes(c, Next(c, s, ls[0]), ls[1..], r, end)
    ensures Completes(c, s, ls, r, end)
  {
    if ls[0].r != r {
      assert Calls(ls, r) == Calls(ls[1..], r);
    } else {
      match ls[0] {
        case Do(_, op) => OneMoreCall(c, s.bufs[r], op, Calls(ls[1..], r), end);
        case Read(_, xs) => ReadCompletes(c, s, ls, xs, r, end);
        case Copy(_) => assert Calls(ls, r) == Calls(ls[1..], r);
      }
    }
  }

  lemma {:induction false} UndisturbedCompletes(c: Config, s: System, ls: seq<Label>, r: nat)
    requires SystemWf(c, s) && Possible(c, s, ls) && r < |s.bufs| && Intact(c, s, r)
    requires Undisturbed(c, s, ls, r) && After(c, s, ls).owed[r] == ""
    ensures Completes(c, s, ls, r, After(c, s, ls).bufs[r])
    decreases |ls|
  {
    if ls == [] {
    } else {
      NextKeepsIntact(c, s, ls[0], r);
      UndisturbedCompletes(c, Next(c, s, ls[0]), ls[1..], r);
      StepCompletes(c, s, ls, r, After(c, s, ls).bufs[r]);
    }
  }

  /**
   * In whatever way the threads interleave, if no other call spills while one of
   * `r` has yet to copy then the buffer of `r` ends as if every `readFromFD` were
   * one step and the other threads did not exist. So all that holds over runs of
   * one buffer holds for it; its stream is what its descriptor delivered.
   */
  lemma UndisturbedIsAlone(c: Config, s: System, ls: seq<Label>, r: nat)
    requires SystemWf(c, s) && Possible(c, s, ls) && r < |s.bufs| && s.owed[r] == ""
    requires Undisturbed(c, s, ls, r) && After(c, s, ls).owed[r] == ""
    ensures RunAllowed(c, s.bufs[r], Calls(ls, r))
    ensures After(c, s, ls).bufs[r] == Final(c, s.bufs[r], Calls(ls, r))
    ensures Consumed(c, s.bufs[r], Calls(ls, r)) + After(c, s, ls).bufs[r].data
         == s.bufs[r].data + Fed(Calls(ls, r))
  {
    UndisturbedCompletes(c, s, ls, r);
    StreamConservation(c, s.bufs[r], Calls(ls, r));
  }

  /** No call of `readFromFD` begins while another is under way, as when there is one loop. */
  predicate OneAtATime(c: Config, s: System, ls: seq<Label>)
    requires SystemWf(c, s) && Possible(c, s, ls)
    decreases |ls|
  {
    ls == []
    || ((ls[0].Read? ==> forall q :: 0 <= q < |s.owed| ==> s.owed[q] == "")
        && (NextKeeps(c, s, ls[0]); OneAtATime(c, Next(c, s, ls[0]), ls[1..])))
  }

  lemma {:induction false} OneAtATimeUndisturbed(c: Config, s: System, ls: seq<Label>, r: nat)
    requires SystemWf(c, s) && Possible(c, s, ls) && r < |s.bufs| && OneAtATime(c, s, ls)
    ensures Undisturbed(c, s, ls, r)
    decreases |ls|
  {
    if ls == [] {
    } else {
      NextKeeps(c, s, ls[0]);
      OneAtATimeUndisturbed(c, Next(c, s, ls[0]), ls[1..], r);
    }
  }

  // And only those

  /** What a step really puts into the buffer of `r`. */
  function Arrives(c: Config, s: System, l: Label, r: nat): string
    requires SystemWf(c, s) && Enabled(c, s, l) && r < |s.bufs|
  {
    if l.r != r then "" else
      match l
      case Do(_, op) => Arriving(op)
      case Read(_, xs) => xs[..DirectPart(s.bufs[r], xs)]
      case Copy(_) => s.area[..|s.owed[r]|]
  }

  function Got(c: Config, s: System, ls: seq<Label>, r: nat): string
    requires SystemWf(c, s) && Possible(c, s, ls) && r < |s.bufs|
    decreases |ls|
  {
    if ls == [] then ""
    else (NextKeeps(c, s, ls[0]); Arrives(c, s, ls[0], r) + Got(c, Next(c, s, ls[0]), ls[1..], r))
  }

  function Leaves(c: Config, s: System, ls: seq<Label>, r: nat): string
    requires SystemWf(c, s) && Possible(c, s, ls) && r < |s.bufs|
    decreases |ls|
  {
    if ls == [] then ""
    else
      NextKeeps(c, s, ls[0]);
      (if ls[0].r == r && ls[0].Do? then Leaving(s.bufs[r].data, ls[0].op) else "")
      + Leaves(c, Next(c, s, ls[0]), ls[1..], r)
  }

  lemma StepConserves(c: Config, s: System, l: Label, r: nat)
    requires SystemWf(c, s) && Enabled(c, s, l) && r < |s.bufs|
    ensures (if l.r == r && l.Do? then Leaving(s.bufs[r].data, l.op) else "") + Next(c, s, l).bufs[r].data
         == s.bufs[r].data + Arrives(c, s, l, r)
  {
    if l.r == r {
      match l {
        case Do(_, op) => ApplyIsQueueStep(c, s.bufs[r], op);
        case Read(_, xs) =>
        case Copy(_) => AppendIsQueueStep(c, s.bufs[r], s.area[..|s.owed[r]|]);
      }
    }
  }

  /** Disturbed or not: what went in is what comes out and what is still held. */
  lemma {:induction false} GotIsKept(c: Config, s: System, ls: seq<Label>, r: nat)
    requires SystemWf(c, s) && Possible(c, s, ls) && r < |s.bufs|
    ensures Leaves(c, s, ls, r) + After(c, s, ls).bufs[r].data == s.bufs[r].data + Got(c, s, ls, r)
    decreases |ls|
  {
    if ls == [] {
    } else {
      var l, s' := ls[0], Next(c, s, ls[0]);
      NextKeeps(c, s, l);
      StepConserves(c, s, l, r);
      GotIsKept(c, s', ls[1..], r);
      Regroup(if l.r == r && l.Do? then Leaving(s.bufs[r].data, l.op) else "", s'.bufs[r].data,
              s.bufs[r].data, Arrives(c, s, l, r),
              Leaves(c, s', ls[1..], r), After(c, s', ls[1..]).bufs[r].data, Got(c, s', ls[1..], r));
    }
  }

  lemma CallsOne(l: Label, r: nat)
    ensures Calls([l], r) == if l.r != r || l.Copy? then [] else if l.Do? then [l.op] else [Receive(l.xs)]
    ensures Fed(Calls([l], r)) == if l.r != r || l.Copy? then "" else if l.Do? then Arriving(l.op) else l.xs
  {
    assert Calls([l][1..], r) == [];
    if l.r == r && !l.Copy? {
      var op := if l.Do? then l.op else Receive(l.xs);
      assert Calls([l], r) == [op];
      assert Fed([op]) == Arriving(op) + Fed([op][1..]);
    }
  }

  lemma StepGetsOwn(c: Config, s: System, l: Label, r: nat)
    requires SystemWf(c, s) && Enabled(c, s, l) && r < |s.bufs| && Intact(c, s, r)
    ensures Arrives(c, s, l, r) + Next(c, s, l).owed[r] == s.owed[r] + Fed(Calls([l], r))
  {
    CallsOne(l, r);
  }

  lemma FedFirst(ls: seq<Label>, r: nat)
    requires ls != []
    ensures Fed(Calls(ls, r)) == Fed(Calls([ls[0]], r)) + Fed(Calls(ls[1..], r))
  {
    CallsOne(ls[0], r);
    assert Calls(ls, r) == Calls([ls[0]], r) + Calls(ls[1..], r);
    FedConcat(Calls([ls[0]], r), Calls(ls[1..], r));
  }

  lemma {:induction false} UndisturbedGetsOwn(c: Config, s: System, ls: seq<Label>, r: nat)
    requires SystemWf(c, s) && Possible(c, s, ls) && r < |s.bufs| && Intact(c, s, r)
    requires Undisturbed(c, s, ls, r)
    ensures Got(c, s, ls, r) + After(c, s, ls).owed[r] == s.owed[r] + Fed(Calls(ls, r))
    decreases |ls|
  {
    if ls == [] {
    } else {
      var s' := Next(c, s, ls[0]);
      NextKeepsIntact(c, s, ls[0], r);
      UndisturbedGetsOwn(c, s', ls[1..], r);
      StepGetsOwn(c, s, ls[0], r);
      FedFirst(ls, r);
      Regroup(Arrives(c, s, ls[0], r), s'.owed[r], s.owed[r], Fed(Calls([ls[0]], r)),
              Got(c, s', ls[1..], r), After(c, s', ls[1..]).owed[r], Fed(Calls(ls[1..], r)));
    }
  }

  /** The same run of calls with deliveries and appends of the same sizes. */
  predicate SameSize(l: Label, l': Label) {
    match l
    case Do(r, Append(xs)) => l'.Do? && l'.r == r && l'.op.Append? && |l'.op.xs| == |xs|
    case Do(r, op) => l' == l
    case Read(r, xs) => l'.Read? && l'.r == r && |l'.xs| == |xs|
    case Copy(r) => l' == l
  }

  ghost predicate SameShape(ls: seq<Label>, ls': seq<Label>) {
    |ls| == |ls'| && forall i :: 0 <= i < |ls| ==> SameSize(ls[i], ls'[i])
  }

  predicate Alike(v: View, v': View) {
    v.size == v'.size && v.read == v'.read && |v.data| == |v'.data|
  }

  ghost predicate AllAlike(c: Config, s: System, s': System)
    requires SystemWf(c, s) && SystemWf(c, s')
  {
    && |s.bufs| == |s'.bufs|
    && forall r :: 0 <= r < |s.bufs| ==> Alike(s.bufs[r], s'.bufs[r]) && |s.owed[r]| == |s'.owed[r]|
  }

  lemma SameGuards(c: Config, v: View, v': View)
    requires Wf(c, v) && Wf(c, v') && Alike(v, v')
    ensures forall n: nat :: GrowthGuard(c, v, n) == GrowthGuard(c, v', n)
  {
  }

  lemma EnabledAlike(c: Config, s: System, s': System, l: Label, l': Label)
    requires SystemWf(c, s) && SystemWf(c, s') && AllAlike(c, s, s') && SameSize(l, l') && Enabled(c, s, l)
    ensures Enabled(c, s', l')
    ensures forall r :: 0 <= r < |s.bufs| ==> Disturbs(c, s, l, r) == Disturbs(c, s', l', r)
  {
    assert Alike(s.bufs[l.r], s'.bufs[l.r]);
    SameGuards(c, s.bufs[l.r], s'.bufs[l.r]);
  }

  lemma ApplyAlike(c: Config, v: View, v': View, op: Op, op': Op)
    requires Wf(c, v) && Wf(c, v') && Alike(v, v') && Allowed(c, v, op) && Allowed(c, v', op') && !op.Receive?
    requires if op.Append? then op'.Append? && |op'.xs| == |op.xs| else op' == op
    ensures Alike(Apply(c, v, op), Apply(c, v', op'))
  {
  }

  lemma NextAlike(c: Config, s: System, s': System, l: Label, l': Label)
    requires SystemWf(c, s) && SystemWf(c, s') && AllAlike(c, s, s') && SameSize(l, l')
    requires Enabled(c, s, l) && Enabled(c, s', l')
    ensures SystemWf(c, Next(c, s, l)) && SystemWf(c, Next(c, s', l'))
    ensures AllAlike(c, Next(c, s, l), Next(c, s', l'))
  {
    NextKeeps(c, s, l);
    NextKeeps(c, s', l');
    assert Alike(s.bufs[l.r], s'.bufs[l.r]);
    match l {
      case Do(r, op) => ApplyAlike(c, s.bufs[r], s'.bufs[r], op, l'.op);
      case Read(r, xs) =>
      case Copy(r) =>
    }
  }

  /** Sizes alone decide what is possible and who is disturbed. */
  lemma {:induction false} SizesDecide(c: Config, s: System, s': System, ls: seq<Label>, ls': seq<Label>, r: nat)
    requires SystemWf(c, s) && SystemWf(c, s') && AllAlike(c, s, s') && r < |s.bufs|
    requires Possible(c, s, ls) && SameShape(ls, ls')
    ensures Possible(c, s', ls') && AllAlike(c, After(c, s, ls), After(c, s', ls'))
    ensures Undisturbed(c, s, ls, r) == Undisturbed(c, s', ls', r)
    decreases |ls|
  {
    if ls == [] {
    } else {
      EnabledAlike(c, s, s', ls[0], ls'[0]);
      NextAlike(c, s, s', ls[0], ls'[0]);
      SizesDecide(c, Next(c, s, ls[0]), Next(c, s', ls'[0]), ls[1..], ls'[1..], r);
    }
  }

  /** The same run with 'x' for every byte sent to `r` and 'y' for every other. */
  function Painted(l: Label, r: nat): Label {
    var ch := if l.r == r then 'x' else 'y';
    match l
    case Do(q, Append(xs)) => Do(q, Append(seq(|xs|, _ => ch)))
    case Read(q, xs) => Read(q, seq(|xs|, _ => ch))
    case _ => l
  }

  function PaintedAll(ls: seq<Label>, r: nat): seq<Label> {
    seq(|ls|, i requires 0 <= i < |ls| => Painted(ls[i], r))
  }

  ghost predicate Marked(ls: seq<Label>, r: nat) {
    forall l :: l in ls && l.Read? && l.r != r ==> forall i :: 0 <= i < |l.xs| ==> l.xs[i] == 'y'
  }

  /** A stray byte at the front of the area is copied by the call that is under way. */
  lemma {:induction false} StrayIsCopied(c: Config, s: System, ls: seq<Label>, r: nat)
    requires SystemWf(c, s) && Possible(c, s, ls) && r < |s.bufs| && Marked(ls, r)
    requires s.owed[r] != "" && s.area[0] == 'y' && After(c, s, ls).owed[r] == ""
    ensures 'y' in Got(c, s, ls, r)
    decreases |ls|
  {
    if ls == [] {
      assert false;
    } else {
      assert ls[0] in ls && forall l :: l in ls[1..] ==> l in ls;
      NextKeeps(c, s, ls[0]);
      if ls[0] == Copy(r) {
        assert Arrives(c, s, ls[0], r)[0] == 'y';
      } else {
        StrayIsCopied(c, Next(c, s, ls[0]), ls[1..], r);
      }
    }
  }

  lemma {:induction false} DisturbedGetsStray(c: Config, s: System, ls: seq<Label>, r: nat)
    requires SystemWf(c, s) && Possible(c, s, ls) && r < |s.bufs| && Marked(ls, r)
    requires !Undisturbed(c, s, ls, r) && After(c, s, ls).owed[r] == ""
    ensures 'y' in Got(c, s, ls, r)
    decreases |ls|
  {
    assert ls[0] in ls && forall l :: l in ls[1..] ==> l in ls;
    NextKeeps(c, s, ls[0]);
    if Disturbs(c, s, ls[0], r) {
      StrayIsCopied(c, Next(c, s, ls[0]), ls[1..], r);
    } else {
      DisturbedGetsStray(c, Next(c, s, ls[0]), ls[1..], r);
    }
  }

  ghost predicate NoReadByDo(ls: seq<Label>) {
    forall l :: l in ls && l.Do? ==> !l.op.Receive?
  }

  lemma {:induction false} ReadsAreReads(c: Config, s: System, ls: seq<Label>)
    requires SystemWf(c, s) && Possible(c, s, ls)
    ensures NoReadByDo(ls)
    decreases |ls|
  {
    if ls != [] {
      NextKeeps(c, s, ls[0]);
      ReadsAreReads(c, Next(c, s, ls[0]), ls[1..]);
      assert forall l :: l in ls ==> l == ls[0] || l in ls[1..];
    }
  }

  lemma {:induction false} NoneSentStray(ls: seq<Label>, r: nat)
    requires NoReadByDo(ls)
    ensures 'y' !in Fed(Calls(PaintedAll(ls, r), r))
  {
    if ls != [] {
      var painted := PaintedAll(ls, r);
      assert painted[1..] == PaintedAll(ls[1..], r);
      assert ls[0] in ls && forall l :: l in ls[1..] ==> l in ls;
      NoneSentStray(ls[1..], r);
      FedFirst(painted, r);
      OneSentStray(ls[0], r);
    }
  }

  lemma OneSentStray(l: Label, r: nat)
    requires l.Do? ==> !l.op.Receive?
    ensures 'y' !in Fed(Calls([Painted(l, r)], r))
  {
    CallsOne(Painted(l, r), r);
  }

  /**
   * Exactly the undisturbed runs are safe: the buffer of `r` gets what was sent
   * to it, whatever the bytes are, if and only if no other call spills while one
   * of `r` has yet to copy.
   */
  lemma GotExact(c: Config, s: System, ls: seq<Label>, r: nat)
    requires SystemWf(c, s) && Possible(c, s, ls) && r < |s.bufs|
    requires s.owed[r] == "" && After(c, s, ls).owed[r] == ""
    ensures (forall ls' :: SameShape(ls, ls') && Possible(c, s, ls') ==> Got(c, s, ls', r) == Fed(Calls(ls', r)))
            <==> Undisturbed(c, s, ls, r)
  {
    if Undisturbed(c, s, ls, r) {
      forall ls' | SameShape(ls, ls') && Possible(c, s, ls') ensures Got(c, s, ls', r) == Fed(Calls(ls', r)) {
        GetsOwnInAnyBytes(c, s, ls, ls', r);
      }
    } else {
      var ls' := PaintedGoesWrong(c, s, ls, r);
    }
  }

  lemma GetsOwnInAnyBytes(c: Config, s: System, ls: seq<Label>, ls': seq<Label>, r: nat)
    requires SystemWf(c, s) && Possible(c, s, ls) && r < |s.bufs| && SameShape(ls, ls')
    requires s.owed[r] == "" && After(c, s, ls).owed[r] == "" && Undisturbed(c, s, ls, r)
    ensures Possible(c, s, ls') && Got(c, s, ls', r) == Fed(Calls(ls', r))
  {
    SizesDecide(c, s, s, ls, ls', r);
    UndisturbedGetsOwn(c, s, ls', r);
    assert |After(c, s, ls').owed[r]| == 0;
    assert Got(c, s, ls', r) + "" == Got(c, s, ls', r) && "" + Fed(Calls(ls', r)) == Fed(Calls(ls', r));
  }

  lemma PaintedGoesWrong(c: Config, s: System, ls: seq<Label>, r: nat) returns (painted: seq<Label>)
    requires SystemWf(c, s) && Possible(c, s, ls) && r < |s.bufs|
    requires After(c, s, ls).owed[r] == "" && !Undisturbed(c, s, ls, r)
    ensures SameShape(ls, painted) && Possible(c, s, painted)
    ensures Got(c, s, painted, r) != Fed(Calls(painted, r))
  {
    painted := PaintedAll(ls, r);
    SizesDecide(c, s, s, ls, painted, r);
    DisturbedGetsStray(c, s, painted, r);
    ReadsAreReads(c, s, ls);
    NoneSentStray(ls, r);
  }

  /**
   * Two default buffers of two loops, still empty, each sent one byte more than
   * it has room for: the first ends with the second's last byte for its own.
   */
  lemma SpillMixesStreams(xs: string, ys: string, area: string) returns (s: System, ls: seq<Label>)
    requires |xs| == |ys| == 961 && |area| == SPILL_SIZE
    ensures SystemWf(DEFAULT_CONFIG, s) && s.bufs == [View(INIT_BUFFER_SIZE, 64, ""), View(INIT_BUFFER_SIZE, 64, "")]
    ensures s.owed == ["", ""] && ls == [Read(0, xs), Read(1, ys), Copy(0), Copy(1)]
    ensures Possible(DEFAULT_CONFIG, s, ls)
    ensures After(DEFAULT_CONFIG, s, ls).bufs[0].data == xs[..960] + [ys[960]]
    ensures After(DEFAULT_CONFIG, s, ls).bufs[1].data == ys
  {
    var c, v := DEFAULT_CONFIG, View(INIT_BUFFER_SIZE, 64, "");
    s := System([v, v], ["", ""], area);
    ls := [Read(0, xs), Read(1, ys), Copy(0), Copy(1)];
    assert Expanded(1024, 2.0) == 2048;
    SpillsOne(v, xs);
    SpillsOne(v, ys);
    var s1 := Next(c, s, ls[0]);
    NextKeeps(c, s, ls[0]);
    var s2 := Next(c, s1, ls[1]);
    NextKeeps(c, s1, ls[1]);
    assert s2.owed == [xs[960..], ys[960..]] && s2.area[..1] == ys[960..];
    var s3 := Next(c, s2, ls[2]);
    NextKeeps(c, s2, ls[2]);
    var s4 := Next(c, s3, ls[3]);
    NextKeeps(c, s3, ls[3]);
    FirstStep(c, s3, Copy(1), []);
    FirstStep(c, s2, Copy(0), [Copy(1)]);
    FirstStep(c, s1, Read(1, ys), [Copy(0)] + [Copy(1)]);
    FirstStep(c, s, Read(0, xs), [Read(1, ys)] + ([Copy(0)] + [Copy(1)]));
    assert [Read(0, xs)] + ([Read(1, ys)] + ([Copy(0)] + [Copy(1)])) == ls;
    assert [Copy(1)] + [] == [Copy(1)];
  }

  lemma SpillsOne(v: View, xs: string)
    requires v == View(INIT_BUFFER_SIZE, 64, "") && |xs| == 961
    ensures Filled(v, xs) == v.(data := xs[..960]) && Spilled(v, xs) == xs[960..] == [xs[960]]
    ensures xs[..960] + [xs[960]] == xs
  {
  }

  lemma FirstStep(c: Config, s: System, l: Label, ls: seq<Label>)
    requires SystemWf(c, s) && Enabled(c, s, l) && SystemWf(c, Next(c, s, l)) && Possible(c, Next(c, s, l), ls)
    ensures Possible(c, s, [l] + ls) && After(c, s, [l] + ls) == After(c, Next(c, s, l), ls)
  {
    assert ([l] + ls)[1..] == ls;
  }
}
