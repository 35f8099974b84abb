/**
 * `Channel` and `Epoller`: what a channel wants to hear about, what the poller
 * has on record, and what the kernel has been told.
 */
module Registry {
  import opened Wrappers
  import Sleep

  /** epoll's event bits; a mask is the set of those that are 1. */
  datatype Bit = EPOLLIN | EPOLLPRI | EPOLLOUT | EPOLLERR | EPOLLHUP | EPOLLRDHUP

  type Mask = set<Bit>

  datatype Event = In | Out | Error

  function Bits(e: Event): Mask {
    match e
    case In => {EPOLLIN, EPOLLHUP}
    case Out => {EPOLLOUT}
    case Error => {EPOLLERR}
  }

  predicate Watches(mask: Mask, e: Event) {
    Bits(e) <= mask
  }

  /** One entry of the kernel's interest list: the mask and the `data.ptr` it will hand back. */
  datatype Interest = Interest(mask: Mask, target: Channel)

  datatype CtlOp = Add | Mod

  class Epoller {
    var channels: map<int, Channel>
    var interest: map<int, Interest>
    /** How many `epoll_ctl` calls the kernel has turned down. */
    var refused: nat
    var eventListSize: nat

    /** Same descriptors on both sides, each kernel mask its channel's own. */
    ghost predicate Mirror()
      reads this, channels.Values
    {
      channels.Keys == interest.Keys && forall fd :: fd in channels ==> Mirrored(fd)
    }

    ghost predicate Mirrored(fd: int)
      requires fd in channels && fd in interest
      reads this, channels.Values
    {
      channels[fd].fd == fd && interest[fd] == Interest(channels[fd].event, channels[fd])
    }

    /** The mirror as it stands between a channel's mask change and its `update`. */
    ghost predicate MirrorBut(c: Channel)
      reads this, channels.Values
    {
      && channels.Keys == interest.Keys
      && (c.fd in channels ==> channels[c.fd] == c)
      && forall fd :: fd in channels && fd != c.fd ==> Mirrored(fd)
    }

    constructor (eventListSize: nat := 64)
      ensures channels == map[] && interest == map[] && refused == 0 && this.eventListSize == eventListSize
      ensures Mirror()
    {
      channels, interest, refused := map[], map[], 0;
      this.eventListSize := eventListSize;
    }

    /** The kernel's side: ADD needs a new descriptor, MOD a known one. */
    method UpdateOperation(op: CtlOp, c: Channel)
      modifies this`interest, this`refused
      ensures if op.Add? <==> c.fd !in old(interest)
              then interest == old(interest)[c.fd := Interest(c.event, c)] && refused == old(refused)
              else interest == old(interest) && refused == old(refused) + 1
    {
      if op.Add? == (c.fd !in interest) {
        interest := interest[c.fd := Interest(c.event, c)];
      } else {
        refused := refused + 1;
      }
    }

    method RemoveFromEpoll(fd: int)
      modifies this`interest, this`refused
      ensures interest == old(interest) - {fd}
      ensures refused == old(refused) + if fd in old(interest) then 0 else 1
    {
      if fd in interest {
        interest := interest - {fd};
      } else {
        refused := refused + 1;
      }
    }

    /** Registers or re-registers; the kernel accepts either way. */
    method Update(c: Channel)
      requires MirrorBut(c)
      modifies this`channels, this`interest, this`refused
      ensures Mirror() && refused == old(refused)
      ensures channels == old(channels)[c.fd := c]
      ensures interest == old(interest)[c.fd := Interest(c.event, c)]
    {
      var op;
      if c.fd !in channels {
        op := Add;
        channels := channels[c.fd := c];
      } else {
        op := Mod;
      }
      UpdateOperation(op, c);
    }

    method RemoveChannel(c: Channel)
      requires Mirror() && c.fd in channels && channels[c.fd] == c
      modifies this`channels, this`interest, this`refused
      ensures Mirror() && refused == old(refused)
      ensures channels == old(channels) - {c.fd} && interest == old(interest) - {c.fd}
    {
      channels := channels - {c.fd};
      RemoveFromEpoll(c.fd);
    }

    /**
     * What `epoll_wait` may deliver: each registered descriptor at most once, by
     * the pointer it was registered with.
     */
    ghost predicate Deliverable(delivered: seq<(Channel, Mask)>)
      reads this
    {
      && |delivered| <= eventListSize
      && (forall i :: 0 <= i < |delivered| ==> exists fd :: fd in interest && interest[fd].target == delivered[i].0)
      && (forall i, j :: 0 <= i < j < |delivered| ==> delivered[i].0 != delivered[j].0)
    }

    /** Every channel handed out is registered, the assertion in the loop holds, and nothing but `revent` changes. */
    method FillActivatedChannels(delivered: seq<(Channel, Mask)>) returns (activated: seq<Channel>)
      requires Mirror() && Deliverable(delivered)
      modifies set i | 0 <= i < |delivered| :: delivered[i].0
      ensures Mirror()
      ensures |activated| == |delivered|
      ensures forall i :: 0 <= i < |delivered| ==>
                && activated[i] == delivered[i].0 && activated[i].revent == delivered[i].1
                && activated[i].fd in channels && channels[activated[i].fd] == activated[i]
      ensures forall c :: c in activated ==> c.event == old(c.event)
    {
      activated := [];
      var i := 0;
      while i < |delivered|
        invariant 0 <= i <= |delivered| && |activated| == i
        invariant Mirror()
        invariant forall j :: 0 <= j < |delivered| ==> delivered[j].0.event == old(delivered[j].0.event)
        invariant forall j :: 0 <= j < i ==>
                    && activated[j] == delivered[j].0 && activated[j].revent == delivered[j].1
                    && activated[j].fd in channels && channels[activated[j].fd] == activated[j]
      {
        var c := delivered[i].0;
        ghost var fd :| fd in interest && interest[fd].target == c;
        assert Mirrored(fd);
        assert c.fd in channels && channels[c.fd] == c;
        c.SetRevent(delivered[i].1);
        assert forall d :: d in channels ==> Mirrored(d);
        activated := activated + [c];
        i := i + 1;
      }
    }

    /**
     * Asks the kernel to sleep until the deadline, as far as `Sleep` shows that to
     * succeed. A failed wait delivers nothing; a full list doubles, so that more
     * can be delivered next time.
     */
    method Wait(expTime: int, now: int, delivered: Option<seq<(Channel, Mask)>>)
        returns (activated: seq<Channel>, timeout: int)
      requires Mirror() && (delivered.Some? ==> Deliverable(delivered.value))
      modifies this`eventListSize
      modifies if delivered.Some? then set i | 0 <= i < |delivered.value| :: delivered.value[i].0 else {}
      ensures timeout == Sleep.EpollTimeout(expTime, now)
      ensures Mirror()
      ensures |activated| == if delivered.Some? then |delivered.value| else 0
      ensures forall i :: 0 <= i < |activated| ==>
                && activated[i] == delivered.value[i].0 && activated[i].revent == delivered.value[i].1
                && activated[i].fd in channels && channels[activated[i].fd] == activated[i]
      ensures eventListSize == if delivered.Some? && |activated| == old(eventListSize) then 2 * |activated|
                               else old(eventListSize)
    {
      var exp := -1;
      if expTime != Sleep.NO_TIMER {
        exp := Sleep.MillisecondsFromNow(expTime, now);
      }
      timeout := Sleep.Narrow(exp);
      if delivered.None? {
        return [], timeout;
      }
      activated := FillActivatedChannels(delivered.value);
      if |activated| == eventListSize {
        eventListSize := eventListSize * 2;
      }
    }
  }

  datatype Callback = Close | OnError | Read | Write

  class Channel {
    const fd: int
    const epoller: Epoller
    var event: Mask
    var revent: Mask
    var isReading: bool
    var isWriting: bool

    /** The flags say what the mask says. */
    ghost predicate Consistent()
      reads this
    {
      (isReading <==> Watches(event, In)) && (isWriting <==> Watches(event, Out))
    }

    /** The poller is in step with the kernel, and this descriptor is nobody else's. */
    ghost predicate Settled()
      reads this, epoller, epoller.channels.Values
    {
      Consistent() && epoller.Mirror() && (fd in epoller.channels ==> epoller.channels[fd] == this)
    }

    constructor (epoller: Epoller, fd: int)
      ensures this.epoller == epoller && this.fd == fd
      ensures Consistent() && event == {}
    {
      this.epoller, this.fd := epoller, fd;
      event, revent, isReading, isWriting := {}, {}, false, false;
    }

    method SetRevent(revent: Mask)
      modifies this`revent
      ensures this.revent == revent
    {
      this.revent := revent;
    }

    /** Changes the mask and tells the poller; what every enable and disable ends with. */
    method SetEvent(mask: Mask)
      requires epoller.Mirror() && (fd in epoller.channels ==> epoller.channels[fd] == this)
      modifies this`event, epoller`channels, epoller`interest, epoller`refused
      ensures event == mask && epoller.Mirror() && epoller.refused == old(epoller.refused)
      ensures epoller.channels == old(epoller.channels)[fd := this]
      ensures epoller.interest == old(epoller.interest)[fd := Interest(mask, this)]
    {
      event := mask;
      assert forall d :: d in epoller.channels && d != fd ==> old(epoller.Mirrored(d)) && epoller.Mirrored(d);
      epoller.Update(this);
    }

    method EnableRead()
      requires Settled()
      modifies this`event, this`isReading, epoller`channels, epoller`interest, epoller`refused
      ensures Settled() && epoller.refused == old(epoller.refused)
      ensures Watches(event, In) && forall e :: e != In ==> (Watches(event, e) <==> old(Watches(event, e)))
      ensures event == old(event) + Bits(In)
      ensures epoller.interest == old(epoller.interest)[fd := Interest(event, this)]
      ensures {EPOLLIN, EPOLLHUP} <= epoller.interest[fd].mask
      ensures forall b :: b != EPOLLIN && b != EPOLLHUP ==> (b in epoller.interest[fd].mask <==> b in old(event))
    {
      isReading := true;
      SetEvent(event + Bits(In));
    }

    method EnableWrite()
      requires Settled()
      modifies this`event, this`isWriting, epoller`channels, epoller`interest, epoller`refused
      ensures Settled() && epoller.refused == old(epoller.refused)
      ensures Watches(event, Out) && forall e :: e != Out ==> (Watches(event, e) <==> old(Watches(event, e)))
      ensures event == old(event) + Bits(Out)
      ensures epoller.interest == old(epoller.interest)[fd := Interest(event, this)]
      ensures EPOLLOUT in epoller.interest[fd].mask
      ensures forall b :: b != EPOLLOUT ==> (b in epoller.interest[fd].mask <==> b in old(event))
    {
      isWriting := true;
      SetEvent(event + Bits(Out));
    }

    method EnableError()
      requires Settled()
      modifies this`event, epoller`channels, epoller`interest, epoller`refused
      ensures Settled() && epoller.refused == old(epoller.refused)
      ensures Watches(event, Error) && forall e :: e != Error ==> (Watches(event, e) <==> old(Watches(event, e)))
      ensures event == old(event) + Bits(Error)
      ensures epoller.interest == old(epoller.interest)[fd := Interest(event, this)]
      ensures EPOLLERR in epoller.interest[fd].mask
      ensures forall b :: b != EPOLLERR ==> (b in epoller.interest[fd].mask <==> b in old(event))
    {
      SetEvent(event + Bits(Error));
    }

    method DisableReading()
      requires Settled()
      modifies this`event, this`isReading, epoller`channels, epoller`interest, epoller`refused
      ensures Settled() && epoller.refused == old(epoller.refused)
      ensures !Watches(event, In) && forall e :: e != In ==> (Watches(event, e) <==> old(Watches(event, e)))
      ensures event == old(event) - Bits(In)
      ensures epoller.interest == old(epoller.interest)[fd := Interest(event, this)]
      ensures EPOLLIN !in epoller.interest[fd].mask && EPOLLHUP !in epoller.interest[fd].mask
      ensures forall b :: b != EPOLLIN && b != EPOLLHUP ==> (b in epoller.interest[fd].mask <==> b in old(event))
    {
      isReading := false;
      SetEvent(event - Bits(In));
    }

    method DisableWriting()
      requires Settled()
      modifies this`event, this`isWriting, epoller`channels, epoller`interest, epoller`refused
      ensures Settled() && epoller.refused == old(epoller.refused)
      ensures !Watches(event, Out) && forall e :: e != Out ==> (Watches(event, e) <==> old(Watches(event, e)))
      ensures event == old(event) - Bits(Out)
      ensures epoller.interest == old(epoller.interest)[fd := Interest(event, this)]
      ensures EPOLLOUT !in epoller.interest[fd].mask
      ensures forall b :: b != EPOLLOUT ==> (b in epoller.interest[fd].mask <==> b in old(event))
    {
      isWriting := false;
      SetEvent(event - Bits(Out));
    }

    method DisableError()
      requires Settled()
      modifies this`event, epoller`channels, epoller`interest, epoller`refused
      ensures Settled() && epoller.refused == old(epoller.refused)
      ensures !Watches(event, Error) && forall e :: e != Error ==> (Watches(event, e) <==> old(Watches(event, e)))
      ensures event == old(event) - Bits(Error)
      ensures epoller.interest == old(epoller.interest)[fd := Interest(event, this)]
      ensures EPOLLERR !in epoller.interest[fd].mask
      ensures forall b :: b != EPOLLERR ==> (b in epoller.interest[fd].mask <==> b in old(event))
    {
      SetEvent(event - Bits(Error));
    }

    method DisableAll()
      requires Settled()
      modifies this`event, this`isReading, this`isWriting, epoller`channels, epoller`interest, epoller`refused
      ensures Settled() && epoller.refused == old(epoller.refused)
      ensures event == {} && forall e :: !Watches(event, e)
      ensures epoller.channels == old(epoller.channels)[fd := this]
      ensures epoller.interest == old(epoller.interest)[fd := Interest({}, this)]
    {
      isReading, isWriting := false, false;
      SetEvent({});
    }

    /**
     * The destructor: `disableAll`, then `remove`. Whether or not the channel was
     * ever registered, removal finds it, the kernel refuses nothing, and
     * afterwards the descriptor is gone from both sides and no other is touched.
     */
    method Destroy()
      requires Settled()
      modifies this`event, this`isReading, this`isWriting, epoller`channels, epoller`interest, epoller`refused
      ensures Settled() && event == {}
      ensures epoller.Mirror() && epoller.refused == old(epoller.refused)
      ensures epoller.channels == old(epoller.channels) - {fd}
      ensures epoller.interest == old(epoller.interest) - {fd}
    {
      DisableAll();
      epoller.RemoveChannel(this);
    }

    /** `has` are the callbacks that have been set. */
    method HandleEvent(has: set<Callback>) returns (called: seq<Callback>)
      ensures CalledBefore(called, 4, revent, has)
      ensures Close in called <==> Close in has && EPOLLHUP in revent && EPOLLIN !in revent
      ensures OnError in called <==> OnError in has && EPOLLERR in revent
      ensures Read in called <==> Read in has && (EPOLLIN in revent || EPOLLPRI in revent || EPOLLRDHUP in revent)
      ensures Write in called <==> Write in has && EPOLLOUT in revent
      ensures forall i, j :: 0 <= i < j < |called| ==> Precedes(called[i], called[j])
    {
      called := CallIf([], Close, EPOLLHUP in revent && EPOLLIN !in revent && Close in has, revent, has);
      called := CallIf(called, OnError, EPOLLERR in revent && OnError in has, revent, has);
      called := CallIf(called, Read, (EPOLLIN in revent || EPOLLPRI in revent || EPOLLRDHUP in revent) && Read in has,
                       revent, has);
      called := CallIf(called, Write, EPOLLOUT in revent && Write in has, revent, has);
      CalledInBits(called, revent, has);
      CalledInOrder(called);
    }
  }

  /** Callbacks in strictly increasing turn, all before `end`. */
  ghost predicate InTurn(called: seq<Callback>, end: nat) {
    && (forall i :: 0 <= i < |called| ==> Turn(called[i]) < end)
    && forall i, j :: 0 <= i < j < |called| ==> Turn(called[i]) < Turn(called[j])
  }

  /** The callbacks whose turn is before `end` have been called as often as they should. */
  ghost predicate CalledBefore(called: seq<Callback>, end: nat, revent: Mask, has: set<Callback>) {
    && InTurn(called, end)
    && forall cb :: multiset(called)[cb] == if Turn(cb) < end && Wanted(revent, cb) && cb in has then 1 else 0
  }

  lemma CalledIfWanted(called: seq<Callback>, revent: Mask, has: set<Callback>, cb: Callback)
    requires CalledBefore(called, 4, revent, has)
    ensures cb in called <==> Wanted(revent, cb) && cb in has
  {
    assert cb in called <==> 0 < multiset(called)[cb];
  }

  /** Close, error, read, write. */
  predicate Precedes(a: Callback, b: Callback) {
    || (a.Close? && (b.OnError? || b.Read? || b.Write?))
    || (a.OnError? && (b.Read? || b.Write?))
    || (a.Read? && b.Write?)
  }

  lemma CalledInOrder(called: seq<Callback>)
    requires InTurn(called, 4)
    ensures forall i, j :: 0 <= i < j < |called| ==> Precedes(called[i], called[j])
  {
  }

  lemma CalledInBits(called: seq<Callback>, revent: Mask, has: set<Callback>)
    requires CalledBefore(called, 4, revent, has)
    ensures Close in called <==> Close in has && EPOLLHUP in revent && EPOLLIN !in revent
    ensures OnError in called <==> OnError in has && EPOLLERR in revent
    ensures Read in called <==> Read in has && (EPOLLIN in revent || EPOLLPRI in revent || EPOLLRDHUP in revent)
    ensures Write in called <==> Write in has && EPOLLOUT in revent
  {
    CalledIfWanted(called, revent, has, Close);
    CalledIfWanted(called, revent, has, OnError);
    CalledIfWanted(called, revent, has, Read);
    CalledIfWanted(called, revent, has, Write);
  }

  method CallIf(called: seq<Callback>, cb: Callback, wanted: bool, ghost revent: Mask, ghost has: set<Callback>)
      returns (r: seq<Callback>)
    requires CalledBefore(called, Turn(cb), revent, has) && (wanted <==> Wanted(revent, cb) && cb in has)
    ensures CalledBefore(r, Turn(cb) + 1, revent, has)
  {
    r := if wanted then called + [cb] else called;
    assert multiset(r) == multiset(called) + if wanted then multiset{cb} else multiset{};
    assert forall c :: Turn(c) < Turn(cb) + 1 <==> Turn(c) < Turn(cb) || c == cb;
  }

  /** Which events call for a callback. */
  predicate Wanted(revent: Mask, cb: Callback) {
    match cb
    case Close => EPOLLHUP in revent && EPOLLIN !in revent
    case OnError => EPOLLERR in revent
    case Read => EPOLLIN in revent || EPOLLPRI in revent || EPOLLRDHUP in revent
    case Write => EPOLLOUT in revent
  }

  function Turn(cb: Callback): nat {
    match cb
    case Close => 0
    case OnError => 1
    case Read => 2
    case Write => 3
  }

  // Any number of channels on one poller

  datatype ChannelOp =
    | OpEnableRead | OpEnableWrite | OpEnableError
    | OpDisableReading | OpDisableWriting | OpDisableError | OpDisableAll
    | OpDestroy

  /** Channels of one poller, one to a descriptor, all settled; an unregistered one wants nothing yet. */
  ghost predicate AllSettled(p: Epoller, cs: set<Channel>)
    reads p, p.channels.Values, cs
  {
    && p.Mirror()
    && (forall c :: c in cs ==> c.epoller == p && c.Consistent())
    && (forall c :: c in cs ==> if c.fd in p.channels then p.channels[c.fd] == c else c.event == {})
    && forall c, d :: c in cs && d in cs && c.fd == d.fd ==> c == d
  }

  function MaskAfter(mask: Mask, op: ChannelOp): Mask {
    match op
    case OpEnableRead => mask + Bits(In)
    case OpEnableWrite => mask + Bits(Out)
    case OpEnableError => mask + Bits(Error)
    case OpDisableReading => mask - Bits(In)
    case OpDisableWriting => mask - Bits(Out)
    case OpDisableError => mask - Bits(Error)
    case _ => {}
  }

  /** One operation on a plain table of masks by descriptor. */
  function TableAfter(table: map<int, Mask>, fd: int, op: ChannelOp): map<int, Mask> {
    if op.OpDestroy? then table - {fd}
    else table[fd := MaskAfter(if fd in table then table[fd] else {}, op)]
  }

  function TableAfterAll(table: map<int, Mask>, ops: seq<(int, ChannelOp)>): map<int, Mask>
    decreases |ops|
  {
    if ops == [] then table else TableAfterAll(TableAfter(table, ops[0].0, ops[0].1), ops[1..])
  }

  /** What the kernel holds, by descriptor. */
  ghost function KernelTable(p: Epoller): map<int, Mask>
    reads p
  {
    map fd | fd in p.interest :: p.interest[fd].mask
  }

  /** The operation proper, on the channel's own mask. */
  method Dispatch(c: Channel, op: ChannelOp)
    requires c.Settled()
    modifies c, c.epoller
    ensures c.Settled() && c.epoller.refused == old(c.epoller.refused)
    ensures c.event == MaskAfter(old(c.event), op)
    ensures c.epoller.interest == if op.OpDestroy? then old(c.epoller.interest) - {c.fd}
                                  else old(c.epoller.interest)[c.fd := Interest(c.event, c)]
  {
    match op {
      case OpEnableRead => c.EnableRead();
      case OpEnableWrite => c.EnableWrite();
      case OpEnableError => c.EnableError();
      case OpDisableReading => c.DisableReading();
      case OpDisableWriting => c.DisableWriting();
      case OpDisableError => c.DisableError();
      case OpDisableAll => c.DisableAll();
      case OpDestroy => c.Destroy();
    }
  }

  method Operate(p: Epoller, cs: set<Channel>, c: Channel, op: ChannelOp)
    requires c in cs && AllSettled(p, cs)
    modifies p, c
    ensures AllSettled(p, cs) && p.refused == old(p.refused)
    ensures KernelTable(p) == TableAfter(old(KernelTable(p)), c.fd, op)
  {
    assert c.fd in p.channels ==> p.Mirrored(c.fd);
    Dispatch(c, op);
    forall d | d in cs ensures if d.fd in p.channels then p.channels[d.fd] == d else d.event == {} {
      assert d.fd in old(p.channels) ==> old(p.Mirrored(d.fd));
      assert d.fd in p.channels ==> p.Mirrored(d.fd);
    }
  }

  /** The same run of operations, each on the descriptor of its channel. */
  function Named(ops: seq<(Channel, ChannelOp)>): seq<(int, ChannelOp)> {
    seq(|ops|, i requires 0 <= i < |ops| => (ops[i].0.fd, ops[i].1))
  }

  /**
   * Any sequence of operations by any number of channels sharing a poller: its
   * record, the channels and the kernel agree throughout, the kernel refuses
   * nothing, and holds in the end what a plain table would.
   */
  method OperateAll(p: Epoller, cs: set<Channel>, ops: seq<(Channel, ChannelOp)>)
    requires AllSettled(p, cs) && forall i :: 0 <= i < |ops| ==> ops[i].0 in cs
    modifies p, cs
    ensures AllSettled(p, cs) && p.refused == old(p.refused)
    ensures KernelTable(p) == TableAfterAll(old(KernelTable(p)), Named(ops))
    decreases |ops|
  {
    if ops == [] {
      return;
    }
    Operate(p, cs, ops[0].0, ops[0].1);
    OperateAll(p, cs, ops[1..]);
    assert Named(ops)[1..] == Named(ops[1..]);
  }
}
