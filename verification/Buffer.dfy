/**
 * `Buffer`: a growable container with a read and a write index. Each method is
 * proved to act on the real array as BufferSpec says it acts on the view.
 */
module Buffers {
  import opened Wrappers
  import opened Search
  import opened BufferSpec
  import opened SharedSpill

  class Buffer {
    var buff: array<char>
    var readStart: nat
    var writeStart: nat
    const prepend: nat
    const factor: Factor
    const growth: Growth

    /** eps <= readStart <= writeStart <= container size, as Buffer.hpp pictures it. */
    ghost predicate Valid()
      reads this
    {
      prepend <= readStart <= writeStart <= buff.Length
    }

    function Cfg(): Config {
      Config(prepend, factor, growth)
    }

    function Layout(): View
      requires Valid()
      reads this, buff
    {
      View(buff.Length, readStart, buff[readStart..writeStart])
    }

    constructor (initContainerSize: nat := INIT_BUFFER_SIZE, expandFactor: Factor := 2.0, prependSize: nat := 64,
                 growth: Growth := AsWritten)
      ensures fresh(buff)
      ensures Cfg() == Config(prependSize, expandFactor, growth)
      ensures Valid() <==> prependSize <= initContainerSize
      ensures Valid() ==> Layout() == View(initContainerSize, prependSize, "")
    {
      buff := new char[initContainerSize](_ => '\0');
      readStart, writeStart := prependSize, prependSize;
      prepend, factor := prependSize, expandFactor;
      this.growth := growth;
    }

    method ReadableSize() returns (n: nat)
      requires Valid()
      ensures n == |Layout().data|
    {
      n := writeStart - readStart;
    }

    method CanWriteableDirection() returns (n: nat)
      requires Valid()
      ensures forall k: nat :: k <= n <==> HasRoom(Layout(), k)
    {
      n := buff.Length - writeStart;
    }

    /** What compaction could make writable: with enough of it, moving is all that `Reserved` does. */
    method CanWriteableThroughReforming() returns (n: nat)
      requires Valid()
      ensures n == Reclaimable(Cfg(), Layout())
      ensures HasRoom(Layout().(read := prepend), n) && !HasRoom(Layout().(read := prepend), n + 1)
    {
      n := buff.Length - writeStart + readStart - prepend;
    }

    /** Overlapping move of the readable bytes to the front, nothing else changes. */
    method ReformingBuffer()
      requires Valid()
      modifies this`readStart, this`writeStart, buff
      ensures Valid() && Layout() == old(Layout()).(read := prepend)
    {
      ghost var readable := buff[readStart..writeStart];
      var canReadSize := ReadableSize();
      forall i | 0 <= i < canReadSize {
        buff[prepend + i] := buff[readStart + i];
      }
      readStart := prepend;
      writeStart := prepend + canReadSize;
      assert buff[readStart..writeStart] == readable;
    }

    /** `std::vector::resize`: keeps the common prefix, zero-fills what is new. */
    method Resize(newSize: nat)
      modifies this`buff
      ensures fresh(buff) && buff.Length == newSize
      ensures forall i :: 0 <= i < newSize ==> buff[i] == if i < old(buff.Length) then old(buff[i]) else '\0'
    {
      var before := buff;
      buff := new char[newSize](i requires 0 <= i reads before => if i < before.Length then before[i] else '\0');
    }

    /**
     * The whole effect, room found or not. Should the resize fall short even of
     * the readable bytes (only a factor below one can do that) the indices are
     * left dangling and the object is no longer valid.
     */
    method EnsureCapacity(size: nat)
      requires Valid()
      modifies this, buff
      ensures buff == old(buff) || fresh(buff)
      ensures var r := Reserved(Cfg(), old(Layout()), size);
              && buff.Length == r.size && readStart == r.read && writeStart == r.Write()
              && (Valid() <==> Wf(Cfg(), r))
              && (Valid() ==> Layout() == r)
    {
      if size <= buff.Length - writeStart {
        return;
      }
      if size <= buff.Length - writeStart + readStart - prepend {
        ReformingBuffer();
        return;
      }
      ReformingBuffer();
      ghost var readable := buff[readStart..writeStart];
      var needed := size - (buff.Length - writeStart);
      var factorExpand := Expanded(buff.Length, factor);
      var amount := if needed < factorExpand then factorExpand else needed;
      Resize(if growth.AsWritten? then amount else buff.Length + amount);
      if Valid() {
        assert buff[readStart..writeStart] == readable;
      }
    }

    /**
     * The original copies without looking whether there is room. `inBounds` is no
     * value of its own there: it is false exactly for the calls in which that copy
     * would run past the container, and the model stops before it.
     */
    method Append(xs: string) returns (inBounds: bool)
      requires Valid()
      modifies this, buff
      ensures buff == old(buff) || fresh(buff)
      ensures inBounds <==> GrowthGuard(Cfg(), old(Layout()), |xs|)
      ensures inBounds ==> Valid() && Layout() == Appended(Cfg(), old(Layout()), xs)
                           && Layout().data == old(Layout().data) + xs
      ensures !inBounds ==> var r := Reserved(Cfg(), old(Layout()), |xs|);
                            buff.Length == r.size && readStart == r.read && writeStart == r.Write()
    {
      CapacityExact(Cfg(), Layout(), |xs|);
      EnsureCapacity(|xs|);
      inBounds := writeStart + |xs| <= buff.Length;
      if inBounds {
        Write(xs);
      }
    }

    /** `memcpy` to the write index. */
    method Write(xs: string)
      requires Valid() && HasRoom(Layout(), |xs|)
      modifies this`writeStart, buff
      ensures Valid() && Layout() == old(Layout()).(data := old(Layout().data) + xs)
    {
      ghost var readable := buff[readStart..writeStart];
      forall i | 0 <= i < |xs| {
        buff[writeStart + i] := xs[i];
      }
      writeStart := writeStart + |xs|;
      assert buff[readStart..writeStart] == readable + xs;
    }

    /** Moves the read index, unchecked: the buffer stays valid exactly if that much was readable. */
    method Retrieve(n: nat)
      requires Valid()
      modifies this`readStart
      ensures readStart == old(readStart) + n
      ensures Valid() <==> n <= |old(Layout()).data|
      ensures Valid() ==> Layout() == Dropped(old(Layout()), n)
    {
      ghost var readable := buff[readStart..writeStart];
      readStart := readStart + n;
      if readStart <= writeStart {
        assert buff[readStart..writeStart] == readable[n..];
      }
    }

    /** All or nothing: too large a request takes nothing out. */
    method RetrieveAsString(n: nat) returns (str: string)
      requires Valid()
      modifies this`readStart
      ensures Valid() && Layout() == Apply(Cfg(), old(Layout()), Op.RetrieveAsString(n))
      ensures str == Leaving(old(Layout()).data, Op.RetrieveAsString(n))
      ensures if |old(Layout()).data| < n then str == "" && Layout() == old(Layout())
              else |str| == n && str + Layout().data == old(Layout()).data
    {
      var readable := ReadableSize();
      if readable < n {
        return "";
      }
      ghost var data := buff[readStart..writeStart];
      str := buff[readStart..readStart + n];
      assert |str| == |data[..n]| && forall i :: 0 <= i < n ==> str[i] == data[i];
      assert str + data[n..] == data;
      Retrieve(n);
    }

    /** `pos` is an offset from the first readable byte; the original asserts it lies strictly inside. */
    method RetrieveUntil(pos: nat)
      requires Valid() && 0 < pos < |Layout().data|
      modifies this`readStart
      ensures Valid() && Layout() == Dropped(old(Layout()), pos)
    {
      Retrieve(pos);
    }

    method RetrieveAsStringUntil(pos: nat) returns (str: string)
      requires Valid() && 0 < pos < |Layout().data|
      modifies this`readStart
      ensures Valid() && str + Layout().data == old(Layout()).data && |str| == pos
      ensures Layout() == Dropped(old(Layout()), pos)
    {
      str := RetrieveAsString(pos);
    }

    method FindCrLf() returns (pos: Option<nat>)
      requires Valid()
      ensures pos == Find(Layout().data, CR_LF)
    {
      pos := Find(buff[readStart..writeStart], CR_LF);
    }

    method FindCrLfTwice() returns (pos: Option<nat>)
      requires Valid()
      ensures pos == Find(Layout().data, CR_LF_TWICE)
    {
      pos := Find(buff[readStart..writeStart], CR_LF_TWICE);
    }

    /**
     * One scattered read: the kernel delivers some bytes, first into the writable
     * part of the container, then over the front of the shared area `tmpBuff`, or
     * it fails. What spilled is appended from there, after whatever `others`, the
     * reads of other threads in between, have spilled over it. `inBounds` as for
     * `Append`.
     */
    method ReadFromFd(tmpBuff: array<char>, delivered: Option<string>, others: seq<string>)
        returns (n: int, inBounds: bool)
      requires Valid() && tmpBuff != buff && tmpBuff.Length == SPILL_SIZE
      requires delivered.Some? ==> |delivered.value| <= buff.Length - writeStart + SPILL_SIZE
      requires forall i :: 0 <= i < |others| ==> |others[i]| <= SPILL_SIZE
      modifies this, buff, tmpBuff
      ensures buff == old(buff) || fresh(buff)
      ensures inBounds <==> (delivered.Some? ==> ReceiveGuard(Cfg(), old(Layout()), delivered.value))
      ensures delivered.None? ==> n == -1 && Valid() && Layout() == old(Layout())
      ensures delivered.Some? ==> n == |delivered.value|
      ensures !inBounds ==> buff.Length == Received(Cfg(), old(Layout()), delivered.value).size && readStart == prepend
      ensures delivered.Some? && inBounds ==>
                && Valid()
                && Layout() == Received(Cfg(), old(Layout()),
                                        Taken(old(Layout()), delivered.value, old(tmpBuff[..]), others))
      ensures delivered.Some? && inBounds && (forall i :: 0 <= i < |others| ==> others[i] == "") ==>
                Layout() == Received(Cfg(), old(Layout()), delivered.value)
    {
      if delivered.None? {
        return -1, true;
      }
      var xs := delivered.value;
      n := |xs|;
      ghost var start, area := Layout(), tmpBuff[..];
      var writable := buff.Length - writeStart;
      if writable < n {
        Write(xs[..writable]);
        Spill(tmpBuff, xs[writable..]);
        OthersSpill(tmpBuff, others);
        ghost var taken := Taken(start, xs, area, others);
        assert taken[..writable] == xs[..writable] && taken[writable..] == tmpBuff[..n - writable];
        inBounds := Append(tmpBuff[..n - writable]);
        if forall i :: 0 <= i < |others| ==> others[i] == "" {
          NothingOver(Over(area, xs[writable..]), others);
          assert taken == xs;
        }
      } else {
        Write(xs);
        assert xs[..|xs|] == xs && xs[|xs|..] == "";
        inBounds := true;
      }
    }

    /** The kernel's part of `readv` behind the container. */
    method Spill(tmpBuff: array<char>, xs: string)
      requires |xs| <= tmpBuff.Length
      modifies tmpBuff
      ensures tmpBuff[..] == Over(old(tmpBuff[..]), xs)
    {
      forall i | 0 <= i < |xs| {
        tmpBuff[i] := xs[i];
      }
    }

    method OthersSpill(tmpBuff: array<char>, others: seq<string>)
      requires forall i :: 0 <= i < |others| ==> |others[i]| <= tmpBuff.Length
      modifies tmpBuff
      ensures tmpBuff[..] == OverAll(old(tmpBuff[..]), others)
      decreases |others|
    {
      if others != [] {
        Spill(tmpBuff, others[0]);
        OthersSpill(tmpBuff, others[1..]);
      }
    }
  }

  /**
   * Any run of calls on one buffer object, no other thread spilling during a
   * `readFromFD` (`SharedSpill.UndisturbedIsAlone`), up to the first that the code could
   * not carry out within the container or that takes more than is readable: how
   * many calls that is, and the bytes the reader got out of them.
   */
  method Perform(b: Buffer, tmpBuff: array<char>, ops: seq<Op>) returns (out: string, k: nat)
    requires b.Valid() && tmpBuff != b.buff && tmpBuff.Length == SPILL_SIZE
    modifies b, b.buff, tmpBuff
    ensures b.buff == old(b.buff) || fresh(b.buff)
    ensures b.Valid() && k <= |ops| && RunAllowed(b.Cfg(), old(b.Layout()), ops[..k])
    ensures b.Layout() == Final(b.Cfg(), old(b.Layout()), ops[..k])
    ensures k < |ops| ==> !Allowed(b.Cfg(), b.Layout(), ops[k])
    ensures out == Consumed(b.Cfg(), old(b.Layout()), ops[..k])
    ensures out + b.Layout().data == old(b.Layout().data) + Fed(ops[..k])
    decreases |ops|
  {
    ghost var before := b.Layout();
    if ops == [] || !Allowed(b.Cfg(), b.Layout(), ops[0]) {
      return "", 0;
    }
    out := PerformOne(b, tmpBuff, ops[0]);
    var more, rest := Perform(b, tmpBuff, ops[1..]);
    out, k := out + more, rest + 1;
    assert ops[..k][0] == ops[0] && ops[..k][1..] == ops[1..][..rest];
    StreamConservation(b.Cfg(), before, ops[..k]);
  }

  method PerformOne(b: Buffer, tmpBuff: array<char>, op: Op) returns (out: string)
    requires b.Valid() && tmpBuff != b.buff && tmpBuff.Length == SPILL_SIZE
    requires Allowed(b.Cfg(), b.Layout(), op)
    modifies b, b.buff, tmpBuff
    ensures b.buff == old(b.buff) || fresh(b.buff)
    ensures b.Valid() && b.Layout() == Apply(b.Cfg(), old(b.Layout()), op)
    ensures out == Leaving(old(b.Layout()).data, op)
  {
    out := "";
    match op {
      case Append(xs) =>
        var _ := b.Append(xs);
      case Receive(xs) =>
        var _, _ := b.ReadFromFd(tmpBuff, Some(xs), []);
      case ReceiveFailed =>
        var _, _ := b.ReadFromFd(tmpBuff, None, []);
      case Retrieve(n) =>
        out := b.buff[b.readStart..b.readStart + n];
        assert out == b.Layout().data[..n];
        b.Retrieve(n);
      case RetrieveAsString(n) =>
        out := b.RetrieveAsString(n);
    }
  }
}
