/**
 Pipes: the ring buffer with its wrapping 32-bit counters, and any interleaving of readers
 and writers over it.
 */
module Pipe {
  import opened Common

  const PIPESIZE: nat := 512

  datatype WriteEnd = Wrote | WriteBlocked | WriteFailed
  datatype ReadEnd = ReadDone | ReadBlocked | ReadFailed

  /** How far one stretch of pipewrite under the lock gets: until the bytes or the space run out. */
  function Room(buf: seq<byte>, rest: seq<byte>): nat
    requires |buf| <= PIPESIZE
  {
    Min(|rest|, PIPESIZE - |buf|)
  }

  function WriteOutcome(buf: seq<byte>, rest: seq<byte>, readopen: bool, killed: bool): WriteEnd
    requires |buf| <= PIPESIZE
  {
    if Room(buf, rest) == |rest| then Wrote else if !readopen || killed then WriteFailed else WriteBlocked
  }

  function ReadOutcome(buf: seq<byte>, writeopen: bool, killed: bool): ReadEnd {
    if buf == [] && writeopen then (if killed then ReadFailed else ReadBlocked) else ReadDone
  }

  // ----- the ring buffer -----

  class Ring {
    const data: array<byte>
    var nread: nat
    var nwrite: nat
    var readopen: bool
    var writeopen: bool
    /** The bytes written and not yet read. */
    ghost var buf: seq<byte>

    /** The counters wrap at 32 bits; PIPESIZE divides that, so a wrapped index is the same slot. */
    ghost predicate Valid()
      reads this, data
    {
      && data.Length == PIPESIZE && nread < UINT && nwrite < UINT
      && |buf| <= PIPESIZE
      && nwrite == (nread + |buf|) % UINT
      && forall k :: 0 <= k < |buf| ==> buf[k] == data[Slot(nread, k)]
    }

    constructor ()
      ensures Valid() && buf == [] && readopen && writeopen && fresh(data)
    {
      data := new byte[PIPESIZE](_ => 0);
      nread, nwrite, readopen, writeopen, buf := 0, 0, true, true, [];
    }

    /** p->data[p->nwrite++ % PIPESIZE] = x */
    method Push(x: byte)
      requires Valid() && |buf| < PIPESIZE
      modifies this`nwrite, this`buf, data
      ensures Valid() && buf == old(buf) + [x]
    {
      hide Slot;
      SlotsDiffer(nread, |buf|);
      data[nwrite % PIPESIZE] := x;
      nwrite := (nwrite + 1) % UINT;
      buf := buf + [x];
    }

    /** x = p->data[p->nread++ % PIPESIZE] */
    method Pop() returns (x: byte)
      requires Valid() && buf != []
      modifies this`nread, this`buf
      ensures Valid() && x == old(buf)[0] && buf == old(buf)[1..]
    {
      hide Slot;
      SlotsShift(nread, |buf|);
      x := data[nread % PIPESIZE];
      assert forall k :: 1 <= k < |buf| ==> buf[k] == data[Slot((nread + 1) % UINT, k - 1)];
      nread := (nread + 1) % UINT;
      buf := buf[1..];
    }

    /** pipewrite from taking the lock (or waking) to giving it up; i counts the bytes stored. */
    method WriteStretch(addr: seq<byte>, i0: nat, killed: bool) returns (i: nat, end: WriteEnd)
      requires Valid() && i0 <= |addr|
      modifies this`nwrite, this`buf, data
      ensures Valid()
      ensures i0 <= i <= |addr| && buf == old(buf) + addr[i0..i] && (i < |addr| ==> |buf| == PIPESIZE)
      ensures i == i0 + Room(old(buf), addr[i0..]) && end == WriteOutcome(old(buf), addr[i0..], readopen, killed)
      ensures end == Wrote <==> i == |addr|
      ensures end == WriteFailed <==> i < |addr| && (!readopen || killed)
    {
      hide Slot;
      i := i0;
      while i < |addr|
        invariant i0 <= i <= |addr| && Valid() && readopen == old(readopen)
        invariant buf == old(buf) + addr[i0..i]
      {
        FullTest(nread, |buf|);
        if nwrite == (nread + PIPESIZE) % UINT {
          if !readopen || killed {
            return i, WriteFailed;
          }
          return i, WriteBlocked;
        }
        Push(addr[i]);
        assert addr[i0..i + 1] == addr[i0..i] + [addr[i]];
        i := i + 1;
      }
      return i, Wrote;
    }

    /** piperead from taking the lock (or waking) to giving it up. */
    method ReadStretch(n: nat, killed: bool) returns (dst: seq<byte>, end: ReadEnd)
      requires Valid()
      modifies this`nread, this`buf
      ensures Valid()
      ensures end == ReadOutcome(old(buf), writeopen, killed)
      ensures end == ReadDone <==> old(buf) != [] || !writeopen
      ensures end == ReadFailed <==> old(buf) == [] && writeopen && killed
      ensures end == ReadDone ==> dst == old(buf)[..Min(n, |old(buf)|)] && buf == old(buf)[Min(n, |old(buf)|)..]
      ensures end != ReadDone ==> dst == [] && buf == old(buf)
    {
      hide Slot;
      dst := [];
      FullTest(nread, |buf|);
      if nread == nwrite && writeopen {
        return [], if killed then ReadFailed else ReadBlocked;
      }
      while |dst| < n
        invariant |dst| <= Min(n, |old(buf)|) && Valid() && writeopen == old(writeopen)
        invariant dst == old(buf)[..|dst|] && buf == old(buf)[|dst|..]
        decreases n - |dst|
      {
        FullTest(nread, |buf|);
        if nread == nwrite { break; }
        var x := Pop();
        dst := dst + [x];
      }
      return dst, ReadDone;
    }

    /** pipeclose of one end; the page is given back with the last one. */
    method Close(writable: bool) returns (freed: bool)
      requires Valid()
      modifies this`readopen, this`writeopen
      ensures Valid() && writeopen == (old(writeopen) && !writable) && readopen == (old(readopen) && writable)
      ensures freed <==> !readopen && !writeopen
    {
      if writable { writeopen := false; } else { readopen := false; }
      return !readopen && !writeopen;
    }
  }

  /** The slot of the k-th unread byte. */
  function Slot(nread: nat, k: nat): (i: nat)
    ensures i < PIPESIZE
  {
    (nread + k) % UINT % PIPESIZE
  }

  /** The counters tell full from empty for every fill level, wrapped or not. */
  lemma FullTest(nread: nat, fill: nat)
    requires nread < UINT && fill <= PIPESIZE
    ensures (nread + fill) % UINT == (nread + PIPESIZE) % UINT <==> fill == PIPESIZE
    ensures (nread + fill) % UINT == nread <==> fill == 0
  {
  }

  /** Wrapping at 32 bits does not move a slot, because 512 divides the range. */
  lemma SlotIs(nread: nat, k: nat)
    requires nread < UINT && k <= PIPESIZE
    ensures Slot(nread, k) == (nread + k) % 512
  {
    if nread + k >= 0x1_0000_0000 {
      assert (nread + k) % UINT == nread + k - 0x1_0000_0000;
      assert (nread + k - 0x1_0000_0000) % 512 == (nread + k) % 512;
    }
  }

  lemma SlotsDiffer(nread: nat, fill: nat)
    requires nread < UINT && fill < PIPESIZE
    ensures forall k :: 0 <= k < fill ==> Slot(nread, k) != Slot(nread, fill)
    ensures Slot(nread, fill) == (nread + fill) % UINT % PIPESIZE
    ensures (nread + (fill + 1)) % UINT == ((nread + fill) % UINT + 1) % UINT
  {
    SlotIs(nread, fill);
    forall k | 0 <= k < fill ensures Slot(nread, k) != Slot(nread, fill) {
      SlotIs(nread, k);
      Mod512(nread, k, fill);
    }
  }

  lemma Mod512(n: nat, j: nat, k: nat)
    requires j < k < 512
    ensures (n + j) % 512 != (n + k) % 512
  {
  }

  lemma SlotsShift(nread: nat, fill: nat)
    requires nread < UINT && 0 < fill <= PIPESIZE
    ensures forall k :: 1 <= k < fill ==> Slot((nread + 1) % UINT, k - 1) == Slot(nread, k)
    ensures ((nread + 1) % UINT + (fill - 1)) % UINT == (nread + fill) % UINT
    ensures Slot(nread, 0) == nread % PIPESIZE
  {
  }
}
