/** bio.c as it runs: buffers 0 up to n on a doubly linked ring with the head, node n, most recently used first. */
module BioCode {
  import opened Bio

  function After1(ring: seq<nat>, k: nat): nat
    requires k < |ring|
  {
    ring[if k + 1 == |ring| then 0 else k + 1]
  }

  /** The node at k and the one after it, the last being followed by the first, point at each other. */
  predicate Link(next: seq<nat>, prev: seq<nat>, ring: seq<nat>, k: nat) {
    k < |ring| && ring[k] < |next| && After1(ring, k) < |prev| && next[ring[k]] == After1(ring, k) && prev[After1(ring, k)] == ring[k]
  }

  predicate Distinct(ring: seq<nat>) {
    forall i, j :: 0 <= i < j < |ring| ==> ring[i] != ring[j]
  }

  ghost predicate RingOk(next: seq<nat>, prev: seq<nat>, ring: seq<nat>) {
    |ring| > 0 && |next| == |prev| && Distinct(ring) && forall k :: 0 <= k < |ring| ==> Link(next, prev, ring, k)
  }

  /** The ring with b right after the head. */
  function Insert(ring: seq<nat>, b: nat): seq<nat>
    requires |ring| > 0
  {
    [ring[0], b] + ring[1..]
  }

  function Remove(ring: seq<nat>, p: nat): seq<nat>
    requires p < |ring|
  {
    ring[..p] + ring[p + 1..]
  }

  lemma InsertOk(next: seq<nat>, prev: seq<nat>, ring: seq<nat>, b: nat, next': seq<nat>, prev': seq<nat>)
    requires RingOk(next, prev, ring) && b < |next| && b !in ring && Link(next, prev, ring, 0)
    requires next' == next[b := next[ring[0]]][ring[0] := b] && prev' == prev[b := ring[0]][next[ring[0]] := b]
    ensures RingOk(next', prev', Insert(ring, b))
  {
    var ring' := Insert(ring, b);
    assert forall k :: 2 <= k < |ring'| ==> ring'[k] == ring[k - 1];
    forall k | 0 <= k < |ring'| ensures Link(next', prev', ring', k) {
      if k >= 2 { assert Link(next, prev, ring, k - 1); }
    }
  }

  lemma RemoveOk(next: seq<nat>, prev: seq<nat>, ring: seq<nat>, p: nat, next': seq<nat>, prev': seq<nat>)
    requires RingOk(next, prev, ring) && 0 < p < |ring| && Link(next, prev, ring, p) && Link(next, prev, ring, p - 1)
    requires next' == next[prev[ring[p]] := next[ring[p]]] && prev' == prev[next[ring[p]] := prev[ring[p]]]
    ensures RingOk(next', prev', Remove(ring, p))
  {
    var ring' := Remove(ring, p);
    assert forall k :: 0 <= k < p ==> ring'[k] == ring[k];
    assert forall k :: p <= k < |ring'| ==> ring'[k] == ring[k + 1];
    forall k | 0 <= k < |ring'| ensures Link(next', prev', ring', k) {
      assert Link(next, prev, ring, k);
      if k >= p { assert Link(next, prev, ring, k + 1); }
    }
  }

  /** The ring is the head and exactly the buffers below m. */
  ghost predicate Whole(ring: seq<nat>, head: nat, m: nat) {
    |ring| == m + 1 && ring[0] == head && (forall k :: 1 <= k < |ring| ==> ring[k] < m) && forall i :: 0 <= i < m ==> i in ring
  }

  lemma MoveKeepsAll(ring: seq<nat>, p: nat, n: nat)
    requires Whole(ring, n, n) && 0 < p < |ring| && Distinct(ring)
    ensures ring[p] !in Remove(ring, p) && Whole(Insert(Remove(ring, p), ring[p]), n, n)
  {
    var rest := Remove(ring, p);
    var ring' := Insert(rest, ring[p]);
    assert forall k :: p <= k < |rest| ==> rest[k] == ring[k + 1];
    assert forall k :: 2 <= k < |ring'| ==> ring'[k] == rest[k - 1];
    forall i | 0 <= i < n ensures i in ring' {
      assert i in ring;
      var k :| 0 <= k < |ring| && ring[k] == i;
      assert k < p ==> ring'[if k == 0 then 0 else k + 1] == i;
      assert k == p ==> ring'[1] == i;
      assert k > p ==> ring'[k] == i;
    }
  }

  class BufferCache {
    const n: nat
    var next: seq<nat>
    var prev: seq<nat>
    var bufs: seq<Buf>
    ghost var ring: seq<nat>

    ghost predicate Valid()
      reads this
    {
      |bufs| == n && |next| == n + 1 && RingOk(next, prev, ring) && Whole(ring, n, n)
    }

    /** binit */
    constructor (count: nat)
      ensures Valid() && n == count && (forall i :: 0 <= i < n ==> bufs[i] == Buf(0, 0, false, false, 0, []))
      ensures forall k :: 1 <= k <= n ==> ring[k] == n - k
    {
      n := count;
      next, prev := seq(count + 1, i => count), seq(count + 1, i => count);
      bufs := seq(count, i => Buf(0, 0, false, false, 0, []));
      ring := [count];
      new;
      assert Link(next, prev, ring, 0);
      var b := 0;
      while b < n
        invariant 0 <= b <= n && |next| == n + 1 && RingOk(next, prev, ring) && Whole(ring, n, b)
        invariant forall k :: 1 <= k <= b ==> ring[k] == b - k
        invariant bufs == seq(count, i => Buf(0, 0, false, false, 0, []))
      {
        ghost var was := ring;
        InsertFront(b);
        assert forall k :: 2 <= k < |ring| ==> ring[k] == was[k - 1];
        forall i | 0 <= i < b + 1 ensures i in ring { assert ring[b + 1 - i] == i; }
        b := b + 1;
      }
    }

    method InsertFront(b: nat)
      requires |next| == n + 1 && RingOk(next, prev, ring) && b < n && b !in ring && ring[0] == n
      modifies this`next, this`prev, this`ring
      ensures |next| == n + 1 && RingOk(next, prev, ring) && ring == Insert(old(ring), b)
    {
      RingLinks(next, prev, ring, 0);
      hide RingOk;
      var first := next[n];
      InsertOk(next, prev, ring, b, next[b := first][n := b], prev[b := n][first := b]);
      next := next[b := first];
      prev := prev[b := n];
      prev := prev[first := b];
      next := next[n := b];
      ring := Insert(ring, b);
    }

    /** The first loop of bget, from the most recently used. */
    method FindBlock(dev: nat, blk: nat) returns (found: bool, b: nat)
      requires Valid()
      ensures found ==> b < n && Caches(bufs[b], dev, blk)
      ensures !found ==> forall j :: 0 <= j < n ==> !Caches(bufs[j], dev, blk)
    {
      hide RingOk;
      RingLinks(next, prev, ring, 0);
      b := next[n];
      ghost var k := 1;
      while b != n
        invariant 1 <= k <= n + 1 && b == After1(ring, k - 1)
        invariant forall q :: 1 <= q < k ==> !Caches(bufs[ring[q]], dev, blk)
        decreases n + 1 - k
      {
        assert ring[k] == b;
        RingLinks(next, prev, ring, k);
        if bufs[b].dev == dev && bufs[b].blk == blk { return true, b; }
        b := next[b];
        k := k + 1;
      }
      forall j | 0 <= j < n ensures !Caches(bufs[j], dev, blk) {
        assert j in ring;
      }
      return false, 0;
    }

    /** The second loop of bget, from the least recently used. */
    method FindUnused() returns (found: bool, b: nat, ghost p: nat)
      requires Valid()
      ensures found ==> 1 <= p <= n && ring[p] == b < n && Unused(bufs[b]) && forall q :: p < q <= n ==> !Unused(bufs[ring[q]])
      ensures !found ==> forall j :: 0 <= j < n ==> !Unused(bufs[j])
    {
      hide RingOk;
      RingLinks(next, prev, ring, n);
      b := prev[n];
      p := n;
      while b != n
        invariant 0 <= p <= n && b == ring[p]
        invariant forall q :: p < q <= n ==> !Unused(bufs[ring[q]])
        decreases p
      {
        if bufs[b].ref == 0 && !bufs[b].dirty { return true, b, p; }
        RingLinks(next, prev, ring, p - 1);
        b := prev[b];
        p := p - 1;
      }
      forall j | 0 <= j < n ensures !Unused(bufs[j]) {
        assert j in ring;
      }
      return false, 0, 0;
    }

    /** bget: the buffer of the block, or the least recently used one that is free for another; panics when there is none. */
    method Bget(dev: nat, blk: nat) returns (ok: bool, i: nat)
      requires Valid()
      modifies this`bufs
      ensures Valid()
      ensures ok ==> CanGet(old(bufs), dev, blk, i) && bufs == old(bufs)[i := Got(old(bufs)[i], dev, blk)]
      ensures ok && !Caches(old(bufs)[i], dev, blk) ==>
                exists p :: 1 <= p <= n && ring[p] == i && forall q :: p < q <= n ==> !Unused(old(bufs)[ring[q]])
      ensures !ok ==> bufs == old(bufs) && forall j :: 0 <= j < n ==> !Unused(bufs[j]) && !Caches(bufs[j], dev, blk)
    {
      hide RingOk;
      ok, i := FindBlock(dev, blk);
      if ok {
        bufs := bufs[i := bufs[i].(ref := bufs[i].ref + 1)];
        return;
      }
      ghost var p;
      ok, i, p := FindUnused();
      if ok {
        bufs := bufs[i := Buf(dev, blk, false, false, 1, bufs[i].data)];
      }
    }

    /** brelse, once the lock is released: a buffer nobody else refers to becomes the most recently used. */
    method Brelse(i: nat)
      requires Valid() && i < n && bufs[i].ref > 0
      modifies this
      ensures Valid() && bufs == old(bufs)[i := old(bufs)[i].(ref := old(bufs)[i].ref - 1)]
      ensures bufs[i].ref > 0 ==> ring == old(ring)
      ensures bufs[i].ref == 0 ==>
                exists p :: 1 <= p <= n && old(ring)[p] == i && ring == Insert(Remove(old(ring), p), i)
    {
      bufs := bufs[i := bufs[i].(ref := bufs[i].ref - 1)];
      if bufs[i].ref == 0 {
        assert i in ring;
        ghost var p :| 0 <= p < |ring| && ring[p] == i;
        MoveKeepsAll(ring, p, n);
        RingLinks(next, prev, ring, p);
        RingLinks(next, prev, ring, p - 1);
        hide RingOk, Whole;
        var before, after := prev[i], next[i];
        RemoveOk(next, prev, ring, p, next[before := after], prev[after := before]);
        prev := prev[after := before];
        next := next[before := after];
        ring := Remove(ring, p);
        InsertFront(i);
      }
    }
  }

  lemma RingLinks(next: seq<nat>, prev: seq<nat>, ring: seq<nat>, k: nat)
    requires RingOk(next, prev, ring) && k < |ring|
    ensures Link(next, prev, ring, k) && |prev| == |next| && Distinct(ring)
  {
  }
}
