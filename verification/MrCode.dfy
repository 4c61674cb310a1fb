/** arraylist.c, multimap.c and mapreduce.c as they run. */
module MrCode {
  import opened MrSpec

  /** A growing array: its volume is at least 8 and doubles when it is full. */
  class ArrayList<T(0)> {
    var items: array<T>
    var length: nat
    var volume: nat
    var iterPos: nat

    ghost predicate Valid()
      reads this
    {
      length <= volume == items.Length && 8 <= volume
    }

    ghost function Contents(): seq<T>
      requires Valid()
      reads this, items
    {
      items[..length]
    }

    constructor ()
      ensures Valid() && Contents() == [] && iterPos == 0 && fresh(items)
    {
      length, volume, iterPos := 0, 8, 0;
      items := new T[8];
    }

    method EnsureVolume(required: nat)
      requires Valid()
      modifies this`items, this`volume
      ensures Valid() && volume >= required && Contents() == old(Contents())
      ensures old(volume) >= required ==> volume == old(volume) && items == old(items)
      ensures old(volume) < required ==> volume < 2 * required && fresh(items)
    {
      if volume >= required { return; }
      var target := volume;
      while target < required
        invariant volume <= target < 2 * required
      {
        target := target * 2;
      }
      var more := new T[target];
      var i := 0;
      while i < volume
        modifies more
        invariant 0 <= i <= volume && more[..i] == items[..i]
      {
        more[i] := items[i];
        i := i + 1;
      }
      assert more[..length] == more[..volume][..length] == items[..length];
      items := more;
      volume := target;
    }

    method Push(x: T)
      requires Valid()
      modifies this, items
      ensures Valid() && Contents() == old(Contents()) + [x] && iterPos == old(iterPos)
      ensures items == old(items) || fresh(items)
    {
      EnsureVolume(length + 1);
      items[length] := x;
      length := length + 1;
      assert items[..length] == items[..length - 1] + [x];
    }
  }

  class MultiMap {
    const hash: string -> nat
    const lists: seq<ArrayList<Pair>>
    ghost var emitted: seq<Pair>

    ghost predicate Valid()
      reads this, lists, set l | l in lists :: l.items
    {
      (forall k :: hash(k) < |lists|) &&
      (forall i, j :: 0 <= i < j < |lists| ==> lists[i] != lists[j] && lists[i].items != lists[j].items) &&
      (forall p :: 0 <= p < |lists| ==> lists[p].Valid() && lists[p].Contents() == Share(emitted, hash, p))
    }

    constructor (f: string -> nat, ls: seq<ArrayList<Pair>>)
      requires forall k :: f(k) < |ls|
      requires forall i, j :: 0 <= i < j < |ls| ==> ls[i] != ls[j] && ls[i].items != ls[j].items
      requires forall p :: 0 <= p < |ls| ==> ls[p].Valid() && ls[p].Contents() == []
      ensures Valid() && emitted == [] && hash == f && lists == ls
    {
      hash, lists, emitted := f, ls, [];
    }

    /** put_item, which MR_Emit calls with the semaphore held. */
    method PutItem(key: string, value: string)
      requires Valid()
      modifies this`emitted, lists, set l | l in lists :: l.items
      ensures Valid() && emitted == old(emitted) + [Pair(key, value)]
      ensures forall l :: l in lists ==> l.iterPos == old(l.iterPos) && (l.items == old(l.items) || fresh(l.items))
    {
      var p := hash(key);
      ghost var was := emitted;
      ghost var now := emitted + [Pair(key, value)];
      ShareOne(was, hash, Pair(key, value));
      lists[p].Push(Pair(key, value));
      emitted := now;
      forall q | 0 <= q < |lists| ensures lists[q].Valid() && lists[q].Contents() == Share(now, hash, q) {
        if q != p {
          assert lists[q].Contents() == old(lists[q].Contents());
        }
      }
    }
  }

  /** The mappers' emits, in the order they get the semaphore. */
  method EmitAll(m: MultiMap, es: seq<Pair>)
    requires m.Valid()
    modifies m`emitted, m.lists, set l | l in m.lists :: l.items
    ensures m.Valid() && m.emitted == old(m.emitted) + es
    ensures forall l :: l in m.lists ==> l.iterPos == old(l.iterPos) && (l.items == old(l.items) || fresh(l.items))
  {
    var i := 0;
    assert es[..0] == [];
    while i < |es|
      invariant 0 <= i <= |es| && m.Valid() && m.emitted == old(m.emitted) + es[..i]
      invariant forall l :: l in m.lists ==> l.iterPos == old(l.iterPos) && (l.items == old(l.items) || fresh(l.items))
    {
      m.PutItem(es[i].key, es[i].value);
      assert es[..i + 1] == es[..i] + [es[i]];
      i := i + 1;
    }
    assert es[..i] == es;
  }

  /** A partition's list before its reduce thread runs. */
  ghost predicate Waiting(l: ArrayList<Pair>, share: seq<Pair>)
    reads l, l.items
  {
    l.Valid() && l.iterPos == 0 && l.Contents() == share
  }

  /**
   The reduce phase, with each partition's array as qsort leaves it. Call j of partition p asks for
   asks(p)(j) values at most.
   */
  method ReduceAll(m: MultiMap, sorts: seq<seq<Pair>>, asks: nat -> nat -> nat) returns (out: seq<seq<Group>>, ghost runs: seq<seq<Group>>)
    requires m.Valid() && |sorts| == |m.lists| && forall l :: l in m.lists ==> l.iterPos == 0
    requires forall p :: 0 <= p < |sorts| ==> Sorted(sorts[p]) && multiset(sorts[p]) == multiset(Share(m.emitted, m.hash, p))
    modifies m.lists, set l | l in m.lists :: l.items
    ensures |out| == |runs| == |sorts|
    ensures forall p :: 0 <= p < |out| ==> Grouped(runs[p], sorts[p]) && Served(out[p], runs[p], asks(p))
  {
    hide Grouped, Sorted, Share, Served, AllDone, Rest, Waiting, MultiMap.Valid;
    NoneDone(sorts, asks);
    var lists := m.lists;
    ghost var es, hash := m.emitted, m.hash;
    ghost var shares := seq(|lists|, q requires 0 <= q < |lists| => Share(es, hash, q));
    AllWaiting(m, shares);
    out, runs := [], [];
    var p := 0;
    while p < |lists|
      invariant 0 <= p <= |lists| && AllDone(sorts, asks, out, runs, p) && Rest(lists, shares, p)
      invariant forall l :: l in lists ==> l.items == old(l.items)
    {
      ghost var rs;
      var gs;
      gs, rs := ReduceOne(lists, p, sorts[p], asks(p), shares);
      OneDone(sorts, asks, out, runs, p, gs, rs);
      out, runs := out + [gs], runs + [rs];
      p := p + 1;
    }
    EachDone(sorts, asks, out, runs);
  }

  /** The lists are separate, and those from p on wait for their threads. */
  ghost predicate Rest(lists: seq<ArrayList<Pair>>, shares: seq<seq<Pair>>, p: nat)
    reads lists, set l | l in lists :: l.items
  {
    && |lists| == |shares|
    && (forall i, j :: 0 <= i < j < |lists| ==> lists[i] != lists[j] && lists[i].items != lists[j].items)
    && forall q :: p <= q < |lists| ==> Waiting(lists[q], shares[q])
  }

  lemma AllWaiting(m: MultiMap, shares: seq<seq<Pair>>)
    requires m.Valid() && |shares| == |m.lists| && forall l :: l in m.lists ==> l.iterPos == 0
    requires forall q :: 0 <= q < |shares| ==> shares[q] == Share(m.emitted, m.hash, q)
    ensures Rest(m.lists, shares, 0)
  {
  }

  /** One partition's thread, which leaves the others alone. */
  method ReduceOne(lists: seq<ArrayList<Pair>>, p: nat, sorted: seq<Pair>, asks: nat -> nat, ghost shares: seq<seq<Pair>>)
    returns (gs: seq<Group>, ghost runs: seq<Group>)
    requires Rest(lists, shares, p) && p < |lists| && Sorted(sorted) && multiset(sorted) == multiset(shares[p])
    modifies lists[p], lists[p].items
    ensures lists[p].items == old(lists[p].items) && Rest(lists, shares, p + 1)
    ensures Grouped(runs, sorted) && Served(gs, runs, asks)
  {
    hide Grouped, Sorted, Served;
    assert Waiting(lists[p], shares[p]);
    gs, runs := ReduceThread(lists[p], sorted, asks);
    forall q | p < q < |lists| ensures Waiting(lists[q], shares[q]) {
      assert lists[q] != lists[p] && lists[q].items != lists[p].items;
      assert old(Waiting(lists[q], shares[q]));
    }
  }

  ghost predicate AllDone(sorts: seq<seq<Pair>>, asks: nat -> nat -> nat, out: seq<seq<Group>>, runs: seq<seq<Group>>, p: nat) {
    |out| == |runs| == p <= |sorts| && forall q :: 0 <= q < p ==> Grouped(runs[q], sorts[q]) && Served(out[q], runs[q], asks(q))
  }

  lemma NoneDone(sorts: seq<seq<Pair>>, asks: nat -> nat -> nat)
    ensures AllDone(sorts, asks, [], [], 0)
  {
  }

  lemma OneDone(sorts: seq<seq<Pair>>, asks: nat -> nat -> nat, out: seq<seq<Group>>, runs: seq<seq<Group>>, p: nat, gs: seq<Group>, rs: seq<Group>)
    requires AllDone(sorts, asks, out, runs, p) && p < |sorts| && Grouped(rs, sorts[p]) && Served(gs, rs, asks(p))
    ensures AllDone(sorts, asks, out + [gs], runs + [rs], p + 1)
  {
    hide Grouped, Served;
  }

  lemma EachDone(sorts: seq<seq<Pair>>, asks: nat -> nat -> nat, out: seq<seq<Group>>, runs: seq<seq<Group>>)
    requires AllDone(sorts, asks, out, runs, |sorts|)
    ensures |out| == |runs| == |sorts|
    ensures forall p :: 0 <= p < |out| ==> Grouped(runs[p], sorts[p]) && Served(out[p], runs[p], asks(p))
  {
    hide Grouped, Served;
  }

  /**
   MR_Run: the mappers emit es in some order and every partition is reduced. Over all partitions
   together each emitted key is reduced exactly once; `runs` are the calls with exactly the values
   emitted for their keys, and the reducers are handed all of these exactly when each asks for all of its own.
   */
  method Run(m: MultiMap, es: seq<Pair>, sorts: seq<seq<Pair>>, asks: nat -> nat -> nat) returns (out: seq<seq<Group>>, ghost runs: seq<seq<Group>>)
    requires m.Valid() && m.emitted == [] && |sorts| == |m.lists| && forall l :: l in m.lists ==> l.iterPos == 0
    requires forall p :: 0 <= p < |sorts| ==> Sorted(sorts[p]) && multiset(sorts[p]) == multiset(Share(es, m.hash, p))
    modifies m`emitted, m.lists, set l | l in m.lists :: l.items
    ensures |out| == |runs| == |m.lists|
    ensures forall p :: 0 <= p < |out| ==> Served(out[p], runs[p], asks(p))
    ensures forall p, j :: 0 <= p < |runs| && 0 <= j < |runs[p]| ==> RightCall(runs[p][j], es, m.hash, p)
    ensures out == runs <==> forall p :: 0 <= p < |runs| ==> Fed(runs[p], asks(p), |runs[p]|)
    ensures forall e :: e in es ==> ReducedAt(out, m.hash(e.key), e.key)
    ensures forall p, i, j :: 0 <= p < |out| && 0 <= i < j < |out[p]| ==> Before(out[p][i].key, out[p][j].key)
    ensures OneCallPerKey(out)
  {
    hide Grouped, Sorted, Share, Served, Fed, OneCallPerKey, ReducedAt, RightCall;
    EmitAll(m, es);
    assert m.emitted == es;
    out, runs := ReduceAll(m, sorts, asks);
    AllReduced(es, m.hash, sorts, runs);
    AllServed(out, runs, sorts, asks);
    SameCalls(es, m.hash, out, runs, asks);
  }

  lemma AllServed(out: seq<seq<Group>>, runs: seq<seq<Group>>, sorts: seq<seq<Pair>>, asks: nat -> nat -> nat)
    requires |out| == |runs| == |sorts|
    requires forall p :: 0 <= p < |out| ==> Grouped(runs[p], sorts[p]) && Served(out[p], runs[p], asks(p))
    ensures out == runs <==> forall p :: 0 <= p < |runs| ==> Fed(runs[p], asks(p), |runs[p]|)
  {
    hide Served, Fed;
    forall p | 0 <= p < |runs| ensures out[p] == runs[p] <==> Fed(runs[p], asks(p), |runs[p]|) {
      assert Grouped(runs[p], sorts[p]);
      ServedInFull(out[p], runs[p], asks(p));
    }
  }

  /** The calls that are made do not depend on how much the reducers take. */
  lemma SameCalls(es: seq<Pair>, hash: string -> nat, out: seq<seq<Group>>, runs: seq<seq<Group>>, asks: nat -> nat -> nat)
    requires |out| == |runs| && forall p :: 0 <= p < |out| ==> Served(out[p], runs[p], asks(p))
    requires forall e :: e in es ==> ReducedAt(runs, hash(e.key), e.key)
    requires forall p, i, j :: 0 <= p < |runs| && 0 <= i < j < |runs[p]| ==> Before(runs[p][i].key, runs[p][j].key)
    requires OneCallPerKey(runs)
    ensures forall e :: e in es ==> ReducedAt(out, hash(e.key), e.key)
    ensures forall p, i, j :: 0 <= p < |out| && 0 <= i < j < |out[p]| ==> Before(out[p][i].key, out[p][j].key)
    ensures OneCallPerKey(out)
  {
    assert forall p :: 0 <= p < |out| ==> SameKeyed(out[p], runs[p]);
    hide Served;
    forall e | e in es ensures ReducedAt(out, hash(e.key), e.key) {
      var p := hash(e.key);
      assert ReducedAt(runs, p, e.key) && SameKeyed(out[p], runs[p]);
      var j :| 0 <= j < |runs[p]| && runs[p][j].key == e.key;
      assert out[p][j].key == e.key;
    }
  }

  predicate SameKeyed(a: seq<Group>, b: seq<Group>) {
    |a| == |b| && forall j :: 0 <= j < |a| ==> a[j].key == b[j].key
  }

  /** Partition p has a call for the key. */
  ghost predicate ReducedAt(out: seq<seq<Group>>, p: nat, k: string) {
    p < |out| && exists j :: 0 <= j < |out[p]| && out[p][j].key == k
  }

  /** A call in the key's own partition, with each value as often as it was emitted for the key. */
  ghost predicate RightCall(g: Group, es: seq<Pair>, hash: string -> nat, p: nat) {
    hash(g.key) == p && forall v :: multiset(g.values)[v] == multiset(es)[Pair(g.key, v)]
  }

  /** No key is reduced twice, in one partition or in two. */
  ghost predicate OneCallPerKey(out: seq<seq<Group>>) {
    forall p, q, i, j :: 0 <= p < |out| && 0 <= q < |out| && 0 <= i < |out[p]| && 0 <= j < |out[q]| ==>
      out[p][i].key == out[q][j].key ==> p == q && i == j
  }

  lemma AllReduced(es: seq<Pair>, hash: string -> nat, sorts: seq<seq<Pair>>, out: seq<seq<Group>>)
    requires |out| == |sorts| && (forall k :: hash(k) < |sorts|)
    requires forall p :: 0 <= p < |sorts| ==> multiset(sorts[p]) == multiset(Share(es, hash, p)) && Grouped(out[p], sorts[p])
    ensures forall e :: e in es ==> ReducedAt(out, hash(e.key), e.key)
    ensures forall p, j :: 0 <= p < |out| && 0 <= j < |out[p]| ==> RightCall(out[p][j], es, hash, p)
    ensures forall p, i, j :: 0 <= p < |out| && 0 <= i < j < |out[p]| ==> Before(out[p][i].key, out[p][j].key)
    ensures OneCallPerKey(out)
  {
    hide Share, Grouped;
    forall e | e in es ensures ReducedAt(out, hash(e.key), e.key) {
      EachKeyReducedOnce(es, hash, hash(e.key), sorts[hash(e.key)], out[hash(e.key)]);
    }
    forall p | 0 <= p < |out|
      ensures forall j :: 0 <= j < |out[p]| ==> RightCall(out[p][j], es, hash, p)
      ensures forall i, j :: 0 <= i < j < |out[p]| ==> Before(out[p][i].key, out[p][j].key) && out[p][i].key != out[p][j].key
    {
      EachKeyReducedOnce(es, hash, p, sorts[p], out[p]);
    }
    forall p, q, i, j | 0 <= p < |out| && 0 <= q < |out| && 0 <= i < |out[p]| && 0 <= j < |out[q]| && out[p][i].key == out[q][j].key
      ensures p == q && i == j
    {
      assert RightCall(out[p][i], es, hash, p) && RightCall(out[q][j], es, hash, q);
    }
  }

  lemma ShareOne(es: seq<Pair>, hash: string -> nat, e: Pair)
    ensures forall p :: Share(es + [e], hash, p) == Share(es, hash, p) + if hash(e.key) == p then [e] else []
  {
    assert (es + [e])[..|es|] == es;
  }

  /** __get_next_value: the next value while the key is the same. */
  method GetNextValue(l: ArrayList<Pair>, key: string) returns (some: bool, value: string)
    requires l.Valid() && l.iterPos <= l.length
    modifies l`iterPos
    ensures some <==> old(l.iterPos) < l.length && l.items[old(l.iterPos)].key == key
    ensures some ==> value == l.items[old(l.iterPos)].value && l.iterPos == old(l.iterPos) + 1
    ensures !some ==> l.iterPos == old(l.iterPos)
  {
    if l.iterPos >= l.length { return false, ""; }
    var current := l.items[l.iterPos];
    if StrCmp(current.key, key) != 0 {
      CmpZero(current.key, key);
      return false, "";
    }
    CmpZero(current.key, key);
    l.iterPos := l.iterPos + 1;
    return true, current.value;
  }

  /** A reducer that asks for a value `most` times at most, and no more once it gets none. */
  method Ask(l: ArrayList<Pair>, key: string, most: nat) returns (values: seq<string>)
    requires l.Valid() && l.iterPos <= l.length
    modifies l`iterPos
    ensures old(l.iterPos) <= l.iterPos <= l.length && |values| <= most
    ensures l.Contents()[old(l.iterPos)..l.iterPos] == Pairs(Group(key, values))
    ensures |values| < most && l.iterPos < l.length ==> l.Contents()[l.iterPos].key != key
  {
    values := [];
    while |values| < most
      invariant old(l.iterPos) <= l.iterPos <= l.length && |values| <= most
      invariant l.Contents()[old(l.iterPos)..l.iterPos] == Pairs(Group(key, values))
      decreases l.length - l.iterPos
    {
      var some, value := GetNextValue(l, key);
      if !some { return; }
      assert Pairs(Group(key, values + [value])) == Pairs(Group(key, values)) + [Pair(key, value)];
      assert l.Contents()[old(l.iterPos)..l.iterPos] == l.Contents()[old(l.iterPos)..l.iterPos - 1] + [l.items[l.iterPos - 1]];
      values := values + [value];
    }
  }

  lemma AddGroup(gs: seq<Group>, l: seq<Pair>, g: Group, i: nat, m: nat)
    requires i <= m <= |l| && Grouped(gs, l[..i]) && Pairs(g) == l[i..m] && g.values != [] && Sorted(l)
    requires i == 0 || g.key != l[i - 1].key
    ensures Grouped(gs + [g], l[..m])
  {
    var gs' := gs + [g];
    assert gs'[..|gs|] == gs && l[..m] == l[..i] + l[i..m];
    assert l[i] == Pairs(g)[0];
    forall a, b | 0 <= a < b < |gs'| ensures Before(gs'[a].key, gs'[b].key) {
      if b == |gs| { KeyInside(gs, l, a, i); CmpZero(gs[a].key, g.key); }
    }
  }

  /** A group's key is that of some pair of the array, and all pairs after the groups have another. */
  lemma KeyInside(gs: seq<Group>, l: seq<Pair>, a: nat, i: nat)
    requires a < |gs| && 0 <= i < |l| && Grouped(gs, l[..i]) && Sorted(l) && (i == 0 || l[i].key != l[i - 1].key)
    ensures StrCmp(gs[a].key, l[i].key) <= 0 && gs[a].key != l[i].key
  {
    var e := Pair(gs[a].key, gs[a].values[0]);
    FlattenCount(gs, e);
    assert e.value in multiset(gs[a].values);
    assert e in multiset(l[..i]) && e in l[..i];
    var x :| 0 <= x < i && l[..i][x] == e;
    assert l[x] == e && StrCmp(l[x].key, l[i].key) <= 0;
    assert x == i - 1 || StrCmp(l[x].key, l[i - 1].key) <= 0;
    CmpZero(l[i - 1].key, l[i].key);
    CmpZero(l[x].key, l[i - 1].key);
  }

  /**
   __reduce_thread_runner, with the array as qsort leaves it; call j asks for asks(j) values at most. `runs`
   are the array's runs of equal keys.
   */
  method ReduceThread(l: ArrayList<Pair>, sorted: seq<Pair>, asks: nat -> nat) returns (gs: seq<Group>, ghost runs: seq<Group>)
    requires l.Valid() && l.iterPos == 0 && Sorted(sorted) && multiset(sorted) == multiset(l.Contents())
    modifies l`iterPos, l.items
    ensures Grouped(runs, sorted) && Served(gs, runs, asks)
    ensures l.iterPos == l.length <==> Fed(runs, asks, |runs|)
  {
    Rearrange(l, sorted);
    GoingNowhere(sorted, asks);
    hide Going, Grouped, Sorted, StrCmp, Pairs, Served, Fed;
    gs, runs := [], [];
    ghost var e := 0;
    var i := 0;
    while i < l.length
      modifies l`iterPos
      invariant 0 <= i <= l.length && l.iterPos <= l.length && l.Contents() == sorted && Going(sorted, asks, i, e, l.iterPos, gs, runs)
    {
      assert l.items[i] == sorted[i] && (i > 0 ==> l.items[i - 1] == sorted[i - 1]);
      var first := i == 0 || StrCmp(l.items[i - 1].key, l.items[i].key) != 0;
      if i > 0 { CmpZero(sorted[i - 1].key, sorted[i].key); }
      if first {
        ghost var at := l.iterPos;
        GoingLengths(sorted, asks, i, e, at, gs, runs);
        var values := Ask(l, l.items[i].key, asks(|gs|));
        GoingCall(sorted, asks, i, e, at, gs, runs, l.iterPos, values);
        gs := gs + [Group(l.items[i].key, values)];
        runs, e := runs + [RunFrom(sorted, i)], RunEnd(sorted, i);
      } else {
        GoingOn(sorted, asks, i, e, l.iterPos, gs, runs);
      }
      i := i + 1;
    }
    GoingDone(sorted, asks, i, e, l.iterPos, gs, runs);
  }

  /** Before place i of the array: the runs that begin there end at e, and the iterator is there or, once a call stopped early, behind. */
  ghost predicate Going(l: seq<Pair>, asks: nat -> nat, i: nat, e: nat, at: nat, gs: seq<Group>, runs: seq<Group>) {
    && i <= e <= |l| && at <= e && Grouped(runs, l[..e]) && Served(gs, runs, asks)
    && (e == i || (i > 0 && forall x :: i <= x < e ==> l[x].key == l[i - 1].key))
    && (0 < e < |l| ==> l[e].key != l[e - 1].key)
    && (at == e <==> Fed(runs, asks, |runs|))
  }

  lemma GoingNowhere(l: seq<Pair>, asks: nat -> nat)
    ensures Going(l, asks, 0, 0, 0, [], [])
  {
    NoGroups(l);
    NothingServed(asks);
  }

  lemma GoingLengths(l: seq<Pair>, asks: nat -> nat, i: nat, e: nat, at: nat, gs: seq<Group>, runs: seq<Group>)
    requires Going(l, asks, i, e, at, gs, runs)
    ensures |gs| == |runs|
  {
  }

  lemma GoingOn(l: seq<Pair>, asks: nat -> nat, i: nat, e: nat, at: nat, gs: seq<Group>, runs: seq<Group>)
    requires 0 < i < |l| && Going(l, asks, i, e, at, gs, runs) && l[i].key == l[i - 1].key
    ensures Going(l, asks, i + 1, e, at, gs, runs)
  {
    hide Grouped, Served, Fed;
  }

  lemma GoingCall(l: seq<Pair>, asks: nat -> nat, i: nat, e: nat, at: nat, gs: seq<Group>, runs: seq<Group>, p: nat, values: seq<string>)
    requires i < |l| && Going(l, asks, i, e, at, gs, runs) && (i > 0 ==> l[i].key != l[i - 1].key) && Sorted(l) && at <= p <= |l|
    requires Pairs(Group(l[i].key, values)) == l[at..p] && |values| <= asks(|gs|)
    requires |values| < asks(|gs|) && p < |l| ==> l[p].key != l[i].key
    ensures Going(l, asks, i + 1, RunEnd(l, i), p, gs + [Group(l[i].key, values)], runs + [RunFrom(l, i)])
  {
    hide Grouped, Served, Fed, Pairs, RunEnd, RunFrom, Sorted;
    assert e == i;
    HandedOut(gs, runs, asks, l, at, i, p, values);
    AddGroup(runs, l, RunFrom(l, i), i, RunEnd(l, i));
  }

  lemma GoingDone(l: seq<Pair>, asks: nat -> nat, i: nat, e: nat, at: nat, gs: seq<Group>, runs: seq<Group>)
    requires i == |l| && Going(l, asks, i, e, at, gs, runs)
    ensures Grouped(runs, l) && Served(gs, runs, asks) && (at == |l| <==> Fed(runs, asks, |runs|))
  {
    hide Grouped, Served, Fed;
    assert l[..e] == l;
  }

  lemma NothingServed(asks: nat -> nat)
    ensures Served([], [], asks) && Fed([], asks, 0)
  {
  }

  /** One call: with the iterator at its run it is handed what it asks for, and with the iterator behind nothing. */
  lemma HandedOut(gs: seq<Group>, runs: seq<Group>, asks: nat -> nat, l: seq<Pair>, at: nat, i: nat, p: nat, values: seq<string>)
    requires Served(gs, runs, asks) && Sorted(l) && at <= i < |l| && at <= p <= |l| && (0 < i ==> l[i].key != l[i - 1].key)
    requires at == i <==> Fed(runs, asks, |runs|)
    requires Pairs(Group(l[i].key, values)) == l[at..p] && |values| <= asks(|gs|)
    requires |values| < asks(|gs|) && p < |l| ==> l[p].key != l[i].key
    ensures Served(gs + [Group(l[i].key, values)], runs + [RunFrom(l, i)], asks) && p <= RunEnd(l, i)
    ensures p == RunEnd(l, i) <==> Fed(runs + [RunFrom(l, i)], asks, |runs| + 1)
    ensures RunFrom(l, i).key == l[i].key && RunFrom(l, i).values != [] && Pairs(RunFrom(l, i)) == l[i..RunEnd(l, i)]
    ensures i < RunEnd(l, i) <= |l| && forall x :: i <= x < RunEnd(l, i) ==> l[x].key == l[i].key
    ensures RunEnd(l, i) < |l| ==> l[RunEnd(l, i)].key != l[i].key
  {
    assert |gs| == |runs|;
    hide Pairs, RunEnd, RunFrom, Served, Fed, Sorted;
    ServedNext(gs, runs, asks, RunFrom(l, i));
    if at == i {
      TakenFromRun(l, i, p, values, asks(|gs|));
    } else {
      KeyIsPast(l, at, i);
      NoneTaken(l, at, p, l[i].key, values);
    }
  }

  /** qsort writes its rearrangement over the array. */
  method Rearrange(l: ArrayList<Pair>, sorted: seq<Pair>)
    requires l.Valid() && multiset(sorted) == multiset(l.Contents())
    modifies l.items
    ensures l.Contents() == sorted
  {
    assert |sorted| == |multiset(sorted)| == |multiset(l.Contents())| == l.length;
    forall i | 0 <= i < l.length { l.items[i] := sorted[i]; }
  }

  lemma NoGroups(l: seq<Pair>)
    ensures Grouped([], l[..0])
  {
  }

  // ----- which mapper gets which files -----

  datatype File = File(path: string, size: nat)

  function Bytes(fs: seq<File>): nat {
    if fs == [] then 0 else Bytes(fs[..|fs| - 1]) + fs[|fs| - 1].size
  }

  function Concat(ls: seq<seq<File>>): seq<File> {
    if ls == [] then [] else Concat(ls[..|ls| - 1]) + ls[|ls| - 1]
  }

  lemma {:induction false} BytesSum(a: seq<File>, b: seq<File>)
    ensures Bytes(a + b) == Bytes(a) + Bytes(b)
    decreases |b|
  {
    if b == [] {
      assert a + b == a;
    } else {
      assert (a + b)[..|a + b| - 1] == a + b[..|b| - 1];
      BytesSum(a, b[..|b| - 1]);
    }
  }

  /** One mapper's share: files until it has quota bytes or they run out. */
  method Fill(stats: seq<File>, given: nat, quota: nat) returns (mine: seq<File>, upTo: nat)
    requires given <= |stats|
    ensures given <= upTo <= |stats| && mine == stats[given..upTo]
    ensures upTo < |stats| ==> Bytes(mine) >= quota
    ensures upTo > given ==> Bytes(mine[..|mine| - 1]) < quota
  {
    hide Bytes;
    mine, upTo := [], given;
    var accum := 0;
    NoLists(stats);
    while accum < quota && upTo < |stats|
      invariant given <= upTo <= |stats| && mine == stats[given..upTo] && accum == Bytes(mine)
      invariant upTo > given ==> Bytes(mine[..|mine| - 1]) < quota
      decreases |stats| - upTo
    {
      PushBytes(stats, given, upTo);
      mine := mine + [stats[upTo]];
      accum := accum + stats[upTo].size;
      upTo := upTo + 1;
    }
  }

  lemma PushBytes(stats: seq<File>, given: nat, upTo: nat)
    requires given <= upTo < |stats|
    ensures stats[given..upTo + 1] == stats[given..upTo] + [stats[upTo]]
    ensures stats[given..upTo + 1][..upTo - given] == stats[given..upTo]
    ensures Bytes(stats[given..upTo + 1]) == Bytes(stats[given..upTo]) + stats[upTo].size
  {
    assert stats[given..upTo + 1][..upTo - given] == stats[given..upTo];
  }

  lemma OneMoreList(stats: seq<File>, lists: seq<seq<File>>, mine: seq<File>, given: nat, upTo: nat)
    requires given <= upTo <= |stats| && Concat(lists) == stats[..given] && mine == stats[given..upTo]
    ensures Concat(lists + [mine]) == stats[..upTo] && Bytes(stats[..upTo]) == Bytes(stats[..given]) + Bytes(mine)
  {
    assert (lists + [mine])[..|lists|] == lists;
    assert stats[..upTo] == stats[..given] + mine;
    BytesSum(stats[..given], mine);
  }

  lemma LeftOver(stats: seq<File>, given: nat, mappers: nat, quota: nat)
    requires mappers > 0 && quota == Bytes(stats) / mappers && given <= |stats|
    requires given < |stats| ==> Bytes(stats[..given]) >= mappers * quota
    ensures Bytes(stats[given..]) <= Bytes(stats) % mappers
  {
    assert stats == stats[..given] + stats[given..];
    BytesSum(stats[..given], stats[given..]);
    if given == |stats| {
      assert stats[given..] == [];
    } else {
      hide Bytes;
      Remainder(Bytes(stats), mappers, quota);
    }
  }

  lemma Remainder(total: nat, mappers: nat, quota: nat)
    requires mappers > 0 && quota == total / mappers
    ensures total - mappers * quota == total % mappers
  {
  }

  /**
   The assignment loop: the mappers' lists are, one after the other, a prefix of the files, and what is
   left over is at most the remainder of the total by the number of mappers.
   */
  method Assign(stats: seq<File>, mappers: nat) returns (lists: seq<seq<File>>)
    requires mappers > 0
    ensures |lists| == mappers && Concat(lists) <= stats
    ensures Bytes(stats[|Concat(lists)|..]) <= Bytes(stats) % mappers
    ensures |Concat(lists)| < |stats| ==> forall i :: 0 <= i < mappers ==> Bytes(lists[i]) >= Bytes(stats) / mappers
    ensures forall i :: 0 <= i < mappers && lists[i] != [] ==> Bytes(lists[i][..|lists[i]| - 1]) < Bytes(stats) / mappers
  {
    hide Bytes, Concat;
    var quota := Bytes(stats) / mappers;
    lists := [];
    assert Concat([]) == stats[..0] by { NoLists(stats); }
    var given := 0;
    var i := 0;
    while i < mappers
      invariant 0 <= i <= mappers && |lists| == i && given <= |stats| && Concat(lists) == stats[..given]
      invariant given < |stats| ==> Bytes(stats[..given]) >= i * quota
      invariant given < |stats| ==> forall k :: 0 <= k < i ==> Bytes(lists[k]) >= quota
      invariant forall k :: 0 <= k < i && lists[k] != [] ==> Bytes(lists[k][..|lists[k]| - 1]) < quota
    {
      var mine, upTo := Fill(stats, given, quota);
      OneMoreList(stats, lists, mine, given, upTo);
      assert (i + 1) * quota == i * quota + quota;
      lists := lists + [mine];
      given := upTo;
      i := i + 1;
    }
    LeftOver(stats, given, mappers, quota);
  }

  lemma NoLists(stats: seq<File>)
    ensures Concat([]) == stats[..0] && Bytes(stats[..0]) == 0 && Bytes([]) == 0
  {
  }

  lemma {:induction false} NoBytes(fs: seq<File>)
    requires Bytes(fs) == 0
    ensures forall i :: 0 <= i < |fs| ==> fs[i].size == 0
  {
    if fs != [] { NoBytes(fs[..|fs| - 1]); }
  }

  /** What Assign promises leaves no file out when the last one, the largest, exceeds the remainder; */
  lemma LargestTakesAll(stats: seq<File>, mappers: nat, lists: seq<seq<File>>)
    requires mappers > 0 && Concat(lists) <= stats && Bytes(stats[|Concat(lists)|..]) <= Bytes(stats) % mappers
    requires stats != [] && stats[|stats| - 1].size > Bytes(stats) % mappers
    ensures Concat(lists) == stats
  {
    var n := |Concat(lists)|;
    assert n < |stats| ==> stats[n..][|stats| - n - 1] == stats[|stats| - 1];
  }

  /** but it must leave one out in general: two mappers each stop at one of three one-byte files. */
  lemma {:induction false} LeftOverHappens(stats: seq<File>, lists: seq<seq<File>>)
    requires |stats| == 3 && (forall i :: 0 <= i < 3 ==> stats[i].size == 1) && |lists| == 2 && Concat(lists) <= stats
    requires forall i :: 0 <= i < 2 && lists[i] != [] ==> Bytes(lists[i][..|lists[i]| - 1]) < Bytes(stats) / 2
    ensures Concat(lists) != stats
  {
    hide Bytes, Concat;
    ThreeBytes(stats);
    TwoLists(lists);
    assert forall i :: 0 <= i < |lists[0]| ==> lists[0][i] == Concat(lists)[i];
    assert forall i :: 0 <= i < |lists[1]| ==> lists[1][i] == Concat(lists)[|lists[0]| + i];
    if lists[0] != [] { AtMostOne(lists[0]); }
    if lists[1] != [] { AtMostOne(lists[1]); }
  }

  lemma ThreeBytes(stats: seq<File>)
    requires |stats| == 3 && (forall i :: 0 <= i < 3 ==> stats[i].size == 1)
    ensures Bytes(stats) == 3
  {
    assert stats[..2][..1][..0] == [] && Bytes(stats[..2][..1]) == 1 && Bytes(stats[..2]) == 2;
  }

  lemma TwoLists(lists: seq<seq<File>>)
    requires |lists| == 2
    ensures Concat(lists) == lists[0] + lists[1]
  {
    assert lists[..1][..0] == [] && Concat(lists[..1]) == lists[0];
  }

  lemma AtMostOne(fs: seq<File>)
    requires fs != [] && (forall i :: 0 <= i < |fs| ==> fs[i].size == 1) && Bytes(fs[..|fs| - 1]) < 1
    ensures |fs| == 1
  {
    assert |fs| > 1 ==> fs[..|fs| - 1][0].size == 1;
    NoBytes(fs[..|fs| - 1]);
  }
}
