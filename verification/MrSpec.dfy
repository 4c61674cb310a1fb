/** What a map-reduce run owes its reducers, over the pairs emitted. */
module MrSpec {
  import opened Common

  datatype Pair = Pair(key: string, value: string)

  /** One call of the reducer: its key and the values its getter handed out. */
  datatype Group = Group(key: string, values: seq<string>)

  // ----- strcmp -----

  function StrCmp(a: string, b: string): int {
    if a == "" then (if b == "" then 0 else -1)
    else if b == "" then 1
    else if a[0] != b[0] then (if a[0] < b[0] then -1 else 1)
    else StrCmp(a[1..], b[1..])
  }

  predicate Before(a: string, b: string) { StrCmp(a, b) < 0 }

  lemma {:induction false} CmpZero(a: string, b: string)
    ensures StrCmp(a, b) == 0 <==> a == b
    ensures StrCmp(b, a) == -StrCmp(a, b)
  {
    if a != "" && b != "" && a[0] == b[0] {
      CmpZero(a[1..], b[1..]);
      assert a == [a[0]] + a[1..] && b == [b[0]] + b[1..];
    }
  }

  /** A string comes before every longer one that it starts. */
  lemma {:induction false} PrefixFirst(p: string, a: string)
    ensures StrCmp(p, p + a) < 0 <==> a != ""
  {
    if p == "" {
      assert p + a == a;
    } else {
      assert (p + a)[0] == p[0] && (p + a)[1..] == p[1..] + a;
      PrefixFirst(p[1..], a);
    }
  }

  /** Otherwise the first character that differs decides. */
  lemma {:induction false} FirstDifferenceDecides(p: string, x: char, a: string, y: char, b: string)
    requires x != y
    ensures StrCmp(p + [x] + a, p + [y] + b) < 0 <==> x < y
  {
    var s, t := p + [x] + a, p + [y] + b;
    if p == "" {
      assert s[0] == x && t[0] == y;
    } else {
      assert s[0] == p[0] == t[0] && s[1..] == p[1..] + [x] + a && t[1..] == p[1..] + [y] + b;
      FirstDifferenceDecides(p[1..], x, a, y, b);
    }
  }

  // ----- partitions, and the arrays that qsort leaves -----

  /** The pairs whose key goes to partition p, in the order they were emitted. */
  function Share(es: seq<Pair>, hash: string -> nat, p: nat): seq<Pair> {
    if es == [] then []
    else Share(es[..|es| - 1], hash, p) + if hash(es[|es| - 1].key) == p then [es[|es| - 1]] else []
  }

  predicate Sorted(l: seq<Pair>) {
    forall i, j :: 0 <= i < j < |l| ==> StrCmp(l[i].key, l[j].key) <= 0
  }

  lemma {:induction false} ShareCount(es: seq<Pair>, hash: string -> nat, p: nat, e: Pair)
    ensures multiset(Share(es, hash, p))[e] == if hash(e.key) == p then multiset(es)[e] else 0
  {
    if es != [] {
      ShareCount(es[..|es| - 1], hash, p, e);
      assert es == es[..|es| - 1] + [es[|es| - 1]];
    }
  }

  // ----- groups -----

  function Pairs(g: Group): seq<Pair> {
    seq(|g.values|, i requires 0 <= i < |g.values| => Pair(g.key, g.values[i]))
  }

  function Flatten(gs: seq<Group>): seq<Pair> {
    if gs == [] then [] else Flatten(gs[..|gs| - 1]) + Pairs(gs[|gs| - 1])
  }

  predicate Ascending(gs: seq<Group>) {
    forall i, j :: 0 <= i < j < |gs| ==> Before(gs[i].key, gs[j].key)
  }

  /** The groups cut the array l into runs of equal keys, in ascending order. */
  predicate Grouped(gs: seq<Group>, l: seq<Pair>) {
    Flatten(gs) == l && Ascending(gs) && forall j :: 0 <= j < |gs| ==> gs[j].values != []
  }

  lemma {:induction false} PairsCount(k: string, vs: seq<string>, e: Pair)
    ensures multiset(Pairs(Group(k, vs)))[e] == if e.key == k then multiset(vs)[e.value] else 0
    decreases |vs|
  {
    if vs == [] {
      assert Pairs(Group(k, vs)) == [];
    } else {
      var init, last := vs[..|vs| - 1], vs[|vs| - 1];
      PairsCount(k, init, e);
      assert vs == init + [last];
      assert Pairs(Group(k, vs)) == Pairs(Group(k, init)) + [Pair(k, last)];
      assert multiset(vs)[e.value] == multiset(init)[e.value] + multiset([last])[e.value];
    }
  }

  /** With distinct keys, a key's pairs all stand in its own group. */
  lemma {:induction false} FlattenCount(gs: seq<Group>, e: Pair)
    requires Ascending(gs)
    ensures forall j :: 0 <= j < |gs| && gs[j].key == e.key ==> multiset(Flatten(gs))[e] == multiset(gs[j].values)[e.value]
    ensures (forall j :: 0 <= j < |gs| ==> gs[j].key != e.key) ==> multiset(Flatten(gs))[e] == 0
  {
    if gs != [] {
      var init, last := gs[..|gs| - 1], gs[|gs| - 1];
      hide Pairs, Before;
      FlattenCount(init, e);
      PairsCount(last.key, last.values, e);
      assert last == Group(last.key, last.values);
      assert forall j :: 0 <= j < |init| ==> init[j] == gs[j];
      if last.key == e.key {
        forall j | 0 <= j < |init| ensures init[j].key != e.key {
          assert Before(gs[j].key, gs[|gs| - 1].key);
          CmpZero(gs[j].key, last.key);
        }
      }
    }
  }

  /**
   The pairs es were emitted, in whatever order; partition p's array l holds its share of them, sorted;
   and gs are the runs of l. Then each key of the partition has exactly one run, with exactly the values
   emitted for it.
   */
  lemma EachKeyReducedOnce(es: seq<Pair>, hash: string -> nat, p: nat, l: seq<Pair>, gs: seq<Group>)
    requires multiset(l) == multiset(Share(es, hash, p)) && Grouped(gs, l)
    ensures forall j, v :: 0 <= j < |gs| ==> multiset(gs[j].values)[v] == multiset(es)[Pair(gs[j].key, v)]
    ensures forall e :: e in es && hash(e.key) == p ==> exists j :: 0 <= j < |gs| && gs[j].key == e.key
    ensures forall j :: 0 <= j < |gs| ==> hash(gs[j].key) == p
    ensures forall i, j :: 0 <= i < j < |gs| ==> Before(gs[i].key, gs[j].key) && gs[i].key != gs[j].key
  {
    forall j | 0 <= j < |gs| ensures hash(gs[j].key) == p {
      var e := Pair(gs[j].key, gs[j].values[0]);
      FlattenCount(gs, e);
      assert e.value in multiset(gs[j].values);
      ShareCount(es, hash, p, e);
    }
    forall j, v | 0 <= j < |gs| ensures multiset(gs[j].values)[v] == multiset(es)[Pair(gs[j].key, v)] {
      FlattenCount(gs, Pair(gs[j].key, v));
      ShareCount(es, hash, p, Pair(gs[j].key, v));
    }
    forall e | e in es && hash(e.key) == p ensures exists j :: 0 <= j < |gs| && gs[j].key == e.key {
      assert e in multiset(es);
      ShareCount(es, hash, p, e);
      FlattenCount(gs, e);
    }
    forall i, j | 0 <= i < j < |gs| ensures gs[i].key != gs[j].key { CmpZero(gs[i].key, gs[j].key); }
  }

  // ----- reducers that stop before they have all values -----

  /** Where the run of equal keys that starts at i ends. */
  function RunEnd(l: seq<Pair>, i: nat): (e: nat)
    requires i < |l|
    ensures i < e <= |l| && (forall x :: i <= x < e ==> l[x].key == l[i].key) && (e < |l| ==> l[e].key != l[i].key)
    decreases |l| - i
  {
    if i + 1 < |l| && l[i + 1].key == l[i].key then RunEnd(l, i + 1) else i + 1
  }

  function RunFrom(l: seq<Pair>, i: nat): (g: Group)
    requires i < |l|
    ensures g.key == l[i].key && |g.values| == RunEnd(l, i) - i && Pairs(g) == l[i..RunEnd(l, i)]
    ensures forall x :: 0 <= x < |g.values| ==> g.values[x] == l[i + x].value
  {
    Group(l[i].key, seq(RunEnd(l, i) - i, x requires 0 <= x < RunEnd(l, i) - i => l[i + x].value))
  }

  /** The calls before the j-th asked for all the values of their keys. */
  ghost predicate Fed(runs: seq<Group>, asks: nat -> nat, j: nat)
    requires j <= |runs|
  {
    forall i :: 0 <= i < j ==> asks(i) >= |runs[i].values|
  }

  /** What a call is handed when it asks for a value `most` times at most. */
  function Handed(g: Group, most: nat, fed: bool): Group {
    Group(g.key, if fed then g.values[..Min(most, |g.values|)] else [])
  }

  /** What all calls are handed: once one has stopped early, no later one gets anything. */
  ghost predicate Served(out: seq<Group>, runs: seq<Group>, asks: nat -> nat) {
    |out| == |runs| && forall j :: 0 <= j < |out| ==> out[j] == Handed(runs[j], asks(j), Fed(runs, asks, j))
  }

  lemma ServedNext(out: seq<Group>, runs: seq<Group>, asks: nat -> nat, g: Group)
    requires Served(out, runs, asks)
    ensures Served(out + [Handed(g, asks(|runs|), Fed(runs, asks, |runs|))], runs + [g], asks)
    ensures Fed(runs + [g], asks, |runs| + 1) <==> Fed(runs, asks, |runs|) && asks(|runs|) >= |g.values|
  {
    var more := runs + [g];
    assert forall i :: 0 <= i < |runs| ==> more[i] == runs[i];
    if Fed(more, asks, |runs| + 1) { assert asks(|runs|) >= |more[|runs|].values|; }
    forall j | 0 <= j <= |runs| ensures Fed(more, asks, j) <==> Fed(runs, asks, j) {
      if Fed(more, asks, j) {
        forall i | 0 <= i < j ensures asks(i) >= |runs[i].values| { assert asks(i) >= |more[i].values|; }
      }
    }
  }

  /** Every call is handed all values of its key exactly when every call asks for all of its own. */
  lemma ServedInFull(out: seq<Group>, runs: seq<Group>, asks: nat -> nat)
    requires Served(out, runs, asks) && forall j :: 0 <= j < |runs| ==> runs[j].values != []
    ensures out == runs <==> Fed(runs, asks, |runs|)
  {
    if Fed(runs, asks, |runs|) {
      forall j | 0 <= j < |runs| ensures out[j] == runs[j] { assert Fed(runs, asks, j) && asks(j) >= |runs[j].values|; }
    }
    if out == runs {
      forall j | 0 <= j < |runs| ensures asks(j) >= |runs[j].values| {
        assert out[j] == runs[j] && out[j] == Handed(runs[j], asks(j), Fed(runs, asks, j));
      }
    }
  }

  /** A reducer that stops early starves every later key of its partition. */
  lemma Starved(out: seq<Group>, runs: seq<Group>, asks: nat -> nat, i: nat, j: nat)
    requires Served(out, runs, asks) && i < j < |runs| && asks(i) < |runs[i].values|
    ensures out[j] == Group(runs[j].key, [])
  {
    assert !Fed(runs, asks, j);
  }

  lemma PairsAt(l: seq<Pair>, i: nat, p: nat, g: Group)
    requires i <= p <= |l| && Pairs(g) == l[i..p]
    ensures |g.values| == p - i && forall x :: i <= x < p ==> l[x] == Pair(g.key, g.values[x - i])
  {
    assert |Pairs(g)| == |g.values|;
    assert forall x :: i <= x < p ==> l[x] == l[i..p][x - i];
  }

  /** A call at its run, asking for at most `most` values, takes them up to place p. */
  lemma TakenFromRun(l: seq<Pair>, i: nat, p: nat, values: seq<string>, most: nat)
    requires i < |l| && i <= p <= |l| && Pairs(Group(l[i].key, values)) == l[i..p] && |values| <= most
    requires |values| < most && p < |l| ==> l[p].key != l[i].key
    ensures p <= RunEnd(l, i) && Group(l[i].key, values) == Handed(RunFrom(l, i), most, true)
    ensures p == RunEnd(l, i) <==> most >= |RunFrom(l, i).values|
  {
    hide Pairs, RunEnd, RunFrom;
    PairsAt(l, i, p, Group(l[i].key, values));
    var e, g := RunEnd(l, i), RunFrom(l, i);
    assert g.values[..|values|] == values;
  }

  /** A call with the iterator at another key takes nothing. */
  lemma NoneTaken(l: seq<Pair>, at: nat, p: nat, key: string, values: seq<string>)
    requires at < |l| && at <= p <= |l| && Pairs(Group(key, values)) == l[at..p] && l[at].key != key
    ensures values == [] && p == at
  {
    hide Pairs;
    PairsAt(l, at, p, Group(key, values));
  }

  /** Past the end of a run its key does not come back. */
  lemma KeyIsPast(l: seq<Pair>, x: nat, i: nat)
    requires x < i < |l| && Sorted(l) && l[i].key != l[i - 1].key
    ensures l[x].key != l[i].key
  {
    hide StrCmp;
    CmpZero(l[i - 1].key, l[i].key);
    assert StrCmp(l[i - 1].key, l[i].key) <= 0;
    assert x == i - 1 || StrCmp(l[x].key, l[i - 1].key) <= 0;
  }

  predicate HasKey(gs: seq<Group>, k: string) {
    exists j :: 0 <= j < |gs| && gs[j].key == k
  }

  lemma {:induction false} SameKeys(gs: seq<Group>, hs: seq<Group>)
    requires Ascending(gs) && Ascending(hs)
    requires forall k :: HasKey(gs, k) <==> HasKey(hs, k)
    ensures |gs| == |hs| && forall j :: 0 <= j < |gs| ==> gs[j].key == hs[j].key
    decreases |gs|
  {
    if gs == [] {
      assert hs != [] ==> HasKey(hs, hs[0].key);
    } else {
      assert HasKey(gs, gs[0].key);
      var g, h := gs[|gs| - 1].key, hs[|hs| - 1].key;
      LastIsLast(gs, hs);
      var gs', hs' := gs[..|gs| - 1], hs[..|hs| - 1];
      forall k ensures HasKey(gs', k) <==> HasKey(hs', k) {
        AllButLast(gs, k);
        AllButLast(hs, k);
      }
      SameKeys(gs', hs');
    }
  }

  lemma AllButLast(gs: seq<Group>, k: string)
    requires Ascending(gs) && gs != []
    ensures HasKey(gs[..|gs| - 1], k) <==> HasKey(gs, k) && k != gs[|gs| - 1].key
  {
    var gs' := gs[..|gs| - 1];
    if HasKey(gs', k) {
      var j :| 0 <= j < |gs'| && gs'[j].key == k;
      assert gs[j].key == k && Before(gs[j].key, gs[|gs| - 1].key);
      CmpZero(k, k);
    }
    if HasKey(gs, k) && k != gs[|gs| - 1].key {
      var j :| 0 <= j < |gs| && gs[j].key == k;
      assert gs'[j].key == k;
    }
  }

  lemma LastIsLast(gs: seq<Group>, hs: seq<Group>)
    requires Ascending(gs) && Ascending(hs) && gs != [] && hs != []
    requires forall k :: HasKey(gs, k) <==> HasKey(hs, k)
    ensures gs[|gs| - 1].key == hs[|hs| - 1].key
  {
    var g, h := gs[|gs| - 1].key, hs[|hs| - 1].key;
    assert HasKey(gs, g) && HasKey(hs, h);
    assert HasKey(hs, g) && HasKey(gs, h);
    var i :| 0 <= i < |hs| && hs[i].key == g;
    var j :| 0 <= j < |gs| && gs[j].key == h;
    if i < |hs| - 1 && j < |gs| - 1 {
      assert Before(g, h) && Before(h, g);
      CmpZero(g, h);
    }
  }

  /** However the mappers' emits interleave, and however qsort orders equal keys, the reducers see the same. */
  lemma ScheduleIndependent(es: seq<Pair>, es': seq<Pair>, hash: string -> nat, p: nat,
                            l: seq<Pair>, l': seq<Pair>, gs: seq<Group>, gs': seq<Group>)
    requires multiset(es) == multiset(es')
    requires multiset(l) == multiset(Share(es, hash, p)) && Grouped(gs, l)
    requires multiset(l') == multiset(Share(es', hash, p)) && Grouped(gs', l')
    ensures |gs| == |gs'|
    ensures forall j :: 0 <= j < |gs| ==> gs[j].key == gs'[j].key && multiset(gs[j].values) == multiset(gs'[j].values)
  {
    EachKeyReducedOnce(es, hash, p, l, gs);
    EachKeyReducedOnce(es', hash, p, l', gs');
    forall k ensures HasKey(gs, k) <==> HasKey(gs', k) {
      KeyMoves(es, es', hash, p, l, l', gs, gs', k);
      KeyMoves(es', es, hash, p, l', l, gs', gs, k);
    }
    SameKeys(gs, gs');
    forall j | 0 <= j < |gs| ensures multiset(gs[j].values) == multiset(gs'[j].values) {
      assert forall v :: multiset(gs[j].values)[v] == multiset(gs'[j].values)[v];
    }
  }

  lemma NoEmptyGroup(gs: seq<Group>, l: seq<Pair>, j: nat)
    requires Grouped(gs, l) && j < |gs|
    ensures gs[j].values != []
  {
  }

  lemma KeyMoves(es: seq<Pair>, es': seq<Pair>, hash: string -> nat, p: nat,
                 l: seq<Pair>, l': seq<Pair>, gs: seq<Group>, gs': seq<Group>, k: string)
    requires multiset(es) == multiset(es')
    requires multiset(l) == multiset(Share(es, hash, p)) && Grouped(gs, l)
    requires multiset(l') == multiset(Share(es', hash, p)) && Grouped(gs', l')
    ensures HasKey(gs, k) ==> HasKey(gs', k)
  {
    hide Grouped, Share;
    if HasKey(gs, k) {
      var j :| 0 <= j < |gs| && gs[j].key == k;
      NoEmptyGroup(gs, l, j);
      EachKeyReducedOnce(es, hash, p, l, gs);
      var e := Pair(k, gs[j].values[0]);
      assert e.value in multiset(gs[j].values);
      assert e in multiset(es');
      EachKeyReducedOnce(es', hash, p, l', gs');
    }
  }
}
