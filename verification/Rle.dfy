/** seuzip and seuunzip: run-length coding, a 32-bit count and a byte per run. */
module Rle {
  import opened Common

  const UINT_MAX := 0xFFFF_FFFF
  const INT_MAX := 0x7FFF_FFFF
  /** EOF cast to a char, which a byte 0xFF equals. */
  const EOF_CHAR: byte := 255

  datatype Run = Run(count: nat, ch: byte)

  function Repeat(ch: byte, n: nat): (r: seq<byte>)
    ensures |r| == n && forall i :: 0 <= i < n ==> r[i] == ch
  {
    seq(n, _ => ch)
  }

  /** What a list of runs stands for. */
  function Expand(rs: seq<Run>): seq<byte> {
    if rs == [] then [] else Expand(rs[..|rs| - 1]) + Repeat(rs[|rs| - 1].ch, rs[|rs| - 1].count)
  }

  /** An entry: the count in four bytes, the lowest first, and the byte. */
  function Pack(r: Run): (p: seq<byte>)
    requires r.count <= UINT_MAX
    ensures |p| == 5 && LittleEndian(p[0], p[1], p[2], p[3]) == r.count && p[4] == r.ch
  {
    Bytes(r.count) + [r.ch]
  }

  function PackAll(rs: seq<Run>): (b: seq<byte>)
    requires forall r :: r in rs ==> r.count <= UINT_MAX
    ensures |b| == 5 * |rs|
  {
    if rs == [] then [] else PackAll(rs[..|rs| - 1]) + Pack(rs[|rs| - 1])
  }

  /** Entry i of a compressed file. */
  function RunAt(b: seq<byte>, i: nat): Run
    requires 5 * i + 5 <= |b|
  {
    Run(LittleEndian(b[5 * i], b[5 * i + 1], b[5 * i + 2], b[5 * i + 3]), b[5 * i + 4])
  }

  /** The entries of a compressed file; an incomplete last one is not read. */
  function Unpack(b: seq<byte>, n: nat): (rs: seq<Run>)
    requires 5 * n <= |b|
    ensures |rs| == n && forall i :: 0 <= i < n ==> rs[i] == RunAt(b, i)
  {
    seq(n, i requires 0 <= i < n => RunAt(b, i))
  }

  /** What a compressed file stands for. */
  function Decode(b: seq<byte>): seq<byte> {
    Expand(Unpack(b, |b| / 5))
  }

  lemma {:induction false} PackedAt(rs: seq<Run>, i: nat)
    requires forall r :: r in rs ==> r.count <= UINT_MAX
    requires i < |rs|
    ensures RunAt(PackAll(rs), i) == rs[i]
    decreases |rs|
  {
    var b, init := PackAll(rs), rs[..|rs| - 1];
    var last := rs[|rs| - 1];
    assert b == PackAll(init) + Pack(last);
    if i == |rs| - 1 {
      assert forall k :: 0 <= k < 5 ==> b[5 * i + k] == Pack(last)[k];
    } else {
      PackedAt(init, i);
      assert b[..5 * |init|] == PackAll(init);
    }
  }

  /** The file format loses nothing. */
  lemma UnpackPack(rs: seq<Run>)
    requires forall r :: r in rs ==> r.count <= UINT_MAX
    ensures Decode(PackAll(rs)) == Expand(rs)
  {
    hide RunAt, Expand, Pack, PackAll;
    var b := PackAll(rs);
    assert |b| / 5 == |rs|;
    forall i | 0 <= i < |rs| ensures RunAt(b, i) == rs[i] { PackedAt(rs, i); }
    assert Unpack(b, |rs|) == rs;
  }

  /** A file of fewer than 2 GB has no run the decoder cannot count. */
  lemma {:induction false} ZippedFits(rs: seq<Run>, i: nat)
    requires RunsOk(rs) && |Expand(rs)| <= INT_MAX && i < |rs|
    ensures RunAt(PackAll(rs), i) == rs[i] && rs[i].count <= INT_MAX
    decreases |rs|
  {
    PackedAt(rs, i);
    if i < |rs| - 1 {
      var init := rs[..|rs| - 1];
      assert forall r :: r in init ==> r in rs;
      assert init[i] == rs[i];
      ZippedFits(init, i);
    }
  }

  /** No run could be joined with the next. */
  predicate Tight(rs: seq<Run>) {
    forall i :: 0 <= i < |rs| - 1 ==> rs[i].ch != rs[i + 1].ch || rs[i].count == UINT_MAX
  }

  predicate RunsOk(rs: seq<Run>) {
    (forall r :: r in rs ==> 1 <= r.count <= UINT_MAX) && Tight(rs)
  }

  class Zipper {
    var previous: byte
    var count: nat
    var out: seq<byte>
    ghost var runs: seq<Run>
    ghost var fed: seq<byte>

    /** The runs written and the one in progress stand for the bytes fed so far. */
    ghost predicate Valid()
      reads this
    {
      count <= UINT_MAX && RunsOk(runs) && out == PackAll(runs) && Expand(runs) + Repeat(previous, count) == fed &&
      (count == 0 ==> runs == []) &&
      (count > 0 ==> RunsOk(runs + [Run(count, previous)])) && (count > 0 ==> fed != [] && fed[|fed| - 1] == previous)
    }

    constructor ()
      ensures Valid() && fed == [] && count == 0 && out == []
    {
      previous, count, out, runs, fed := 0, 0, [], [], [];
    }

    /** printCompressed for a byte of the input. */
    method PrintCompressed(current: byte)
      requires Valid()
      modifies this
      ensures Valid() && fed == old(fed) + [current] && count > 0
    {
      hide Pack, PackAll, Expand, Repeat, Tight;
      if (previous == current || count == 0) && count != UINT_MAX {
        MoreOfTheSame(runs, previous, count, current, fed);
        count := count + 1;
        previous := current;
      } else {
        NextRun(runs, previous, count, current, fed);
        out := out + Pack(Run(count, previous));
        runs := runs + [Run(count, previous)];
        count := 1;
        previous := current;
      }
      fed := fed + [current];
    }

    /** printCompressed(EOF), which writes the run in progress, if there is one: no byte fed equals EOF. */
    method Flush()
      requires Valid() && EOF_CHAR !in fed
      modifies this
      ensures RunsOk(runs) && out == PackAll(runs) && Expand(runs) == old(fed)
    {
      var current := EOF_CHAR;
      if (previous == current || count == 0) && count != UINT_MAX {
        assert Expand(runs) + Repeat(previous, 0) == Expand(runs);
        count := count + 1;
        previous := current;
      } else {
        assert (runs + [Run(count, previous)])[..|runs|] == runs;
        out := out + Pack(Run(count, previous));
        runs := runs + [Run(count, previous)];
        count := 1;
        previous := current;
      }
    }

    /** The reading loop for one file: it stops at the first byte that looks like EOF. */
    method ZipFile(file: seq<byte>)
      requires Valid()
      modifies this
      ensures Valid() && fed == old(fed) + Read(file)
    {
      hide Pack, PackAll, RunsOk, Expand, Read, Valid;
      var i := 0;
      assert old(fed) + [] == old(fed);
      while i < |file| && file[i] != EOF_CHAR
        invariant 0 <= i <= |file| && Valid() && EOF_CHAR !in file[..i] && fed == old(fed) + file[..i]
      {
        PrintCompressed(file[i]);
        assert file[..i + 1] == file[..i] + [file[i]];
        i := i + 1;
      }
      ReadIs(file, i);
    }
  }

  lemma MoreOfTheSame(rs: seq<Run>, previous: byte, count: nat, current: byte, fed: seq<byte>)
    requires count < UINT_MAX && (previous == current || count == 0) && RunsOk(rs)
    requires Expand(rs) + Repeat(previous, count) == fed
    requires (count == 0 ==> rs == []) && (count > 0 ==> RunsOk(rs + [Run(count, previous)]))
    ensures RunsOk(rs + [Run(count + 1, current)]) && Expand(rs) + Repeat(current, count + 1) == fed + [current]
  {
    assert Repeat(current, count + 1) == Repeat(previous, count) + [current];
    var a, b := rs + [Run(count, previous)], rs + [Run(count + 1, current)];
    assert forall i :: 0 <= i < |rs| ==> a[i] == rs[i] == b[i];
    assert forall r :: r in b ==> r in rs || r == Run(count + 1, current);
    if count > 0 && rs != [] { assert a[|rs| - 1].ch != a[|rs|].ch || a[|rs| - 1].count == UINT_MAX; }
  }

  lemma NextRun(rs: seq<Run>, previous: byte, count: nat, current: byte, fed: seq<byte>)
    requires 0 < count <= UINT_MAX && (previous != current || count == UINT_MAX) && RunsOk(rs + [Run(count, previous)])
    requires Expand(rs) + Repeat(previous, count) == fed
    ensures RunsOk(rs + [Run(count, previous)] + [Run(1, current)])
    ensures Expand(rs + [Run(count, previous)]) + Repeat(current, 1) == fed + [current]
    ensures (forall r :: r in rs ==> r.count <= UINT_MAX) && (forall r :: r in rs + [Run(count, previous)] ==> r.count <= UINT_MAX)
    ensures PackAll(rs + [Run(count, previous)]) == PackAll(rs) + Pack(Run(count, previous))
  {
    var a := rs + [Run(count, previous)];
    assert forall r :: r in rs ==> r in a;
    PackOne(rs, Run(count, previous));
    hide PackAll, Pack;
    assert a[..|rs|] == rs;
    assert Repeat(current, 1) == [current];
    StillOk(a, Run(1, current));
  }

  lemma PackOne(rs: seq<Run>, r: Run)
    requires (forall q :: q in rs ==> q.count <= UINT_MAX) && r.count <= UINT_MAX
    ensures (forall q :: q in rs + [r] ==> q.count <= UINT_MAX) && PackAll(rs + [r]) == PackAll(rs) + Pack(r)
  {
    hide Pack;
    assert (rs + [r])[..|rs|] == rs;
  }

  lemma StillOk(rs: seq<Run>, r: Run)
    requires RunsOk(rs) && 1 <= r.count <= UINT_MAX && rs != []
    requires rs[|rs| - 1].ch != r.ch || rs[|rs| - 1].count == UINT_MAX
    ensures RunsOk(rs + [r])
  {
  }

  /** What the reading loop gets of a file. */
  function Read(file: seq<byte>): (r: seq<byte>)
    ensures r <= file && EOF_CHAR !in r && (|r| < |file| ==> file[|r|] == EOF_CHAR)
  {
    if file == [] || file[0] == EOF_CHAR then [] else [file[0]] + Read(file[1..])
  }

  lemma {:induction false} ReadIs(file: seq<byte>, i: nat)
    requires i <= |file| && EOF_CHAR !in file[..i] && (i < |file| ==> file[i] == EOF_CHAR)
    ensures Read(file) == file[..i]
    ensures Read(file) == file <==> EOF_CHAR !in file
    decreases i
  {
    if i > 0 {
      assert file[0] == file[..i][0];
      assert file[1..][..i - 1] == file[..i][1..];
      ReadIs(file[1..], i - 1);
      assert file == [file[0]] + file[1..];
    }
  }

  function Concat(fs: seq<seq<byte>>): seq<byte> {
    if fs == [] then [] else Concat(fs[..|fs| - 1]) + fs[|fs| - 1]
  }

  function ReadAll(fs: seq<seq<byte>>): seq<byte> {
    if fs == [] then [] else ReadAll(fs[..|fs| - 1]) + Read(fs[|fs| - 1])
  }

  lemma {:induction false} ReadWhole(f: seq<byte>)
    ensures Read(f) == f <==> EOF_CHAR !in f
    ensures |Read(f)| == |f| ==> Read(f) == f
  {
    if f != [] && f[0] != EOF_CHAR {
      ReadWhole(f[1..]);
      assert f == [f[0]] + f[1..];
    }
  }

  lemma {:induction false} ReadAllWhole(fs: seq<seq<byte>>)
    ensures |ReadAll(fs)| <= |Concat(fs)|
    ensures ReadAll(fs) == Concat(fs) <==> forall f :: f in fs ==> EOF_CHAR !in f
    ensures |ReadAll(fs)| == |Concat(fs)| ==> ReadAll(fs) == Concat(fs)
    ensures EOF_CHAR !in ReadAll(fs)
  {
    if fs != [] {
      var init, last := fs[..|fs| - 1], fs[|fs| - 1];
      ReadAllWhole(init);
      ReadWhole(last);
      assert fs == init + [last];
      assert forall f :: f in fs <==> f in init || f == last;
    }
  }

  /** seuzip: what it writes decodes to what was read, and so to the files exactly when none has a byte 0xFF. */
  method Zip(files: seq<seq<byte>>) returns (out: seq<byte>, ghost runs: seq<Run>)
    ensures RunsOk(runs) && out == PackAll(runs) && Decode(out) == ReadAll(files)
    ensures Decode(out) == Concat(files) <==> forall f :: f in files ==> EOF_CHAR !in f
  {
    var z := new Zipper();
    var i := 0;
    assert files[..0] == [];
    while i < |files|
      invariant 0 <= i <= |files| && z.Valid() && fresh(z) && z.fed == ReadAll(files[..i])
    {
      z.ZipFile(files[i]);
      assert files[..i + 1][..i] == files[..i];
      i := i + 1;
    }
    assert files[..i] == files;
    ReadAllWhole(files);
    z.Flush();
    UnpackPack(z.runs);
    return z.out, z.runs;
  }

  /** seuunzip: the int that counts up to the run's length reaches it, so the file is decoded in full. */
  method Unzip(b: seq<byte>) returns (out: seq<byte>)
    requires forall i :: 0 <= i < |b| / 5 ==> RunAt(b, i).count <= INT_MAX
    ensures out == Decode(b)
  {
    out := [];
    var at := 0;
    ghost var k := 0;
    ghost var all := Unpack(b, |b| / 5);
    assert all[..0] == [];
    while at + 5 <= |b|
      invariant at == 5 * k && k <= |b| / 5 && out == Expand(all[..k])
      decreases |b| - at
    {
      var count, ch := LittleEndian(b[at], b[at + 1], b[at + 2], b[at + 3]), b[at + 4];
      assert all[k] == Run(count, ch);
      ghost var was := out;
      assert was + Repeat(ch, 0) == was;
      var i := 0;
      while i < count
        invariant 0 <= i <= count <= INT_MAX && out == was + Repeat(ch, i)
      {
        assert Repeat(ch, i + 1) == Repeat(ch, i) + [ch];
        out := out + [ch];
        i := i + 1;
      }
      assert all[..k + 1][..k] == all[..k];
      at := at + 5;
      k := k + 1;
    }
    assert all[..k] == all;
  }
}
