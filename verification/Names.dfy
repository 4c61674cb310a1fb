/** Directories as maps from names to inodes, and path names as folds of lookup. */
module Names {

  const ROOTINO := 1

  /** A directory slot; inum 0 is an empty one. The name fills its field, or is followed by NULs. */
  datatype Dirent = Dirent(inum: nat, name: seq<char>)

  datatype Option = None | Some(value: nat)

  /** What of a name counts: its first DIRSIZ characters. */
  function Cut(name: string): string {
    if |name| <= 14 then name else name[..14]
  }

  /** A C string: bytes, none of them NUL. */
  predicate NameOk(name: string) {
    '\0' !in name && forall c :: c in name ==> c as int < 256
  }

  /** strncpy into a field of DIRSIZ characters. */
  function Field(name: string): (f: seq<char>)
    ensures |f| == 14
  {
    Cut(name) + seq(14 - |Cut(name)|, i => '\0')
  }

  /** Character i of a C string, or of a name field: beyond the end there is a NUL. */
  function CharAt(s: seq<char>, i: nat): char {
    if i < |s| then s[i] else '\0'
  }

  /** strncmp(s, t, DIRSIZ) == 0, by its loop. */
  method NameCmp(s: string, t: seq<char>) returns (equal: bool)
    ensures equal == SameName(s, t, 0)
  {
    var i := 0;
    while i < 14
      invariant 0 <= i <= 14 && SameName(s, t, 0) == SameName(s, t, i)
    {
      if CharAt(s, i) != CharAt(t, i) { return false; }
      if CharAt(s, i) == '\0' { return true; }
      i := i + 1;
    }
    return true;
  }

  predicate SameName(s: string, t: seq<char>, i: nat)
    decreases 14 - i
  {
    i >= 14 || (CharAt(s, i) == CharAt(t, i) && (CharAt(s, i) == '\0' || SameName(s, t, i + 1)))
  }

  /** The comparison is equality of names cut to DIRSIZ. */
  lemma {:induction false} SameNameIsCut(s: string, t: string, i: nat)
    requires NameOk(s) && NameOk(t) && i <= |Cut(s)| && i <= |Cut(t)| && Cut(s)[..i] == Cut(t)[..i]
    ensures SameName(s, Field(t), i) <==> Cut(s) == Cut(t)
    decreases 14 - i
  {
    var a, b := Cut(s), Cut(t);
    assert i < 14 ==> CharAt(s, i) == (if i < |a| then a[i] else '\0') && CharAt(Field(t), i) == if i < |b| then b[i] else '\0';
    assert forall k :: 0 <= k < |a| ==> a[k] in s;
    assert forall k :: 0 <= k < |b| ==> b[k] in t;
    if i < |a| && i < |b| && a[i] == b[i] {
      assert a[..i + 1] == b[..i + 1];
      SameNameIsCut(s, t, i + 1);
    } else if i == |a| == |b| {
      assert a == a[..i] && b == b[..i];
    }
  }

  // ----- a directory is a map from names to inodes -----

  predicate Hit(e: Dirent, name: string) {
    e.inum != 0 && SameName(name, e.name, 0)
  }

  /** No name twice. */
  ghost predicate DirOk(es: seq<Dirent>) {
    (forall i :: 0 <= i < |es| && es[i].inum != 0 ==> exists n :: NameOk(n) && es[i].name == Field(n)) &&
    forall i, j, n :: 0 <= i < j < |es| && NameOk(n) ==> !(Hit(es[i], n) && Hit(es[j], n))
  }

  /** The inode a name stands for. */
  function Lookup(es: seq<Dirent>, name: string): Option {
    if es == [] then None
    else if Hit(es[0], name) then Some(es[0].inum)
    else Lookup(es[1..], name)
  }

  lemma {:induction false} LookupAt(es: seq<Dirent>, name: string, i: nat)
    requires i <= |es| && forall j :: 0 <= j < i ==> !Hit(es[j], name)
    ensures i == |es| ==> Lookup(es, name) == None
    ensures i < |es| && Hit(es[i], name) ==> Lookup(es, name) == Some(es[i].inum)
    decreases i
  {
    if i > 0 {
      assert forall j :: 0 <= j < i - 1 ==> es[1..][j] == es[j + 1];
      LookupAt(es[1..], name, i - 1);
    }
  }

  lemma {:induction false} LookupIn(es: seq<Dirent>, name: string)
    ensures Lookup(es, name).Some? ==> exists e :: e in es && e.inum == Lookup(es, name).value != 0
  {
    if es != [] && Hit(es[0], name) {
      assert es[0] in es;
    } else if es != [] {
      LookupIn(es[1..], name);
      assert forall e :: e in es[1..] ==> e in es;
    }
  }

  /** The first slot a new entry can take: an empty one, or one past the end. */
  predicate FirstEmpty(es: seq<Dirent>, off: nat) {
    off <= |es| && (forall j :: 0 <= j < off ==> es[j].inum != 0) && (off < |es| ==> es[off].inum == 0)
  }

  function Placed(es: seq<Dirent>, off: nat, e: Dirent): seq<Dirent>
    requires off <= |es|
  {
    if off < |es| then es[off := e] else es + [e]
  }

  lemma HitIsCut(e: Dirent, t: string, n: string)
    requires e.name == Field(t) && e.inum != 0 && NameOk(t) && NameOk(n)
    ensures Hit(e, n) <==> Cut(n) == Cut(t)
  {
    SameNameIsCut(n, t, 0);
  }

  lemma Linked(was: seq<Dirent>, now: seq<Dirent>, off: nat, name: string, inum: nat)
    requires DirOk(was) && NameOk(name) && off <= |was| && (off < |was| ==> was[off].inum == 0)
    requires forall i :: 0 <= i < |was| ==> !Hit(was[i], name)
    requires now == Placed(was, off, Dirent(inum, Field(name)))
    ensures DirOk(now)
    ensures forall n :: NameOk(n) ==> Lookup(now, n) == if inum != 0 && Cut(n) == Cut(name) then Some(inum) else Lookup(was, n)
  {
    assert now[off] == Dirent(inum, Field(name));
    assert forall i :: 0 <= i < |now| && i != off ==> now[i] == was[i];
    forall n | NameOk(n) ensures Hit(now[off], n) <==> inum != 0 && Cut(n) == Cut(name) {
      if inum != 0 { HitIsCut(now[off], name, n); }
    }
    forall i, n | 0 <= i < |was| && NameOk(n) && Cut(n) == Cut(name) ensures !Hit(was[i], n) {
      if was[i].inum != 0 {
        var t :| NameOk(t) && was[i].name == Field(t);
        HitIsCut(was[i], t, n);
        HitIsCut(was[i], t, name);
      }
    }
    forall n | NameOk(n) ensures Lookup(now, n) == if inum != 0 && Cut(n) == Cut(name) then Some(inum) else Lookup(was, n) {
      if inum != 0 && Cut(n) == Cut(name) { LookupAt(now, n, off); } else { SameLookup(was, now, n); }
    }
  }

  lemma {:induction false} SameLookup(was: seq<Dirent>, now: seq<Dirent>, n: string)
    requires |was| <= |now| && (forall i :: |was| <= i < |now| ==> !Hit(now[i], n))
    requires forall i :: 0 <= i < |was| ==> now[i] == was[i] || (!Hit(was[i], n) && !Hit(now[i], n))
    ensures Lookup(now, n) == Lookup(was, n)
    decreases |now|
  {
    if was != [] {
      SameLookup(was[1..], now[1..], n);
    } else if now != [] {
      SameLookup([], now[1..], n);
    }
  }

  // ----- path names -----

  function SkipSlashes(path: string): (r: string)
    ensures |r| <= |path| && (r == "" || r[0] != '/')
  {
    if path != "" && path[0] == '/' then SkipSlashes(path[1..]) else path
  }

  /** How many characters there are before the next slash or the end. */
  function ElemLen(path: string): (n: nat)
    ensures n <= |path| && (n < |path| ==> path[n] == '/')
  {
    if path == "" || path[0] == '/' then 0 else 1 + ElemLen(path[1..])
  }

  /** The components of a path: what stands between runs of slashes. */
  function Split(path: string): seq<string>
    decreases |path|
  {
    var p := SkipSlashes(path);
    if p == "" then [] else [p[..ElemLen(p)]] + Split(p[ElemLen(p)..])
  }

  lemma {:induction false} SplitSkips(path: string)
    ensures Split(SkipSlashes(path)) == Split(path)
  {
    assert SkipSlashes(SkipSlashes(path)) == SkipSlashes(path);
  }

  /** A path with these components. */
  function Join(names: seq<string>): string {
    if names == [] then "" else "/" + names[0] + Join(names[1..])
  }

  lemma {:induction false} ElemLenIs(name: string, rest: string)
    requires '/' !in name && (rest == "" || rest[0] == '/')
    ensures ElemLen(name + rest) == |name|
    decreases |name|
  {
    if name == "" {
      assert name + rest == rest;
    } else {
      assert (name + rest)[1..] == name[1..] + rest && name[0] in name;
      ElemLenIs(name[1..], rest);
    }
  }

  lemma {:induction false} SplitOne(name: string, rest: string)
    requires name != "" && '/' !in name && (rest == "" || rest[0] == '/')
    ensures Split("/" + name + rest) == [name] + Split(rest)
  {
    var path, p := "/" + name + rest, name + rest;
    assert path[1..] == p && p[0] == name[0] && name[0] in name;
    assert SkipSlashes(path) == SkipSlashes(p) == p;
    ElemLenIs(name, rest);
    assert p[..|name|] == name && p[|name|..] == rest;
  }

  /** Splitting finds the components a path was joined from. */
  lemma {:induction false} SplitJoin(names: seq<string>)
    requires forall i :: 0 <= i < |names| ==> names[i] != "" && '/' !in names[i]
    ensures Split(Join(names)) == names
  {
    if names != [] {
      SplitOne(names[0], Join(names[1..]));
      SplitJoin(names[1..]);
    }
  }

  predicate Slashes(path: string) {
    forall i :: 0 <= i < |path| ==> path[i] == '/'
  }

  /** The path consists of these names with slashes between them, and any number of slashes before and after. */
  ghost predicate Consists(path: string, names: seq<string>)
    decreases |names|
  {
    if names == [] then Slashes(path)
    else exists i: nat :: NameAt(path, i, names[0]) && Consists(path[i + |names[0]|..], names[1..])
  }

  ghost predicate NameAt(path: string, i: nat, name: string) {
    && i + |name| <= |path| && Slashes(path[..i]) && path[i..i + |name|] == name && name != "" && '/' !in name
    && (i + |name| < |path| ==> path[i + |name|] == '/')
  }

  lemma {:induction false} SkipsTo(path: string, i: nat)
    requires i <= |path| && Slashes(path[..i]) && (i < |path| ==> path[i] != '/')
    ensures SkipSlashes(path) == path[i..]
    decreases i
  {
    if i > 0 {
      assert path[..i][0] == path[0] && path[1..][..i - 1] == path[..i][1..];
      SkipsTo(path[1..], i - 1);
      assert path[1..][i - 1..] == path[i..];
    }
  }

  lemma {:induction false} SkippedTo(path: string) returns (i: nat)
    ensures i <= |path| && Slashes(path[..i]) && (i < |path| ==> path[i] != '/') && SkipSlashes(path) == path[i..]
  {
    if path != "" && path[0] == '/' {
      var j := SkippedTo(path[1..]);
      i := j + 1;
      assert forall k :: 0 <= k < i ==> path[..i][k] == if k == 0 then path[0] else path[1..][..j][k - 1];
    } else {
      i := 0;
    }
  }

  lemma {:induction false} ElemIs(p: string)
    ensures '/' !in p[..ElemLen(p)]
  {
    if p != "" && p[0] != '/' {
      ElemIs(p[1..]);
      assert p[..ElemLen(p)] == [p[0]] + p[1..][..ElemLen(p) - 1];
    }
  }

  lemma NameFound(path: string, i: nat, name: string)
    requires NameAt(path, i, name)
    ensures Split(path) == [name] + Split(path[i + |name|..])
  {
    var n, after := |name|, path[i + |name|..];
    assert path[i] == path[i..i + n][0] && name[0] in name;
    SkipsTo(path, i);
    assert path[i..] == name + after;
    ElemLenIs(name, after);
    assert path[i..][..n] == name && path[i..][n..] == after;
  }

  /** Splitting finds exactly the components a path consists of. */
  lemma {:induction false} SplitIsExact(path: string, names: seq<string>)
    ensures Split(path) == names <==> Consists(path, names)
    decreases |names|
  {
    hide Split, Consists, NameAt;
    if names == [] {
      NoNames(path);
      ConsistsNone(path);
    } else {
      if Split(path) == names {
        var i := FirstName(path);
        SplitIsExact(path[i + |names[0]|..], names[1..]);
        ConsistsMore(path, names, i);
      }
      if Consists(path, names) {
        var i := ConsistsFirst(path, names);
        NameFound(path, i, names[0]);
        SplitIsExact(path[i + |names[0]|..], names[1..]);
        assert names == [names[0]] + names[1..];
      }
    }
  }

  lemma ConsistsNone(path: string)
    ensures Consists(path, []) <==> Slashes(path)
  {
  }

  lemma ConsistsFirst(path: string, names: seq<string>) returns (i: nat)
    requires Consists(path, names) && names != []
    ensures NameAt(path, i, names[0]) && i + |names[0]| <= |path| && Consists(path[i + |names[0]|..], names[1..])
  {
    i :| NameAt(path, i, names[0]) && Consists(path[i + |names[0]|..], names[1..]);
  }

  lemma ConsistsMore(path: string, names: seq<string>, i: nat)
    requires names != [] && NameAt(path, i, names[0]) && Consists(path[i + |names[0]|..], names[1..])
    ensures Consists(path, names)
  {
  }

  lemma NoNames(path: string)
    ensures Split(path) == [] <==> Slashes(path)
  {
    var i := SkippedTo(path);
    if i == |path| { assert path[..i] == path; }
  }

  lemma FirstName(path: string) returns (i: nat)
    requires Split(path) != []
    ensures NameAt(path, i, Split(path)[0]) && i + |Split(path)[0]| <= |path| && Split(path)[1..] == Split(path[i + |Split(path)[0]|..])
  {
    i := SkippedTo(path);
    var p := path[i..];
    var n := ElemLen(p);
    ElemIs(p);
    assert p[..n] == path[i..i + n] && p[n..] == path[i + n..] && (i + n < |path| ==> p[n] == path[i + n]);
  }

  /** skipelem: the first component, cut to DIRSIZ, and the path after it without its leading slashes; or nothing. */
  method Skipelem(path: string) returns (some: bool, rest: string, name: string)
    ensures some <==> Split(path) != []
    ensures some ==> name == Cut(Split(path)[0]) && Split(rest) == Split(path)[1..] && |rest| < |path|
    ensures some ==> (rest == "" <==> Split(rest) == [])
  {
    var p := path;
    while p != "" && p[0] == '/'
      invariant SkipSlashes(p) == SkipSlashes(path) && |p| <= |path|
      decreases |p|
    {
      p := p[1..];
    }
    if p == "" { return false, "", ""; }
    var s := p;
    while p != "" && p[0] != '/'
      invariant |p| <= |s| && p == s[|s| - |p|..] && ElemLen(s) == |s| - |p| + ElemLen(p)
      decreases |p|
    {
      p := p[1..];
    }
    var len := |s| - |p|;
    assert len == ElemLen(s) && p == s[len..];
    name := if len >= 14 then s[..14] else s[..len];
    assert name == Cut(s[..len]);
    SplitSkips(p);
    ghost var q := p;
    while p != "" && p[0] == '/'
      invariant SkipSlashes(p) == SkipSlashes(q) && |p| <= |q|
      decreases |p|
    {
      p := p[1..];
    }
    return true, p, name;
  }

  // ----- the walk -----

  datatype Node = Dir(entries: seq<Dirent>) | Other

  function NodeAt(tree: map<nat, Node>, i: nat): Node {
    if i in tree then tree[i] else Other
  }

  /** A path name is a left fold of lookup over its components. */
  function Walk(tree: map<nat, Node>, ip: nat, names: seq<string>): Option
    decreases |names|
  {
    if names == [] then Some(ip)
    else
      match NodeAt(tree, ip)
      case Other => None
      case Dir(es) =>
        var next := Lookup(es, Cut(names[0]));
        if next.Some? then Walk(tree, next.value, names[1..]) else None
  }

  /** What namex is to return: the fold, or for the parent the fold over all but the last component, ending in a directory. */
  function Goal(tree: map<nat, Node>, ip: nat, names: seq<string>, parent: bool): Option {
    if !parent then Walk(tree, ip, names)
    else if names == [] then None
    else
      var dir := Walk(tree, ip, names[..|names| - 1]);
      if dir.Some? && NodeAt(tree, dir.value).Dir? then dir else None
  }

  /** A path of slashes alone is where it starts, and has no parent. */
  lemma SlashesOnly(tree: map<nat, Node>, ip: nat, path: string)
    requires Slashes(path)
    ensures Goal(tree, ip, Split(path), false) == Some(ip) && Goal(tree, ip, Split(path), true) == None
  {
    NoNames(path);
  }

  lemma SlashesStart(path: string)
    requires Slashes(path) && path != ""
    ensures path[0] == '/'
  {
  }

  function LastOf(names: seq<string>): string
    requires names != []
  {
    names[|names| - 1]
  }

  lemma LastOfTail(names: seq<string>)
    requires names != []
    ensures if |names| == 1 then LastOf(names) == names[0] else LastOf(names[1..]) == LastOf(names)
  {
  }

  lemma GoalStep(tree: map<nat, Node>, ip: nat, names: seq<string>, parent: bool)
    requires names != []
    ensures Goal(tree, ip, names, parent) ==
            match NodeAt(tree, ip)
            case Other => None
            case Dir(es) =>
              if parent && |names| == 1 then Some(ip)
              else
                var next := Lookup(es, Cut(names[0]));
                if next.Some? then Goal(tree, next.value, names[1..], parent) else None
  {
    if |names| > 1 {
      assert names[..|names| - 1][1..] == names[1..][..|names| - 2];
    }
  }

  lemma NoneLeft(tree: map<nat, Node>, ip: nat, parent: bool)
    ensures Goal(tree, ip, [], parent) == if parent then None else Some(ip)
  {
  }
}
