/**
 The shell's grammar by itself: which token sequences stand for which commands, in terms of where a
 sequence can be cut. The parser accepts exactly these, each with its one tree.
 */
module ShGrammar {
  import opened ShSyntax

  // ----- simple commands and redirections -----

  datatype Redirection<W> = Redirection(file: W, mode: int, fd: int)

  predicate IsOp<W>(t: Tok<W>) {
    t == Sym('<') || t == Sym('>') || t == Append
  }

  /** Input is opened for reading as descriptor 0; > and >> alike write and create as descriptor 1. */
  function OpMode<W>(t: Tok<W>, file: W): Redirection<W> {
    if t == Sym('<') then Redirection(file, 0, 0) else Redirection(file, 0x201, 1)
  }

  /** Words, and redirections with their files. */
  predicate Flat<W>(ts: seq<Tok<W>>) {
    ts == []
    || (ts[0].Word? && Flat(ts[1..]))
    || (IsOp(ts[0]) && |ts| >= 2 && ts[1].Word? && Flat(ts[2..]))
  }

  /** The words that are no redirection's file, in order. */
  function Args<W>(ts: seq<Tok<W>>): seq<W> {
    if ts == [] then []
    else if ts[0].Word? then [ts[0].w] + Args(ts[1..])
    else if |ts| >= 2 then Args(ts[2..])
    else []
  }

  /** The redirections, in order. */
  function Redirs<W>(ts: seq<Tok<W>>): seq<Redirection<W>> {
    if ts == [] then []
    else if ts[0].Word? then Redirs(ts[1..])
    else if |ts| >= 2 && ts[1].Word? then [OpMode(ts[0], ts[1].w)] + Redirs(ts[2..])
    else []
  }

  /** A command inside redirections, the first one innermost. */
  function Wrap<W>(c: Cmd<W>, rs: seq<Redirection<W>>): Cmd<W> {
    if rs == [] then c
    else
      var last := rs[|rs| - 1];
      Redir(Wrap(c, rs[..|rs| - 1]), last.file, last.mode, last.fd)
  }

  // ----- the grammar -----

  /** A simple command, or a line in parentheses with redirections. */
  ghost predicate ExecOf<W(!new)>(ts: seq<Tok<W>>, c: Cmd<W>)
    decreases |ts|, 0
  {
    (Flat(ts) && |Args(ts)| < MAXARGS && c == Wrap(Exec(Args(ts)), Redirs(ts)))
    || exists i, d ::
         0 < i < |ts| && ts[0] == Sym('(') && LineOf(ts[1..i], d) && ts[i] == Sym(')')
         && Flat(ts[i + 1..]) && Args(ts[i + 1..]) == [] && c == Wrap(d, Redirs(ts[i + 1..]))
  }

  /** exec, or exec | pipes */
  ghost predicate PipesOf<W(!new)>(ts: seq<Tok<W>>, c: Cmd<W>)
    decreases |ts|, 1
  {
    ExecOf(ts, c)
    || (c.Pipe? && exists i :: 0 <= i < |ts| && ExecOf(ts[..i], c.left) && ts[i] == Sym('|') && PipesOf(ts[i + 1..], c.right))
  }

  /** pipes, or backs & */
  ghost predicate BacksOf<W(!new)>(ts: seq<Tok<W>>, c: Cmd<W>)
    decreases |ts|, 2
  {
    PipesOf(ts, c)
    || (c.Back? && ts != [] && ts[|ts| - 1] == Sym('&') && BacksOf(ts[..|ts| - 1], c.cmd))
  }

  /** backs, or backs ; line */
  ghost predicate LineOf<W(!new)>(ts: seq<Tok<W>>, c: Cmd<W>)
    decreases |ts|, 3
  {
    BacksOf(ts, c)
    || (c.List? && exists i :: 0 <= i < |ts| && BacksOf(ts[..i], c.left) && ts[i] == Sym(';') && LineOf(ts[i + 1..], c.right))
  }

  // ----- reading a simple command -----

  /** What parseexec does with a simple command once it has read c. */
  function Rest<W>(c: Cmd<W>, ts: seq<Tok<W>>): Parsed<W> {
    var r := ParseRedirs(c, ts);
    if r.Ok? then ParseArgs(r.cmd, r.rest) else r
  }

  lemma WrapMore<W>(c: Cmd<W>, rs: seq<Redirection<W>>, t: Tok<W>, file: W)
    ensures Redirect(Wrap(c, rs), t, file) == Wrap(c, rs + [OpMode(t, file)])
  {
    assert (rs + [OpMode(t, file)])[..|rs|] == rs;
  }

  lemma {:induction false} WrapArgs<W>(ws: seq<W>, rs: seq<Redirection<W>>, w: W)
    ensures Argv(Wrap(Exec(ws), rs)) == ws && AddArg(Wrap(Exec(ws), rs), w) == Wrap(Exec(ws + [w]), rs)
  {
    if rs != [] { WrapArgs(ws, rs[..|rs| - 1], w); }
  }

  predicate Stops<W>(rest: seq<Tok<W>>, chars: string) {
    rest == [] || (rest[0].Sym? && rest[0].c in chars)
  }

  lemma RestStops<W>(c: Cmd<W>, ts: seq<Tok<W>>)
    requires Stops(ts, "|)&;")
    ensures Rest(c, ts) == ParseRedirs(c, ts) == Ok(c, ts)
  {
  }

  lemma RestWord<W>(c: Cmd<W>, ts: seq<Tok<W>>)
    requires ts != [] && ts[0].Word?
    ensures Rest(c, ts) == if |Argv(c)| + 1 < MAXARGS then Rest(AddArg(c, ts[0].w), ts[1..]) else Fail(TooManyArgs)
  {
    hide Argv, AddArg;
    assert ParseRedirs(c, ts) == Ok(c, ts);
  }

  lemma RestOp<W>(c: Cmd<W>, ts: seq<Tok<W>>)
    requires |ts| >= 2 && IsOp(ts[0]) && ts[1].Word?
    ensures ParseRedirs(c, ts) == ParseRedirs(Redirect(c, ts[0], ts[1].w), ts[2..])
    ensures Rest(c, ts) == Rest(Redirect(c, ts[0], ts[1].w), ts[2..])
  {
    hide ParseArgs, Redirect;
  }

  /** Where neither goes on, parsing fails. */
  lemma RestFails<W>(c: Cmd<W>, ts: seq<Tok<W>>)
    requires ts != [] && !Stops(ts, "|)&;") && !ts[0].Word? && !(|ts| >= 2 && IsOp(ts[0]) && ts[1].Word?)
    ensures Rest(c, ts).Fail?
  {
  }

  lemma FlatWord<W>(ts: seq<Tok<W>>)
    requires ts != [] && ts[0].Word?
    ensures Args(ts) == [ts[0].w] + Args(ts[1..]) && Redirs(ts) == Redirs(ts[1..]) && (Flat(ts) <==> Flat(ts[1..]))
  {
  }

  lemma FlatOp<W>(ts: seq<Tok<W>>)
    requires |ts| >= 2 && IsOp(ts[0]) && ts[1].Word?
    ensures Args(ts) == Args(ts[2..]) && Redirs(ts) == [OpMode(ts[0], ts[1].w)] + Redirs(ts[2..]) && (Flat(ts) <==> Flat(ts[2..]))
  {
    hide OpMode;
  }

  lemma FlatNone<W>()
    ensures Flat<W>([]) && Args<W>([]) == [] && Redirs<W>([]) == []
  {
  }

  lemma FlatStarts<W>(ts: seq<Tok<W>>)
    requires Flat(ts) && ts != []
    ensures ts[0].Word? || (|ts| >= 2 && IsOp(ts[0]) && ts[1].Word?)
  {
  }

  lemma {:induction false} FlatRead<W>(ws: seq<W>, rs: seq<Redirection<W>>, ts: seq<Tok<W>>, rest: seq<Tok<W>>)
    requires Flat(ts) && |ws| + |Args(ts)| < MAXARGS && Stops(rest, "|)&;")
    ensures Rest(Wrap(Exec(ws), rs), ts + rest) == Ok(Wrap(Exec(ws + Args(ts)), rs + Redirs(ts)), rest)
    decreases |ts|
  {
    hide Rest, Flat, Args, Redirs, Wrap, IsOp, OpMode, Stops, Redirect;
    var c, all := Wrap(Exec(ws), rs), ts + rest;
    FlatNone<W>();
    if ts == [] {
      assert all == rest && ws + Args(ts) == ws && rs + Redirs(ts) == rs;
      RestStops(c, rest);
    } else if ts[0].Word? {
      var w := ts[0].w;
      FlatWord(ts);
      assert all[0] == ts[0] && all[1..] == ts[1..] + rest;
      WrapArgs(ws, rs, w);
      RestWord(c, all);
      FlatRead(ws + [w], rs, ts[1..], rest);
      assert ws + [w] + Args(ts[1..]) == ws + Args(ts);
    } else {
      FlatStarts(ts);
      FlatOp(ts);
      var r := OpMode(ts[0], ts[1].w);
      assert all[0] == ts[0] && all[1] == ts[1] && all[2..] == ts[2..] + rest;
      WrapMore(Exec(ws), rs, ts[0], ts[1].w);
      RestOp(c, all);
      FlatRead(ws, rs + [r], ts[2..], rest);
      assert rs + [r] + Redirs(ts[2..]) == rs + Redirs(ts);
    }
  }

  /** Redirections alone, after a block. */
  lemma {:induction false} RedirsRead<W>(d: Cmd<W>, rs: seq<Redirection<W>>, ts: seq<Tok<W>>, rest: seq<Tok<W>>)
    requires Flat(ts) && Args(ts) == [] && Stops(rest, "|)&;")
    ensures ParseRedirs(Wrap(d, rs), ts + rest) == Ok(Wrap(d, rs + Redirs(ts)), rest)
    decreases |ts|
  {
    hide ParseRedirs, Flat, Args, Redirs, Wrap, IsOp, OpMode, Stops, Redirect, Rest;
    var all := ts + rest;
    FlatNone<W>();
    if ts == [] {
      assert all == rest && rs + Redirs(ts) == rs;
      RestStops(Wrap(d, rs), rest);
    } else {
      FlatStarts(ts);
      if ts[0].Word? { FlatWord(ts); }
      FlatOp(ts);
      var r := OpMode(ts[0], ts[1].w);
      assert all[0] == ts[0] && all[1] == ts[1] && all[2..] == ts[2..] + rest;
      WrapMore(d, rs, ts[0], ts[1].w);
      RestOp(Wrap(d, rs), all);
      RedirsRead(d, rs + [r], ts[2..], rest);
      assert rs + [r] + Redirs(ts[2..]) == rs + Redirs(ts);
    }
  }

  /** Conversely, what is read of a simple command is one. */
  lemma {:induction false} FlatFound<W>(ws: seq<W>, rs: seq<Redirection<W>>, ts: seq<Tok<W>>) returns (i: nat)
    requires |ws| < MAXARGS && Rest(Wrap(Exec(ws), rs), ts).Ok?
    ensures i <= |ts| && Flat(ts[..i]) && |ws| + |Args(ts[..i])| < MAXARGS
    ensures Rest(Wrap(Exec(ws), rs), ts) == Ok(Wrap(Exec(ws + Args(ts[..i])), rs + Redirs(ts[..i])), ts[i..])
    decreases |ts|
  {
    hide Rest, Flat, Args, Redirs, Wrap, IsOp, OpMode, Stops, Redirect;
    var c := Wrap(Exec(ws), rs);
    FlatNone<W>();
    EmptyStops<W>("|)&;");
    if Stops(ts, "|)&;") {
      i := 0;
      RestStops(c, ts);
      assert ws + Args<W>([]) == ws && rs + Redirs<W>([]) == rs && ts[..0] == [] && ts[0..] == ts;
      return;
    }
    if ts[0].Word? {
      var w := ts[0].w;
      WrapArgs(ws, rs, w);
      RestWord(c, ts);
      var j := FlatFound(ws + [w], rs, ts[1..]);
      i := j + 1;
      assert ts[..i][1..] == ts[1..][..j] && ts[i..] == ts[1..][j..];
      FlatWord(ts[..i]);
      assert ws + [w] + Args(ts[1..][..j]) == ws + Args(ts[..i]);
    } else {
      if !(|ts| >= 2 && IsOp(ts[0]) && ts[1].Word?) { RestFails(c, ts); }
      var r := OpMode(ts[0], ts[1].w);
      WrapMore(Exec(ws), rs, ts[0], ts[1].w);
      RestOp(c, ts);
      var j := FlatFound(ws, rs + [r], ts[2..]);
      i := j + 2;
      assert ts[..i][2..] == ts[2..][..j] && ts[i..] == ts[2..][j..];
      FlatOp(ts[..i]);
      assert rs + [r] + Redirs(ts[2..][..j]) == rs + Redirs(ts[..i]);
    }
  }

  lemma EmptyStops<W>(chars: string)
    ensures Stops<W>([], chars)
  {
  }

  lemma {:induction false} RedirsFound<W>(d: Cmd<W>, rs: seq<Redirection<W>>, ts: seq<Tok<W>>) returns (i: nat)
    requires ParseRedirs(Wrap(d, rs), ts).Ok?
    ensures i <= |ts| && Flat(ts[..i]) && Args(ts[..i]) == []
    ensures ParseRedirs(Wrap(d, rs), ts) == Ok(Wrap(d, rs + Redirs(ts[..i])), ts[i..])
    decreases |ts|
  {
    hide Wrap, OpMode;
    if !Peek(ts, "<>") {
      i := 0;
      assert rs + Redirs<W>([]) == rs;
    } else {
      WrapMore(d, rs, ts[0], ts[1].w);
      var j := RedirsFound(d, rs + [OpMode(ts[0], ts[1].w)], ts[2..]);
      i := j + 2;
      assert ts[..i][2..] == ts[2..][..j] && ts[i..] == ts[2..][j..];
      assert rs + [OpMode(ts[0], ts[1].w)] + Redirs(ts[2..][..j]) == rs + Redirs(ts[..i]);
    }
  }

  // ----- everything the grammar has is read as it says -----

  lemma {:induction false} ExecRead<W(!new)>(ts: seq<Tok<W>>, c: Cmd<W>, rest: seq<Tok<W>>)
    requires ExecOf(ts, c) && Stops(rest, "|)&;")
    ensures ParseExec(ts + rest) == Ok(c, rest)
    decreases |ts|, 0
  {
    hide LineOf, Stops, Wrap, Args, Redirs;
    if Flat(ts) && |Args(ts)| < MAXARGS && c == Wrap(Exec(Args(ts)), Redirs(ts)) {
      SimpleRead(ts, rest);
    } else {
      var i, d :| 0 < i < |ts| && ts[0] == Sym('(') && LineOf(ts[1..i], d) && ts[i] == Sym(')')
        && Flat(ts[i + 1..]) && Args(ts[i + 1..]) == [] && c == Wrap(d, Redirs(ts[i + 1..]));
      LineRead(ts[1..i], d, ts[i..] + rest) by { CloseStops(ts[i..] + rest, ")"); }
      BlockRead(ts, rest, i, d);
    }
  }

  lemma CloseStops<W>(ts: seq<Tok<W>>, chars: string)
    requires ts != [] && ts[0].Sym? && ts[0].c in chars
    ensures Stops(ts, chars)
  {
  }

  lemma SimpleRead<W>(ts: seq<Tok<W>>, rest: seq<Tok<W>>)
    requires Flat(ts) && |Args(ts)| < MAXARGS && Stops(rest, "|)&;")
    ensures ParseExec(ts + rest) == Ok(Wrap(Exec(Args(ts)), Redirs(ts)), rest)
  {
    assert !Peek(ts + rest, "(");
    hide Flat, Stops, Peek, Lead, ParseRedirs, ParseArgs, Args, Redirs;
    FlatRead([], [], ts, rest);
    assert [] + Args(ts) == Args(ts) && [] + Redirs(ts) == Redirs(ts);
    assert Wrap<W>(Exec([]), []) == Exec([]);
  }

  lemma BlockRead<W>(ts: seq<Tok<W>>, rest: seq<Tok<W>>, i: nat, d: Cmd<W>)
    requires 0 < i < |ts| && ts[0] == Sym('(') && ts[i] == Sym(')') && Flat(ts[i + 1..]) && Args(ts[i + 1..]) == [] && Stops(rest, "|)&;")
    requires ParseLine(ts[1..i] + (ts[i..] + rest)) == Ok(d, ts[i..] + rest)
    ensures ParseExec(ts + rest) == Ok(Wrap(d, Redirs(ts[i + 1..])), rest)
  {
    hide Flat, Stops, Args, Redirs, ParseLine, ParseRedirs;
    var all, tail := ts + rest, ts[i..] + rest;
    assert all[0] == ts[0] && all[1..] == ts[1..i] + tail;
    assert tail[0] == Sym(')') && tail[1..] == ts[i + 1..] + rest;
    RedirsRead(d, [], ts[i + 1..], rest);
    assert Wrap(d, []) == d && [] + Redirs(ts[i + 1..]) == Redirs(ts[i + 1..]);
  }

  lemma CutBefore<T>(ts: seq<T>, rest: seq<T>, i: nat)
    requires i < |ts|
    ensures var tail := ts[i..] + rest; ts + rest == ts[..i] + tail && tail[0] == ts[i] && tail[1..] == ts[i + 1..] + rest
  {
  }

  /** A stretch up to place i, and one of length j after the token there. */
  lemma CutAfter<T>(ts: seq<T>, i: nat, j: nat)
    requires i < |ts| && i + 1 + j <= |ts|
    ensures var k := i + 1 + j;
            ts[..k][..i] == ts[..i] && ts[..k][i] == ts[i] && ts[..k][i + 1..] == ts[i + 1..][..j] && ts[i + 1..][j..] == ts[k..]
    ensures ts[i..][1..] == ts[i + 1..]
  {
  }

  lemma PipeAlone<W>(ts: seq<Tok<W>>, c: Cmd<W>, rest: seq<Tok<W>>)
    requires ParseExec(ts) == Ok(c, rest) && Stops(rest, ")&;")
    ensures ParsePipe(ts) == Ok(c, rest)
  {
    hide ParseExec;
  }

  lemma PipeMore<W>(ts: seq<Tok<W>>, left: Cmd<W>, tail: seq<Tok<W>>, right: Cmd<W>, rest: seq<Tok<W>>)
    requires ParseExec(ts) == Ok(left, tail) && tail != [] && tail[0] == Sym('|') && ParsePipe(tail[1..]) == Ok(right, rest)
    ensures ParsePipe(ts) == Ok(Pipe(left, right), rest)
  {
    hide ParseExec;
  }

  lemma StopsAtBar<W>(ts: seq<Tok<W>>)
    requires (ts != [] && ts[0] == Sym('|')) || Stops(ts, ")&;")
    ensures Stops(ts, "|)&;")
  {
  }

  lemma {:induction false} PipesRead<W(!new)>(ts: seq<Tok<W>>, c: Cmd<W>, rest: seq<Tok<W>>)
    requires PipesOf(ts, c) && Stops(rest, ")&;")
    ensures ParsePipe(ts + rest) == Ok(c, rest)
    decreases |ts|, 1
  {
    hide ExecOf, ParseExec, ParsePipe, Stops;
    if ExecOf(ts, c) {
      StopsAtBar(rest);
      ExecRead(ts, c, rest);
      PipeAlone(ts + rest, c, rest);
    } else {
      var i :| 0 <= i < |ts| && ExecOf(ts[..i], c.left) && ts[i] == Sym('|') && PipesOf(ts[i + 1..], c.right);
      var tail := ts[i..] + rest;
      CutBefore(ts, rest, i);
      StopsAtBar(tail);
      ExecRead(ts[..i], c.left, tail);
      PipesRead(ts[i + 1..], c.right, rest);
      PipeMore(ts + rest, c.left, tail, c.right, rest);
    }
  }

  /** How &s that follow a pipeline are read. */
  lemma {:induction false} BacksRead<W(!new)>(ts: seq<Tok<W>>, c: Cmd<W>, rest: seq<Tok<W>>)
    requires BacksOf(ts, c) && Stops(rest, ")&;")
    ensures ParsePipe(ts + rest).Ok?
    ensures ParseBacks(ParsePipe(ts + rest).cmd, ParsePipe(ts + rest).rest) == ParseBacks(c, rest)
    decreases |ts|, 2
  {
    hide PipesOf, ParsePipe;
    if PipesOf(ts, c) {
      PipesRead(ts, c, rest);
    } else {
      var n := |ts| - 1;
      assert ts + rest == ts[..n] + ([ts[n]] + rest) && ([ts[n]] + rest)[1..] == rest;
      BacksRead(ts[..n], c.cmd, [ts[n]] + rest);
    }
  }

  lemma {:induction false} LineRead<W(!new)>(ts: seq<Tok<W>>, c: Cmd<W>, rest: seq<Tok<W>>)
    requires LineOf(ts, c) && Stops(rest, ")")
    ensures ParseLine(ts + rest) == Ok(c, rest)
    decreases |ts|, 3
  {
    hide BacksOf, ParsePipe;
    if BacksOf(ts, c) {
      BacksRead(ts, c, rest);
    } else {
      var i :| 0 <= i < |ts| && BacksOf(ts[..i], c.left) && ts[i] == Sym(';') && LineOf(ts[i + 1..], c.right);
      var tail := ts[i..] + rest;
      CutBefore(ts, rest, i);
      BacksRead(ts[..i], c.left, tail);
      LineRead(ts[i + 1..], c.right, rest);
    }
  }

  // ----- and everything that is read is in the grammar -----

  lemma {:induction false} ExecFound<W(!new)>(ts: seq<Tok<W>>) returns (i: nat)
    requires ParseExec(ts).Ok?
    ensures i <= |ts| && ParseExec(ts).rest == ts[i..] && ExecOf(ts[..i], ParseExec(ts).cmd)
    decreases |ts|, 0
  {
    if Peek(ts, "(") {
      var j := LineFound(ts[1..]);
      i := BlockFound(ts, j);
    } else {
      i := SimpleFound(ts);
    }
  }

  lemma SimpleFound<W(!new)>(ts: seq<Tok<W>>) returns (i: nat)
    requires !Peek(ts, "(") && ParseExec(ts).Ok?
    ensures i <= |ts| && ParseExec(ts).rest == ts[i..] && ExecOf(ts[..i], ParseExec(ts).cmd)
  {
    hide Flat, Args, Redirs, Peek, ParseRedirs, ParseArgs;
    assert Wrap<W>(Exec([]), []) == Exec([]);
    i := FlatFound([], [], ts);
    assert [] + Args(ts[..i]) == Args(ts[..i]) && [] + Redirs(ts[..i]) == Redirs(ts[..i]);
  }

  lemma BlockFound<W(!new)>(ts: seq<Tok<W>>, j: nat) returns (i: nat)
    requires Peek(ts, "(") && ParseExec(ts).Ok? && j < |ts|
    requires ParseLine(ts[1..]).Ok? && ParseLine(ts[1..]).rest == ts[1..][j..] && LineOf(ts[1..][..j], ParseLine(ts[1..]).cmd)
    ensures i <= |ts| && ParseExec(ts).rest == ts[i..] && ExecOf(ts[..i], ParseExec(ts).cmd)
  {
    hide Flat, Args, Redirs, ParseRedirs, ParseLine, LineOf, ExecOf;
    var d, k := ParseLine(ts[1..]).cmd, j + 1;
    assert ts[1..][j..] == ts[k..] && ts[1..][..j] == ts[1..k];
    assert Peek(ts[k..], ")");
    assert ts[0] == Sym('(') && ts[k..][0] == Sym(')');
    hide Peek;
    assert Wrap(d, []) == d && ts[k..][1..] == ts[k + 1..];
    var m := RedirsFound(d, [], ts[k + 1..]);
    assert [] + Redirs(ts[k + 1..][..m]) == Redirs(ts[k + 1..][..m]);
    i := k + 1 + m;
    CutAfter(ts, k, m);
    BlockIs(ts[..i], k, d);
  }

  lemma BlockIs<W(!new)>(ts: seq<Tok<W>>, k: nat, d: Cmd<W>)
    requires 0 < k < |ts| && ts[0] == Sym('(') && ts[k] == Sym(')') && LineOf(ts[..k][1..], d)
    requires Flat(ts[k + 1..]) && Args(ts[k + 1..]) == []
    ensures ExecOf(ts, Wrap(d, Redirs(ts[k + 1..])))
  {
    hide Flat, Args, Redirs, LineOf;
    assert ts[..k][1..] == ts[1..k];
  }

  lemma {:induction false} PipesFound<W(!new)>(ts: seq<Tok<W>>) returns (i: nat)
    requires ParsePipe(ts).Ok?
    ensures i <= |ts| && ParsePipe(ts).rest == ts[i..] && PipesOf(ts[..i], ParsePipe(ts).cmd)
    decreases |ts|, 1
  {
    hide ExecOf, ParseExec;
    i := ExecFound(ts);
    if Peek(ts[i..], "|") {
      assert ts[i] == Sym('|') && ts[i..][1..] == ts[i + 1..];
      var j := PipesFound(ts[i + 1..]);
      CutAfter(ts, i, j);
      i := i + 1 + j;
    }
  }

  lemma {:induction false} BacksFound<W(!new)>(ts: seq<Tok<W>>, i: nat, c: Cmd<W>) returns (k: nat)
    requires i <= |ts| && BacksOf(ts[..i], c)
    ensures k <= |ts| && ParseBacks(c, ts[i..]).rest == ts[k..] && BacksOf(ts[..k], ParseBacks(c, ts[i..]).cmd)
    decreases |ts| - i
  {
    hide PipesOf;
    k := i;
    if Peek(ts[i..], "&") {
      assert ts[i] == Sym('&') && ts[i..][1..] == ts[i + 1..] && ts[..i + 1][..i] == ts[..i] && ts[..i + 1][i] == Sym('&');
      k := BacksFound(ts, i + 1, Back(c));
    }
  }

  lemma {:induction false} LineFound<W(!new)>(ts: seq<Tok<W>>) returns (i: nat)
    requires ParseLine(ts).Ok?
    ensures i <= |ts| && ParseLine(ts).rest == ts[i..] && LineOf(ts[..i], ParseLine(ts).cmd)
    decreases |ts|, 3
  {
    hide PipesOf, ParsePipe, ParseBacks;
    var p := PipesFound(ts);
    var c := ParsePipe(ts).cmd;
    assert BacksOf(ts[..p], c);
    hide BacksOf;
    i := BacksFound(ts, p, c);
    if Peek(ts[i..], ";") {
      assert ts[i] == Sym(';') && ts[i..][1..] == ts[i + 1..];
      var j := LineFound(ts[i + 1..]);
      CutAfter(ts, i, j);
      i := i + 1 + j;
    }
  }

  // ----- main results -----

  /** The parser accepts exactly what the grammar has, with the grammar's tree, of which there is one at most. */
  lemma ParserIsGrammar<W(!new)>(ts: seq<Tok<W>>, c: Cmd<W>)
    ensures ParseAll(ts) == Ok(c, []) <==> LineOf(ts, c)
  {
    hide LineOf, ParseLine;
    if ParseAll(ts) == Ok(c, []) {
      var i := LineFound(ts);
      assert ts[i..] == [] ==> ts[..i] == ts;
    }
    if LineOf(ts, c) {
      EmptyStops<W>(")");
      LineRead(ts, c, []);
      assert ts + [] == ts;
    }
  }

  lemma Derives<W(!new)>(ts: seq<Tok<W>>)
    ensures ParseExec(ts).Ok? && ParseExec(ts).rest == [] ==> ExecOf(ts, ParseExec(ts).cmd)
    ensures ParsePipe(ts).Ok? && ParsePipe(ts).rest == [] ==> PipesOf(ts, ParsePipe(ts).cmd)
    ensures ParseLine(ts).Ok? && ParseLine(ts).rest == [] ==> LineOf(ts, ParseLine(ts).cmd)
  {
    hide ExecOf, PipesOf, LineOf, ParseExec, ParsePipe, ParseLine;
    if ParseExec(ts).Ok? {
      var i := ExecFound(ts);
      assert ts[i..] == [] ==> ts[..i] == ts;
    }
    if ParsePipe(ts).Ok? {
      var i := PipesFound(ts);
      assert ts[i..] == [] ==> ts[..i] == ts;
    }
    if ParseLine(ts).Ok? {
      var i := LineFound(ts);
      assert ts[i..] == [] ==> ts[..i] == ts;
    }
  }

  /** A pipe takes one exec or block on its left and the rest of the pipeline on its right. */
  lemma PipeBinds<W(!new)>(a: seq<Tok<W>>, x: Cmd<W>, b: seq<Tok<W>>, y: Cmd<W>)
    requires ParseExec(a) == Ok(x, []) && ParsePipe(b) == Ok(y, [])
    ensures ParsePipe(a + [Sym('|')] + b) == Ok(Pipe(x, y), [])
    ensures ParseAll(a + [Sym('|')] + b) == Ok(Pipe(x, y), [])
  {
    hide ExecOf, ParseExec, ParsePipe, ParseAll;
    var ts := a + [Sym('|')] + b;
    Derives(a);
    Derives(b);
    PipeOf(a, x, b, y);
    OfLower(2, 0, ts, Pipe(x, y));
    EmptyStops<W>(")&;");
    PipesRead(ts, Pipe(x, y), []);
    assert ts + [] == ts;
    ParserIsGrammar(ts, Pipe(x, y));
  }

  function Amps<W>(n: nat): seq<Tok<W>> {
    if n == 0 then [] else Amps(n - 1) + [Sym('&')]
  }

  function InBack<W>(c: Cmd<W>, n: nat): Cmd<W> {
    if n == 0 then c else Back(InBack(c, n - 1))
  }

  lemma {:induction false} AmpsOf<W(!new)>(a: seq<Tok<W>>, x: Cmd<W>, n: nat)
    requires PipesOf(a, x)
    ensures BacksOf(a + Amps(n), InBack(x, n))
  {
    hide PipesOf;
    if n == 0 {
      assert a + Amps(0) == a;
    } else {
      AmpsOf(a, x, n - 1);
      BackOf(a + Amps(n - 1), InBack(x, n - 1));
      assert a + Amps(n - 1) + [Sym('&')] == a + Amps(n);
    }
  }

  /** & puts the whole pipeline in the background; ; takes a pipeline with its &s on its left and the rest of the line on its right. */
  lemma ListBinds<W(!new)>(a: seq<Tok<W>>, x: Cmd<W>, n: nat, b: seq<Tok<W>>, y: Cmd<W>)
    requires ParsePipe(a) == Ok(x, []) && ParseAll(b) == Ok(y, [])
    ensures ParseAll(a + Amps(n)) == Ok(InBack(x, n), [])
    ensures ParseAll(a + Amps(n) + [Sym(';')] + b) == Ok(List(InBack(x, n), y), [])
  {
    hide PipesOf, BacksOf, ParsePipe, ParseAll;
    var l, ts := a + Amps(n), a + Amps(n) + [Sym(';')] + b;
    Derives(a);
    ParserIsGrammar(b, y);
    AmpsOf(a, x, n);
    OfLower(1, 0, l, InBack(x, n));
    ParserIsGrammar(l, InBack(x, n));
    ListOf(l, InBack(x, n), b, y);
    ParserIsGrammar(ts, List(InBack(x, n), y));
  }

  // ----- a printer that sets parentheses only where the tree does not follow the precedences -----

  /** How tightly the outermost operator binds: ; then & then | then what needs no operator. */
  function Level<W>(c: Cmd<W>): (k: nat)
    ensures k <= 3
  {
    match c
    case List(_, _) => 0
    case Back(_) => 1
    case Pipe(_, _) => 2
    case _ => 3
  }

  /** The command inside all redirections, and these, the innermost first. */
  function Core<W>(c: Cmd<W>): (d: Cmd<W>)
    ensures d == c || d < c
    ensures !d.Redir?
  {
    if c.Redir? then Core(c.cmd) else c
  }

  function Outer<W>(c: Cmd<W>): seq<Redirection<W>> {
    if c.Redir? then Outer(c.cmd) + [Redirection(c.file, c.mode, c.fd)] else []
  }

  function RedirToks<W>(rs: seq<Redirection<W>>): seq<Tok<W>> {
    if rs == [] then [] else [Sym(if rs[0].fd == 0 then '<' else '>'), Word(rs[0].file)] + RedirToks(rs[1..])
  }

  function Enclosed<W>(ts: seq<Tok<W>>): seq<Tok<W>> {
    [Sym('(')] + ts + [Sym(')')]
  }

  /** The tokens of c where a command of level k or higher is due. */
  function Shown<W>(c: Cmd<W>, k: nat): seq<Tok<W>>
    decreases c, if Level(c) < k then 1 else 0
  {
    if Level(c) < k then Enclosed(Shown(c, 0))
    else
      match c
      case List(l, r) => Shown(l, 1) + [Sym(';')] + Shown(r, 0)
      case Back(d) => Shown(d, 1) + [Sym('&')]
      case Pipe(l, r) => Shown(l, 3) + [Sym('|')] + Shown(r, 2)
      case Exec(argv) => Words(argv)
      case Redir(_, _, _, _) => (if Core(c).Exec? then Words(Core(c).argv) else Enclosed(Shown(Core(c), 0))) + RedirToks(Outer(c))
  }

  ghost predicate Of<W(!new)>(k: nat, ts: seq<Tok<W>>, c: Cmd<W>) {
    if k == 0 then LineOf(ts, c) else if k == 1 then BacksOf(ts, c) else if k == 2 then PipesOf(ts, c) else ExecOf(ts, c)
  }

  lemma OfLower<W(!new)>(j: nat, k: nat, ts: seq<Tok<W>>, c: Cmd<W>)
    requires k <= j <= 3 && Of(j, ts, c)
    ensures Of(k, ts, c)
  {
    hide ExecOf;
    assert j == 3 ==> PipesOf(ts, c);
    assert j >= 2 ==> BacksOf(ts, c);
    assert j >= 1 ==> LineOf(ts, c);
  }

  ghost predicate Proper<W>(rs: seq<Redirection<W>>) {
    forall r :: r in rs ==> (r.mode == READ_ONLY && r.fd == 0) || (r.mode == WRITE_CREATE && r.fd == 1)
  }

  lemma {:induction false} WrapsBack<W>(c: Cmd<W>)
    ensures Wrap(Core(c), Outer(c)) == c
    ensures TreeOk(c) ==> TreeOk(Core(c)) && Proper(Outer(c))
    decreases c
  {
    if c.Redir? {
      WrapsBack(c.cmd);
      var n := |Outer(c.cmd)|;
      assert Outer(c)[..n] == Outer(c.cmd);
    }
  }

  lemma {:induction false} WordsFlat<W>(ws: seq<W>, ts: seq<Tok<W>>)
    requires Flat(ts)
    ensures Flat(Words(ws) + ts) && Args(Words(ws) + ts) == ws + Args(ts) && Redirs(Words(ws) + ts) == Redirs(ts)
    decreases |ws|
  {
    hide Flat, Args, Redirs;
    var all := Words(ws) + ts;
    if ws == [] {
      assert all == ts && ws + Args(ts) == Args(ts);
    } else {
      WordsFlat(ws[1..], ts);
      assert all[0] == Word(ws[0]) && all[1..] == Words(ws[1..]) + ts;
      FlatWord(all);
      assert [ws[0]] + (ws[1..] + Args(ts)) == ws + Args(ts);
    }
  }

  lemma {:induction false} RedirToksFlat<W>(rs: seq<Redirection<W>>)
    requires Proper(rs)
    ensures Flat(RedirToks(rs)) && Args(RedirToks(rs)) == [] && Redirs(RedirToks(rs)) == rs
    decreases |rs|
  {
    hide Flat, Args, Redirs;
    FlatNone<W>();
    if rs != [] {
      RedirToksFlat(rs[1..]);
      var ts := RedirToks(rs);
      assert ts[2..] == RedirToks(rs[1..]);
      FlatOp(ts);
      assert rs[0] in rs && OpMode(ts[0], ts[1].w) == rs[0];
    }
  }

  lemma SimpleShown<W(!new)>(ws: seq<W>, rs: seq<Redirection<W>>)
    requires |ws| < MAXARGS && Proper(rs)
    ensures ExecOf(Words(ws) + RedirToks(rs), Wrap(Exec(ws), rs))
  {
    hide Flat, Args, Redirs, Wrap;
    RedirToksFlat(rs);
    WordsFlat(ws, RedirToks(rs));
    assert ws + [] == ws;
  }

  lemma EnclosedShown<W(!new)>(ts: seq<Tok<W>>, d: Cmd<W>, rs: seq<Redirection<W>>)
    requires LineOf(ts, d) && Proper(rs)
    ensures ExecOf(Enclosed(ts) + RedirToks(rs), Wrap(d, rs))
  {
    hide LineOf, Flat, Args, Redirs;
    RedirToksFlat(rs);
    var all, k := Enclosed(ts) + RedirToks(rs), |ts| + 1;
    assert all[..k][1..] == ts && all[k] == Sym(')') && all[k + 1..] == RedirToks(rs);
    BlockIs(all, k, d);
  }

  lemma {:induction false} ShownOf<W(!new)>(c: Cmd<W>, k: nat)
    requires TreeOk(c) && k <= 3
    ensures Of(k, Shown(c, k), c)
    decreases c, 1, if Level(c) < k then 1 else 0
  {
    hide ExecOf;
    if Level(c) < k {
      ShownOf(c, 0);
      var ts := Shown(c, 0);
      EnclosedShown(ts, c, []);
      assert Enclosed(ts) + RedirToks<W>([]) == Enclosed(ts) && Wrap(c, []) == c;
      OfLower(3, k, Enclosed(ts), c);
    } else {
      OwnLevel(c);
      OfLower(Level(c), k, Shown(c, Level(c)), c);
      assert Shown(c, k) == Shown(c, Level(c));
    }
  }

  lemma {:induction false} OwnLevel<W(!new)>(c: Cmd<W>)
    requires TreeOk(c)
    ensures Of(Level(c), Shown(c, Level(c)), c)
    decreases c, 0, 0
  {
    hide ExecOf, PipesOf, BacksOf, LineOf;
    match c
    case List(l, r) =>
      ShownOf(l, 1);
      ShownOf(r, 0);
      ListOf(Shown(l, 1), l, Shown(r, 0), r);
    case Back(d) =>
      ShownOf(d, 1);
      BackOf(Shown(d, 1), d);
    case Pipe(l, r) =>
      ShownOf(l, 3);
      ShownOf(r, 2);
      PipeOf(Shown(l, 3), l, Shown(r, 2), r);
    case Exec(argv) =>
      SimpleShown(argv, []);
      assert Words(argv) + RedirToks<W>([]) == Words(argv) && Wrap(Exec(argv), []) == c;
    case Redir(_, _, _, _) =>
      WrapsBack(c);
      if Core(c).Exec? {
        SimpleShown(Core(c).argv, Outer(c));
      } else {
        ShownOf(Core(c), 0);
        EnclosedShown(Shown(Core(c), 0), Core(c), Outer(c));
      }
  }

  lemma ListOf<W(!new)>(a: seq<Tok<W>>, l: Cmd<W>, b: seq<Tok<W>>, r: Cmd<W>)
    requires BacksOf(a, l) && LineOf(b, r)
    ensures LineOf(a + [Sym(';')] + b, List(l, r))
  {
    hide BacksOf;
    var ts := a + [Sym(';')] + b;
    assert ts[..|a|] == a && ts[|a|] == Sym(';') && ts[|a| + 1..] == b;
  }

  lemma BackOf<W(!new)>(a: seq<Tok<W>>, d: Cmd<W>)
    requires BacksOf(a, d)
    ensures BacksOf(a + [Sym('&')], Back(d))
  {
    hide PipesOf;
    assert (a + [Sym('&')])[..|a|] == a;
  }

  lemma PipeOf<W(!new)>(a: seq<Tok<W>>, l: Cmd<W>, b: seq<Tok<W>>, r: Cmd<W>)
    requires ExecOf(a, l) && PipesOf(b, r)
    ensures PipesOf(a + [Sym('|')] + b, Pipe(l, r))
  {
    hide ExecOf;
    var ts := a + [Sym('|')] + b;
    assert ts[..|a|] == a && ts[|a|] == Sym('|') && ts[|a| + 1..] == b;
  }

  /** Printed with the fewest parentheses, a command is read back as it is. */
  lemma MinimalParentheses<W(!new)>(c: Cmd<W>)
    ensures ParseAll(Shown(c, 0)) == Ok(c, []) <==> TreeOk(c)
  {
    hide LineOf, ParseLine;
    if TreeOk(c) {
      ShownOf(c, 0);
      ParserIsGrammar(Shown(c, 0), c);
    }
    LinePlaces(Shown(c, 0));
  }
}
