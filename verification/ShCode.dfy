/** The shell's parser as it runs: a cursor over the line in its buffer, which is cut into C strings at the end. */
module ShCode {
  import opened ShLex
  import S = ShSyntax
  import opened ShSyntax

  datatype Outcome = Got(cmd: Cmd<Span>) | Panicked(why: Panic)

  /** The value gettoken returns. */
  function Kind(t: Tok<Span>): char {
    match t
    case Sym(c) => c
    case Append => '+'
    case Word(_) => 'a'
  }

  /** r is what the grammar says, and left is what it leaves. */
  ghost predicate Agrees(r: Outcome, p: Parsed<Span>, left: seq<Tok<Span>>) {
    match p
    case Ok(c, rest) => r == Got(c) && left == rest
    case Fail(why) => r == Panicked(why)
  }

  class Parser {
    const buf: array<char>
    const es: nat
    ghost const text: string
    var at: nat

    ghost predicate Valid()
      reads this, buf
    {
      at <= es == |text| && es < buf.Length && buf[..es] == text && buf[es] == '\0' && '\0' !in text
    }

    /** The tokens still to come. */
    ghost function Left(): seq<Tok<Span>>
      requires at <= |text|
      reads this
    {
      Lex(text, at)
    }

    constructor (b: array<char>, n: nat)
      requires n < b.Length && b[n] == '\0' && '\0' !in b[..n]
      ensures Valid() && at == 0 && text == b[..n] && buf == b
    {
      buf, es, text, at := b, n, b[..n], 0;
    }

    method SkipSpace()
      requires Valid()
      modifies this`at
      ensures Valid() && at == Skip(text, old(at)) && Left() == old(Left())
    {
      while at < es && White(buf[at])
        invariant Valid() && Skip(text, at) == Skip(text, old(at))
        decreases es - at
      {
        at := at + 1;
      }
    }

    /** gettoken: the next token, and the cursor past it and the space after it. */
    method GetToken() returns (ret: char, q: nat, eq: nat)
      requires Valid()
      modifies this`at
      ensures Valid()
      ensures old(Left()) == [] ==> ret == '\0' && Left() == []
      ensures old(Left()) != [] ==> ret == Kind(old(Left())[0]) && Left() == old(Left())[1..]
      ensures old(Left()) != [] && old(Left())[0].Word? ==> old(Left())[0].w == Span(q, eq)
    {
      SkipSpace();
      ghost var from := at;
      q := at;
      ret := buf[at];
      if at < es { ret := Scan(); }
      eq := at;
      hide Next, End, Skip, White;
      LexHere(text, from);
      SkipSpace();
    }

    /** gettoken's switch, at a token. */
    method Scan() returns (ret: char)
      requires Valid() && at < es && !White(text[at])
      modifies this`at
      ensures Valid() && ret == Kind(Next(text, old(at))) && at == End(text, old(at))
      ensures Next(text, old(at)).Word? ==> Next(text, old(at)).w == Span(old(at), at)
    {
      ghost var from := at;
      ret := buf[at];
      if ret in "|();&<" {
        at := at + 1;
      } else if ret == '>' {
        at := at + 1;
        if buf[at] == '>' {
          ret := '+';
          at := at + 1;
        }
      } else {
        ret := 'a';
        while at < es && !White(buf[at]) && !Symbol(buf[at])
          invariant from <= at <= es && WordEnd(text, at) == WordEnd(text, from)
          decreases es - at
        {
          at := at + 1;
        }
      }
    }

    /** peek: whether the next token starts with one of toks; only space is skipped. */
    method Peek(toks: string) returns (yes: bool)
      requires Valid() && forall c :: c in toks ==> Symbol(c)
      modifies this`at
      ensures Valid() && Left() == old(Left())
      ensures yes == S.Peek(Left(), toks)
      ensures Left() == [] <==> at == es
    {
      SkipSpace();
      yes := buf[at] != '\0' && buf[at] in toks;
    }

    method ParseRedirs(c: Cmd<Span>) returns (r: Outcome)
      requires Valid()
      modifies this`at
      ensures Valid() && Agrees(r, S.ParseRedirs(c, old(Left())), Left())
    {
      var cmd := c;
      var more := Peek("<>");
      while more
        invariant Valid() && more == S.Peek(Left(), "<>")
        invariant S.ParseRedirs(cmd, Left()) == S.ParseRedirs(c, old(Left()))
        decreases |Left()|
      {
        ghost var ts := Left();
        var tok, _, _ := GetToken();
        var kind, q, eq := GetToken();
        if kind != 'a' {
          return Panicked(MissingFile);
        }
        assert ts[1..] != [] && ts[1] == Word(Span(q, eq)) && Left() == ts[2..];
        if tok == '<' {
          cmd := Redir(cmd, Span(q, eq), READ_ONLY, 0);
        } else {
          cmd := Redir(cmd, Span(q, eq), WRITE_CREATE, 1);
        }
        more := Peek("<>");
      }
      return Got(cmd);
    }

    method ParseBlock() returns (r: Outcome)
      requires Valid()
      modifies this`at
      ensures Valid() && Agrees(r, S.ParseBlock(old(Left())), Left())
      decreases |Left()|, 0
    {
      var open := Peek("(");
      if !open { return Panicked(NotABlock); }
      var _, _, _ := GetToken();
      r := ParseLine();
      if r.Panicked? { return; }
      var closed := Peek(")");
      if !closed { return Panicked(MissingParen); }
      var _, _, _ := GetToken();
      r := ParseRedirs(r.cmd);
    }

    /** The loop of parseexec: arguments go into the exec node, redirections around it. */
    method ParseArgs(c: Cmd<Span>) returns (r: Outcome)
      requires Valid() && Simple(c) && Argv(c) == []
      modifies this`at
      ensures Valid() && Agrees(r, S.ParseArgs(c, old(Left())), Left())
    {
      hide Simple, Argv, AddArg, S.ParseRedirs;
      var ret := c;
      var argc := 0;
      var stop := Peek("|)&;");
      while !stop
        invariant Valid() && stop == S.Peek(Left(), "|)&;")
        invariant Simple(ret) && argc == |Argv(ret)|
        invariant S.ParseArgs(ret, Left()) == S.ParseArgs(c, old(Left()))
        decreases |Left()|
      {
        ghost var ts := Left();
        var tok, q, eq := GetToken();
        if tok == '\0' { break; }
        if tok != 'a' { return Panicked(Syntax); }
        argc := argc + 1;
        if argc >= MAXARGS { return Panicked(TooManyArgs); }
        assert ts[0] == Word(Span(q, eq)) && Left() == ts[1..];
        ArgAdded(ret, Span(q, eq));
        ret := AddArg(ret, Span(q, eq));
        RedirsSimple(ret, ts[1..]);
        r := ParseRedirs(ret);
        if r.Panicked? { return; }
        ret := r.cmd;
        stop := Peek("|)&;");
      }
      return Got(ret);
    }

    method ParseExec() returns (r: Outcome)
      requires Valid()
      modifies this`at
      ensures Valid() && Agrees(r, S.ParseExec(old(Left())), Left())
      decreases |Left()|, 1
    {
      var block := Peek("(");
      if block {
        r := ParseBlock();
        return;
      }
      r := ParseRedirs(Exec([]));
      if r.Panicked? { return; }
      RedirsSimple<Span>(Exec([]), old(Left()));
      r := ParseArgs(r.cmd);
    }

    method ParsePipe() returns (r: Outcome)
      requires Valid()
      modifies this`at
      ensures Valid() && Agrees(r, S.ParsePipe(old(Left())), Left())
      decreases |Left()|, 2
    {
      r := ParseExec();
      if r.Panicked? { return; }
      var more := Peek("|");
      if more {
        var _, _, _ := GetToken();
        var right := ParsePipe();
        r := if right.Panicked? then right else Got(Pipe(r.cmd, right.cmd));
      }
    }

    method ParseLine() returns (r: Outcome)
      requires Valid()
      modifies this`at
      ensures Valid() && Agrees(r, S.ParseLine(old(Left())), Left())
      decreases |Left()|, 3
    {
      r := ParsePipe();
      if r.Panicked? { return; }
      var cmd := r.cmd;
      ghost var all := ParseBacks(cmd, Left());
      var more := Peek("&");
      while more
        invariant Valid() && more == S.Peek(Left(), "&")
        invariant ParseBacks(cmd, Left()) == all && |Left()| <= |old(Left())|
        decreases |Left()|
      {
        var _, _, _ := GetToken();
        cmd := Back(cmd);
        more := Peek("&");
      }
      more := Peek(";");
      if more {
        var _, _, _ := GetToken();
        var right := ParseLine();
        if right.Panicked? { return right; }
        cmd := List(cmd, right.cmd);
      }
      return Got(cmd);
    }

    /** nulterminate: a NUL right after every word of the tree, and nothing else. */
    method NulTerminate(c: Cmd<Span>)
      requires forall e :: e in Ends(c) ==> e < buf.Length
      modifies buf
      ensures forall i :: 0 <= i < buf.Length ==> buf[i] == if i in Ends(c) then '\0' else old(buf[i])
      decreases c
    {
      match c
      case Exec(argv) =>
        var k := 0;
        while k < |argv|
          invariant 0 <= k <= |argv|
          invariant forall i :: 0 <= i < buf.Length ==>
                                  buf[i] == if i in Ends(Exec(argv[..k])) then '\0' else old(buf[i])
        {
          EndsOfOneMore(argv, k);
          assert argv[k].hi in Ends(Exec(argv));
          buf[argv[k].hi] := '\0';
          k := k + 1;
        }
        assert argv[..k] == argv;
      case Redir(d, f, _, _) =>
        assert Ends(d) <= Ends(c) && f.hi in Ends(c);
        NulTerminate(d);
        buf[f.hi] := '\0';
      case Pipe(l, r) =>
        assert Ends(l) <= Ends(c) && Ends(r) <= Ends(c);
        NulTerminate(l);
        NulTerminate(r);
      case List(l, r) =>
        assert Ends(l) <= Ends(c) && Ends(r) <= Ends(c);
        NulTerminate(l);
        NulTerminate(r);
      case Back(d) =>
        assert Ends(d) == Ends(c);
        NulTerminate(d);
    }

    /** parsecmd: panics exactly when the line has no meaning; else the tree's C strings spell the line's meaning. */
    method ParseCmd() returns (r: Outcome)
      requires Valid() && at == 0
      modifies this`at, buf
      ensures r.Panicked? ==> Meaning(text) == Fail(r.why) && buf[..] == old(buf[..])
      ensures r.Got? ==> Meaning(text) == Ok(MapCmd(CStrings(buf[..]), r.cmd), [])
      ensures r.Panicked? ==> forall c :: !Means(text, c)
      ensures r.Got? ==> Means(text, MapCmd(CStrings(buf[..]), r.cmd))
      ensures r.Got? ==> Terminated(buf[..], text, Ends(r.cmd))
    {
      hide Means;
      PlacesMeanTexts(text);
      forall c ensures Meaning(text) == Ok(c, []) <==> Means(text, c) { MeaningIs(text, c); }
      ghost var ts := Left();
      r := ParseLine();
      if r.Panicked? { return; }
      var _ := Peek("");
      if at != es { return Panicked(Leftovers); }
      EndsInside(text);
      NulTerminate(r.cmd);
      assert ParseAll(ts).cmd == r.cmd;
      TokensAreCStrings(buf[..], text);
    }
  }

  lemma LexHere(s: string, p: nat)
    requires p <= |s| && (p < |s| ==> !White(s[p]))
    ensures Lex(s, p) == if p == |s| then [] else [Next(s, p)] + Lex(s, End(s, p))
  {
    assert Skip(s, p) == p;
  }

  lemma ArgAdded(c: Cmd<Span>, w: Span)
    requires Simple(c)
    ensures Simple(AddArg(c, w)) && |Argv(AddArg(c, w))| == |Argv(c)| + 1
  {
  }

  lemma EndsOfOneMore(argv: seq<Span>, k: nat)
    requires k < |argv|
    ensures Ends(Exec(argv[..k + 1])) == Ends(Exec(argv[..k])) + {argv[k].hi}
  {
    forall e | e in Ends(Exec(argv[..k])) + {argv[k].hi} ensures e in Ends(Exec(argv[..k + 1])) {
      if e == argv[k].hi {
        assert argv[..k + 1][k].hi == e;
      } else {
        var i :| 0 <= i < k && argv[..k][i].hi == e;
        assert argv[..k + 1][i].hi == e;
      }
    }
    forall e | e in Ends(Exec(argv[..k + 1])) ensures e in Ends(Exec(argv[..k])) + {argv[k].hi} {
      var i :| 0 <= i < k + 1 && argv[..k + 1][i].hi == e;
      assert i < k ==> argv[..k][i].hi == e;
    }
  }

  /** Where nulterminate writes is inside the line, or at its end. */
  lemma EndsInside(s: string)
    requires ParseAll(Lex(s, 0)).Ok?
    ensures forall e :: e in Ends(ParseAll(Lex(s, 0)).cmd) ==> 0 < e <= |s|
  {
    hide ParseAll, Lex;
    var c := ParseAll(Lex(s, 0)).cmd;
    EveryWordPlacedOnce(Lex(s, 0));
    LexWords(s, 0);
    EndsAreEnds(c);
  }
}
