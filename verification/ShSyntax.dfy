/**
 The grammar of the shell over tokens, and what its parser promises. W is what a word token
 carries: its place in the buffer while parsing, its text once it is read.
 */
module ShSyntax {

  /** A symbol, the two-character >>, or a word. */
  datatype Tok<W> = Sym(c: char) | Append | Word(w: W)

  datatype Cmd<W> =
    | Exec(argv: seq<W>)
    | Redir(cmd: Cmd<W>, file: W, mode: int, fd: int)
    | Pipe(left: Cmd<W>, right: Cmd<W>)
    | List(left: Cmd<W>, right: Cmd<W>)
    | Back(cmd: Cmd<W>)

  datatype Panic = Syntax | MissingFile | MissingParen | TooManyArgs | NotABlock | Leftovers

  datatype Parsed<W> = Ok(cmd: Cmd<W>, rest: seq<Tok<W>>) | Fail(why: Panic)

  const MAXARGS := 10
  const READ_ONLY := 0
  const WRITE_CREATE := 0x201

  /** The character peek sees at the start of a token; no set it is called with holds a word character. */
  function Lead<W>(t: Tok<W>): char {
    match t
    case Sym(c) => c
    case Append => '>'
    case Word(_) => 'a'
  }

  predicate Peek<W>(ts: seq<Tok<W>>, chars: string) {
    ts != [] && Lead(ts[0]) in chars
  }

  // ----- the parser, over the tokens that are left -----

  predicate Shrinks<W>(r: Parsed<W>, ts: seq<Tok<W>>) {
    r.Ok? ==> |r.rest| <= |ts|
  }

  function Redirect<W>(cmd: Cmd<W>, t: Tok<W>, file: W): Cmd<W> {
    if t == Sym('<') then Redir(cmd, file, READ_ONLY, 0) else Redir(cmd, file, WRITE_CREATE, 1)
  }

  function ParseRedirs<W>(cmd: Cmd<W>, ts: seq<Tok<W>>): (r: Parsed<W>)
    ensures Shrinks(r, ts)
    decreases |ts|
  {
    if !Peek(ts, "<>") then Ok(cmd, ts)
    else if |ts| < 2 || !ts[1].Word? then Fail(MissingFile)
    else ParseRedirs(Redirect(cmd, ts[0], ts[1].w), ts[2..])
  }

  /** The exec node under the redirections wrapped around it so far. */
  function Argv<W>(c: Cmd<W>): seq<W> {
    match c
    case Exec(argv) => argv
    case Redir(d, _, _, _) => Argv(d)
    case _ => []
  }

  function AddArg<W>(c: Cmd<W>, w: W): Cmd<W> {
    match c
    case Exec(argv) => Exec(argv + [w])
    case Redir(d, f, m, fd) => Redir(AddArg(d, w), f, m, fd)
    case _ => c
  }

  function ParseArgs<W>(c: Cmd<W>, ts: seq<Tok<W>>): (r: Parsed<W>)
    ensures Shrinks(r, ts)
    decreases |ts|
  {
    if ts == [] || Peek(ts, "|)&;") then Ok(c, ts)
    else if !ts[0].Word? then Fail(Syntax)
    else if |Argv(c)| + 1 >= MAXARGS then Fail(TooManyArgs)
    else
      var r := ParseRedirs(AddArg(c, ts[0].w), ts[1..]);
      if r.Ok? then ParseArgs(r.cmd, r.rest) else r
  }

  function ParseBlock<W>(ts: seq<Tok<W>>): (r: Parsed<W>)
    ensures Shrinks(r, ts)
    decreases |ts|, 0
  {
    if !Peek(ts, "(") then Fail(NotABlock)
    else
      var r := ParseLine(ts[1..]);
      if r.Fail? then r
      else if !Peek(r.rest, ")") then Fail(MissingParen)
      else ParseRedirs(r.cmd, r.rest[1..])
  }

  function ParseExec<W>(ts: seq<Tok<W>>): (r: Parsed<W>)
    ensures Shrinks(r, ts)
    decreases |ts|, 1
  {
    if Peek(ts, "(") then ParseBlock(ts)
    else
      var r := ParseRedirs(Exec([]), ts);
      if r.Ok? then ParseArgs(r.cmd, r.rest) else r
  }

  function ParsePipe<W>(ts: seq<Tok<W>>): (r: Parsed<W>)
    ensures Shrinks(r, ts)
    decreases |ts|, 2
  {
    var r := ParseExec(ts);
    if r.Ok? && Peek(r.rest, "|") then
      var q := ParsePipe(r.rest[1..]);
      if q.Ok? then Ok(Pipe(r.cmd, q.cmd), q.rest) else q
    else r
  }

  function ParseBacks<W>(cmd: Cmd<W>, ts: seq<Tok<W>>): (r: Parsed<W>)
    ensures r.Ok? && Shrinks(r, ts)
    decreases |ts|
  {
    if Peek(ts, "&") then ParseBacks(Back(cmd), ts[1..]) else Ok(cmd, ts)
  }

  function ParseLine<W>(ts: seq<Tok<W>>): (r: Parsed<W>)
    ensures Shrinks(r, ts)
    decreases |ts|, 3
  {
    var p := ParsePipe(ts);
    if p.Fail? then p
    else
      var r := ParseBacks(p.cmd, p.rest);
      if Peek(r.rest, ";") then
        var q := ParseLine(r.rest[1..]);
        if q.Ok? then Ok(List(r.cmd, q.cmd), q.rest) else q
      else r
  }

  function ParseAll<W>(ts: seq<Tok<W>>): (r: Parsed<W>) {
    var r := ParseLine(ts);
    if r.Ok? && r.rest != [] then Fail(Leftovers) else r
  }

  // ----- the fully parenthesised printer, and that the parser undoes it -----

  function Words<W>(argv: seq<W>): seq<Tok<W>> {
    if argv == [] then [] else [Word(argv[0])] + Words(argv[1..])
  }

  function Paren<W>(c: Cmd<W>): seq<Tok<W>>
    decreases c, 1
  {
    [Sym('(')] + Toks(c) + [Sym(')')]
  }

  function Toks<W>(c: Cmd<W>): seq<Tok<W>>
    decreases c, 0
  {
    match c
    case Exec(argv) => Words(argv)
    case Redir(d, f, _, fd) => Paren(d) + [Sym(if fd == 0 then '<' else '>'), Word(f)]
    case Pipe(l, r) => Paren(l) + [Sym('|')] + Paren(r)
    case List(l, r) => Paren(l) + [Sym(';')] + Paren(r)
    case Back(d) => Paren(d) + [Sym('&')]
  }

  /** The trees there are to print: fewer than MAXARGS arguments, and the two kinds of redirection. */
  predicate TreeOk<W>(c: Cmd<W>) {
    match c
    case Exec(argv) => |argv| < MAXARGS
    case Redir(d, _, m, fd) => TreeOk(d) && ((m == READ_ONLY && fd == 0) || (m == WRITE_CREATE && fd == 1))
    case Pipe(l, r) => TreeOk(l) && TreeOk(r)
    case List(l, r) => TreeOk(l) && TreeOk(r)
    case Back(d) => TreeOk(d)
  }

  predicate Closes<W>(rest: seq<Tok<W>>) {
    rest == [] || rest[0] == Sym(')')
  }

  lemma {:induction false} ArgsBack<W>(done: seq<W>, argv: seq<W>, rest: seq<Tok<W>>)
    requires |done| + |argv| < MAXARGS && Closes(rest)
    ensures ParseArgs(Exec(done), Words(argv) + rest) == Ok(Exec(done + argv), rest)
    decreases |argv|
  {
    if argv == [] {
      assert Words(argv) + rest == rest && done + argv == done;
    } else {
      var ts := Words(argv) + rest;
      assert ts[0] == Word(argv[0]) && ts[1..] == Words(argv[1..]) + rest;
      assert argv[1..] != [] ==> ts[1] == Word(argv[1]);
      assert ParseRedirs(Exec(done + [argv[0]]), ts[1..]) == Ok(Exec(done + [argv[0]]), ts[1..]) by {
        assert !Peek(ts[1..], "<>");
      }
      hide Words, ParseRedirs;
      ArgsBack(done + [argv[0]], argv[1..], rest);
      assert done + [argv[0]] + argv[1..] == done + argv;
    }
  }

  lemma {:induction false} BlockBack<W>(c: Cmd<W>, rest: seq<Tok<W>>)
    requires TreeOk(c)
    ensures ParseExec(Paren(c) + rest) == ParseRedirs(c, rest)
    decreases c, 1, 0
  {
    var ts := Paren(c) + rest;
    assert ts[1..] == Toks(c) + ([Sym(')')] + rest);
    RoundTrip(c, [Sym(')')] + rest);
  }

  /** A parenthesised command followed by what is not a redirection is read back as it is. */
  lemma {:induction false} ParenBack<W>(c: Cmd<W>, rest: seq<Tok<W>>)
    requires TreeOk(c) && !Peek(rest, "<>|")
    ensures ParsePipe(Paren(c) + rest) == Ok(c, rest)
    decreases c, 2, 0
  {
    BlockBack(c, rest);
  }

  lemma {:induction false} ExecBack<W>(argv: seq<W>, rest: seq<Tok<W>>)
    requires |argv| < MAXARGS && Closes(rest)
    ensures ParseLine(Words(argv) + rest) == Ok(Exec(argv), rest)
  {
    var ts := Words(argv) + rest;
    assert argv != [] ==> ts[0] == Word(argv[0]);
    assert argv == [] ==> ts == rest;
    ArgsBack([], argv, rest);
    assert [] + argv == argv;
    assert ParseRedirs(Exec([]), ts) == Ok(Exec([]), ts);
    assert ParsePipe(ts) == Ok(Exec(argv), rest);
  }

  lemma {:induction false} RedirBack<W>(c: Cmd<W>, rest: seq<Tok<W>>)
    requires c.Redir? && TreeOk(c) && Closes(rest)
    ensures ParseLine(Toks(c) + rest) == Ok(c, rest)
    decreases c, 0, 0
  {
    var ts := Toks(c) + rest;
    var tail := [Sym(if c.fd == 0 then '<' else '>'), Word(c.file)] + rest;
    assert ts == Paren(c.cmd) + tail && tail[2..] == rest;
    BlockBack(c.cmd, tail);
    assert ParsePipe(ts) == ParseRedirs(c.cmd, tail) == Ok(c, rest) by {
      assert ParseRedirs(c, rest) == Ok(c, rest);
    }
  }

  lemma {:induction false} PipeBack<W>(l: Cmd<W>, r: Cmd<W>, rest: seq<Tok<W>>)
    requires TreeOk(l) && TreeOk(r) && Closes(rest)
    ensures ParseLine(Toks(Pipe(l, r)) + rest) == Ok(Pipe(l, r), rest)
    decreases Pipe(l, r), 0, 0
  {
    var ts := Toks(Pipe(l, r)) + rest;
    var tail := [Sym('|')] + Paren(r) + rest;
    assert ts == Paren(l) + tail && tail[1..] == Paren(r) + rest;
    BlockBack(l, tail);
    ParenBack(r, rest);
    assert ParsePipe(ts) == Ok(Pipe(l, r), rest);
  }

  lemma {:induction false} ListBack<W>(l: Cmd<W>, r: Cmd<W>, rest: seq<Tok<W>>)
    requires TreeOk(l) && TreeOk(r) && Closes(rest)
    ensures ParseLine(Toks(List(l, r)) + rest) == Ok(List(l, r), rest)
    decreases List(l, r), 0, 0
  {
    var ts := Toks(List(l, r)) + rest;
    var tail := [Sym(';')] + Paren(r) + rest;
    assert ts == Paren(l) + tail && tail[1..] == Paren(r) + rest;
    ParenBack(l, tail);
    ParenBack(r, rest);
    hide ParsePipe;
    assert ParseLine(Paren(r) + rest) == Ok(r, rest);
    assert ParseBacks(l, tail) == Ok(l, tail);
  }

  lemma {:induction false} BackBack<W>(d: Cmd<W>, rest: seq<Tok<W>>)
    requires TreeOk(d) && Closes(rest)
    ensures ParseLine(Toks(Back(d)) + rest) == Ok(Back(d), rest)
    decreases Back(d), 0, 0
  {
    var ts := Toks(Back(d)) + rest;
    var tail := [Sym('&')] + rest;
    assert ts == Paren(d) + tail && tail[1..] == rest;
    ParenBack(d, tail);
    hide ParsePipe;
    assert ParseBacks(Back(d), rest) == Ok(Back(d), rest);
  }

  lemma {:induction false} RoundTrip<W>(c: Cmd<W>, rest: seq<Tok<W>>)
    requires TreeOk(c) && Closes(rest)
    ensures ParseLine(Toks(c) + rest) == Ok(c, rest)
    decreases c, 0, 1
  {
    hide ParseLine;
    match c
    case Exec(argv) => ExecBack(argv, rest);
    case Redir(_, _, _, _) => RedirBack(c, rest);
    case Pipe(l, r) => PipeBack(l, r, rest);
    case List(l, r) => ListBack(l, r, rest);
    case Back(d) => BackBack(d, rest);
  }

  // ----- what comes out of the parser is always such a tree, and uses every word exactly once -----

  function WordsOf<W>(ts: seq<Tok<W>>): multiset<W> {
    if ts == [] then multiset{}
    else (if ts[0].Word? then multiset{ts[0].w} else multiset{}) + WordsOf(ts[1..])
  }

  function Leaves<W>(c: Cmd<W>): multiset<W> {
    match c
    case Exec(argv) => multiset(argv)
    case Redir(d, f, _, _) => Leaves(d) + multiset{f}
    case Pipe(l, r) => Leaves(l) + Leaves(r)
    case List(l, r) => Leaves(l) + Leaves(r)
    case Back(d) => Leaves(d)
  }

  /** A parse that had the words of ts to place, on top of those in was. */
  ghost predicate Placed<W>(r: Parsed<W>, ts: seq<Tok<W>>, was: multiset<W>) {
    r.Ok? ==> TreeOk(r.cmd) && Leaves(r.cmd) + WordsOf(r.rest) == was + WordsOf(ts)
  }

  lemma {:induction false} RedirsPlace<W>(cmd: Cmd<W>, ts: seq<Tok<W>>)
    requires TreeOk(cmd)
    ensures Placed(ParseRedirs(cmd, ts), ts, Leaves(cmd))
    decreases |ts|
  {
    if Peek(ts, "<>") && |ts| >= 2 && ts[1].Word? {
      RedirsPlace(Redirect(cmd, ts[0], ts[1].w), ts[2..]);
      assert ts[1..][1..] == ts[2..];
      hide Peek, Lead;
      assert WordsOf(ts) == multiset{ts[1].w} + WordsOf(ts[2..]) by {
        assert WordsOf(ts[1..]) == multiset{ts[1].w} + WordsOf(ts[2..]);
      }
    }
  }

  lemma {:induction false} RedirsSimple<W>(cmd: Cmd<W>, ts: seq<Tok<W>>)
    requires Simple(cmd)
    ensures ParseRedirs(cmd, ts).Ok? ==>
              Simple(ParseRedirs(cmd, ts).cmd) && Argv(ParseRedirs(cmd, ts).cmd) == Argv(cmd)
    decreases |ts|
  {
    if Peek(ts, "<>") && |ts| >= 2 && ts[1].Word? {
      RedirsSimple(Redirect(cmd, ts[0], ts[1].w), ts[2..]);
    }
  }

  /** An exec node under redirections only. */
  predicate Simple<W>(c: Cmd<W>) {
    match c
    case Exec(_) => true
    case Redir(d, _, _, _) => Simple(d)
    case _ => false
  }

  lemma AddArgPlaces<W>(c: Cmd<W>, w: W)
    requires Simple(c) && TreeOk(c) && |Argv(c)| + 1 < MAXARGS
    ensures Simple(AddArg(c, w)) && TreeOk(AddArg(c, w))
    ensures Argv(AddArg(c, w)) == Argv(c) + [w]
    ensures Leaves(AddArg(c, w)) == Leaves(c) + multiset{w}
  {
  }

  lemma {:induction false} ArgsPlace<W>(c: Cmd<W>, ts: seq<Tok<W>>)
    requires Simple(c) && TreeOk(c)
    ensures Placed(ParseArgs(c, ts), ts, Leaves(c))
    decreases |ts|
  {
    if !(ts == [] || Peek(ts, "|)&;")) && ts[0].Word? && |Argv(c)| + 1 < MAXARGS {
      AddArgPlaces(c, ts[0].w);
      RedirsPlace(AddArg(c, ts[0].w), ts[1..]);
      RedirsSimple(AddArg(c, ts[0].w), ts[1..]);
      var r := ParseRedirs(AddArg(c, ts[0].w), ts[1..]);
      if r.Ok? { ArgsPlace(r.cmd, r.rest); }
    }
  }

  lemma {:induction false} BlockPlaces<W>(ts: seq<Tok<W>>)
    ensures Placed(ParseBlock(ts), ts, multiset{})
    decreases |ts|, 0
  {
    if Peek(ts, "(") {
      LinePlaces(ts[1..]);
      var r := ParseLine(ts[1..]);
      if r.Ok? && Peek(r.rest, ")") { RedirsPlace(r.cmd, r.rest[1..]); }
    }
  }

  lemma {:induction false} ExecPlaces<W>(ts: seq<Tok<W>>)
    ensures Placed(ParseExec(ts), ts, multiset{})
    decreases |ts|, 1
  {
    if Peek(ts, "(") {
      BlockPlaces(ts);
    } else {
      RedirsPlace(Exec([]), ts);
      RedirsSimple(Exec([]), ts);
      var r := ParseRedirs(Exec([]), ts);
      if r.Ok? { ArgsPlace(r.cmd, r.rest); }
    }
  }

  lemma {:induction false} PipePlaces<W>(ts: seq<Tok<W>>)
    ensures Placed(ParsePipe(ts), ts, multiset{})
    decreases |ts|, 2
  {
    ExecPlaces(ts);
    var r := ParseExec(ts);
    if r.Ok? && Peek(r.rest, "|") { PipePlaces(r.rest[1..]); }
  }

  lemma {:induction false} BacksPlace<W>(cmd: Cmd<W>, ts: seq<Tok<W>>)
    requires TreeOk(cmd)
    ensures Placed(ParseBacks(cmd, ts), ts, Leaves(cmd))
    decreases |ts|
  {
    if Peek(ts, "&") { BacksPlace(Back(cmd), ts[1..]); }
  }

  lemma {:induction false} LinePlaces<W>(ts: seq<Tok<W>>)
    ensures Placed(ParseLine(ts), ts, multiset{})
    decreases |ts|, 3
  {
    PipePlaces(ts);
    var p := ParsePipe(ts);
    if p.Ok? {
      BacksPlace(p.cmd, p.rest);
      var r := ParseBacks(p.cmd, p.rest);
      if Peek(r.rest, ";") { LinePlaces(r.rest[1..]); }
    }
  }

  /** The parser undoes the printer on exactly the trees the shell can hold. */
  lemma ParserUndoesPrinter<W>(c: Cmd<W>)
    ensures ParseAll(Toks(c)) == Ok(c, []) <==> TreeOk(c)
  {
    assert Toks(c) + [] == Toks(c);
    if TreeOk(c) { RoundTrip(c, []); }
    LinePlaces(Toks(c));
  }

  /** Whatever is accepted can be printed, parses back to itself, and holds each word of the input exactly once. */
  lemma EveryWordPlacedOnce<W>(ts: seq<Tok<W>>)
    requires ParseAll(ts).Ok?
    ensures Leaves(ParseAll(ts).cmd) == WordsOf(ts)
    ensures ParseAll(Toks(ParseAll(ts).cmd)) == ParseAll(ts)
  {
    LinePlaces(ts);
    assert Leaves(ParseAll(ts).cmd) + WordsOf<W>([]) == Leaves(ParseAll(ts).cmd);
    assert multiset{} + WordsOf(ts) == WordsOf(ts);
    ParserUndoesPrinter(ParseAll(ts).cmd);
  }

  // ----- only the words' texts and the symbols matter, not where they stand -----

  function MapTok<W, V>(f: W -> V, t: Tok<W>): Tok<V> {
    match t
    case Sym(c) => Sym(c)
    case Append => Append
    case Word(w) => Word(f(w))
  }

  function MapToks<W, V>(f: W -> V, ts: seq<Tok<W>>): (r: seq<Tok<V>>)
    ensures |r| == |ts|
    ensures forall i :: 0 <= i < |ts| ==> r[i] == MapTok(f, ts[i])
  {
    seq(|ts|, i requires 0 <= i < |ts| => MapTok(f, ts[i]))
  }

  lemma MapCons<W, V>(f: W -> V, t: Tok<W>, ts: seq<Tok<W>>)
    ensures MapToks(f, [t] + ts) == [MapTok(f, t)] + MapToks(f, ts)
  {
    hide MapTok;
  }

  function MapWords<W, V>(f: W -> V, ws: seq<W>): (r: seq<V>)
    ensures |r| == |ws|
    ensures forall i :: 0 <= i < |ws| ==> r[i] == f(ws[i])
  {
    seq(|ws|, i requires 0 <= i < |ws| => f(ws[i]))
  }

  function MapCmd<W, V>(f: W -> V, c: Cmd<W>): Cmd<V> {
    match c
    case Exec(argv) => Exec(MapWords(f, argv))
    case Redir(d, w, m, fd) => Redir(MapCmd(f, d), f(w), m, fd)
    case Pipe(l, r) => Pipe(MapCmd(f, l), MapCmd(f, r))
    case List(l, r) => List(MapCmd(f, l), MapCmd(f, r))
    case Back(d) => Back(MapCmd(f, d))
  }

  function MapParsed<W, V>(f: W -> V, r: Parsed<W>): Parsed<V> {
    match r
    case Ok(c, rest) => Ok(MapCmd(f, c), MapToks(f, rest))
    case Fail(why) => Fail(why)
  }

  lemma MapSame<W, V>(f: W -> V, g: W -> V, c: Cmd<W>)
    requires forall w :: w in Leaves(c) ==> f(w) == g(w)
    ensures MapCmd(f, c) == MapCmd(g, c)
  {
    match c
    case Exec(argv) =>
      assert forall i :: 0 <= i < |argv| ==> argv[i] in multiset(argv);
      assert MapWords(f, argv) == MapWords(g, argv);
    case Redir(d, _, _, _) => MapSame(f, g, d);
    case Pipe(l, r) => MapSame(f, g, l); MapSame(f, g, r);
    case List(l, r) => MapSame(f, g, l); MapSame(f, g, r);
    case Back(d) => MapSame(f, g, d);
  }

  lemma {:induction false} RedirsMap<W, V>(f: W -> V, cmd: Cmd<W>, ts: seq<Tok<W>>)
    ensures MapParsed(f, ParseRedirs(cmd, ts)) == ParseRedirs(MapCmd(f, cmd), MapToks(f, ts))
    decreases |ts|
  {
    if Peek(ts, "<>") && |ts| >= 2 && ts[1].Word? {
      assert MapToks(f, ts)[2..] == MapToks(f, ts[2..]);
      RedirsMap(f, Redirect(cmd, ts[0], ts[1].w), ts[2..]);
    }
  }

  lemma AddArgMap<W, V>(f: W -> V, c: Cmd<W>, w: W)
    ensures MapCmd(f, AddArg(c, w)) == AddArg(MapCmd(f, c), f(w))
    ensures |Argv(MapCmd(f, c))| == |Argv(c)|
  {
    match c
    case Exec(argv) => assert MapWords(f, argv + [w]) == MapWords(f, argv) + [f(w)];
    case Redir(d, _, _, _) => AddArgMap(f, d, w);
    case _ =>
  }

  lemma {:induction false} ArgsMap<W, V>(f: W -> V, c: Cmd<W>, ts: seq<Tok<W>>)
    ensures MapParsed(f, ParseArgs(c, ts)) == ParseArgs(MapCmd(f, c), MapToks(f, ts))
    decreases |ts|
  {
    if !(ts == [] || Peek(ts, "|)&;")) && ts[0].Word? {
      AddArgMap(f, c, ts[0].w);
      if |Argv(c)| + 1 < MAXARGS {
        assert MapToks(f, ts)[1..] == MapToks(f, ts[1..]);
        RedirsMap(f, AddArg(c, ts[0].w), ts[1..]);
        var r := ParseRedirs(AddArg(c, ts[0].w), ts[1..]);
        if r.Ok? { ArgsMap(f, r.cmd, r.rest); }
      }
    }
  }

  lemma {:induction false} BlockMap<W, V>(f: W -> V, ts: seq<Tok<W>>)
    ensures MapParsed(f, ParseBlock(ts)) == ParseBlock(MapToks(f, ts))
    decreases |ts|, 0
  {
    if Peek(ts, "(") {
      assert MapToks(f, ts)[1..] == MapToks(f, ts[1..]);
      LineMap(f, ts[1..]);
      var r := ParseLine(ts[1..]);
      if r.Ok? && Peek(r.rest, ")") {
        assert MapToks(f, r.rest)[1..] == MapToks(f, r.rest[1..]);
        RedirsMap(f, r.cmd, r.rest[1..]);
      }
    }
  }

  lemma {:induction false} ExecMap<W, V>(f: W -> V, ts: seq<Tok<W>>)
    ensures MapParsed(f, ParseExec(ts)) == ParseExec(MapToks(f, ts))
    decreases |ts|, 1
  {
    if Peek(ts, "(") {
      BlockMap(f, ts);
    } else {
      RedirsMap(f, Exec([]), ts);
      assert MapWords(f, []) == [];
      var r := ParseRedirs(Exec([]), ts);
      if r.Ok? { ArgsMap(f, r.cmd, r.rest); }
    }
  }

  lemma {:induction false} PipeMap<W, V>(f: W -> V, ts: seq<Tok<W>>)
    ensures MapParsed(f, ParsePipe(ts)) == ParsePipe(MapToks(f, ts))
    decreases |ts|, 2
  {
    ExecMap(f, ts);
    var r := ParseExec(ts);
    if r.Ok? && Peek(r.rest, "|") {
      assert MapToks(f, r.rest)[1..] == MapToks(f, r.rest[1..]);
      PipeMap(f, r.rest[1..]);
    }
  }

  lemma {:induction false} BacksMap<W, V>(f: W -> V, cmd: Cmd<W>, ts: seq<Tok<W>>)
    ensures MapParsed(f, ParseBacks(cmd, ts)) == ParseBacks(MapCmd(f, cmd), MapToks(f, ts))
    decreases |ts|
  {
    if Peek(ts, "&") {
      assert MapToks(f, ts)[1..] == MapToks(f, ts[1..]);
      BacksMap(f, Back(cmd), ts[1..]);
    }
  }

  lemma {:induction false} LineMap<W, V>(f: W -> V, ts: seq<Tok<W>>)
    ensures MapParsed(f, ParseLine(ts)) == ParseLine(MapToks(f, ts))
    decreases |ts|, 3
  {
    hide ParsePipe, ParseBacks;
    PipeMap(f, ts);
    var p := ParsePipe(ts);
    if p.Ok? {
      BacksMap(f, p.cmd, p.rest);
      var r := ParseBacks(p.cmd, p.rest);
      if Peek(r.rest, ";") {
        assert MapToks(f, r.rest)[1..] == MapToks(f, r.rest[1..]);
        LineMap(f, r.rest[1..]);
      }
    }
  }

  lemma ParseMap<W, V>(f: W -> V, ts: seq<Tok<W>>)
    ensures MapParsed(f, ParseAll(ts)) == ParseAll(MapToks(f, ts))
  {
    LineMap(f, ts);
  }
}
