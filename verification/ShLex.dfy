/** Tokens and where they stand in the text, the printer's text, and the strings that are left when a NUL is put after each word. */
module ShLex {
  import opened ShSyntax
  import opened ShGrammar

  const WHITESPACE := " \t\r\n\U{000B}"
  const SYMBOLS := "<|>&;()"

  datatype Span = Span(lo: nat, hi: nat)

  predicate White(c: char) { c in WHITESPACE }

  predicate Symbol(c: char) { c in SYMBOLS }

  predicate Plain(c: char) { !White(c) && !Symbol(c) }

  function Skip(s: string, p: nat): (r: nat)
    requires p <= |s|
    ensures p <= r <= |s|
    ensures r < |s| ==> !White(s[r])
    decreases |s| - p
  {
    if p < |s| && White(s[p]) then Skip(s, p + 1) else p
  }

  function WordEnd(s: string, p: nat): (r: nat)
    requires p <= |s|
    ensures p <= r <= |s|
    ensures forall i :: p <= i < r ==> Plain(s[i])
    ensures r < |s| ==> !Plain(s[r])
    decreases |s| - p
  {
    if p < |s| && Plain(s[p]) then WordEnd(s, p + 1) else p
  }

  function Next(s: string, p: nat): Tok<Span>
    requires p < |s| && !White(s[p])
  {
    if s[p] == '>' && p + 1 < |s| && s[p + 1] == '>' then Append
    else if Symbol(s[p]) then Sym(s[p])
    else Word(Span(p, WordEnd(s, p)))
  }

  function End(s: string, p: nat): (r: nat)
    requires p < |s| && !White(s[p])
    ensures p < r <= |s|
  {
    match Next(s, p)
    case Sym(_) => p + 1
    case Append => p + 2
    case Word(w) => assert Plain(s[p]); w.hi
  }

  function Lex(s: string, p: nat): seq<Tok<Span>>
    requires p <= |s|
    decreases |s| - p
  {
    var q := Skip(s, p);
    if q == |s| then [] else [Next(s, q)] + Lex(s, End(s, q))
  }

  function Str(s: string, x: Span): string {
    if x.lo <= x.hi <= |s| then s[x.lo..x.hi] else ""
  }

  function Texts(s: string): Span -> string {
    x => Str(s, x)
  }

  /** What a line of text means: its tokens by what they say, parsed. */
  function Meaning(s: string): Parsed<string> {
    ParseAll(MapToks(Texts(s), Lex(s, 0)))
  }

  // ----- the printer's text -----

  function Show(t: Tok<string>): string {
    match t
    case Sym(c) => [c]
    case Append => ">>"
    case Word(w) => w
  }

  function Render(ts: seq<Tok<string>>): string {
    if ts == [] then "" else Show(ts[0]) + " " + Render(ts[1..])
  }

  predicate WordOk(w: string) {
    w != "" && forall i :: 0 <= i < |w| ==> Plain(w[i])
  }

  predicate TokOk(t: Tok<string>) {
    match t
    case Sym(c) => Symbol(c)
    case Append => true
    case Word(w) => WordOk(w)
  }

  predicate AllWhite(s: string) {
    forall i :: 0 <= i < |s| ==> White(s[i])
  }

  /** t can stand before this text: a word does not run on, and > is not half of >>. */
  predicate Parts(t: Tok<string>, after: string) {
    after != "" ==>
      match t
      case Word(_) => !Plain(after[0])
      case Sym(c) => c == '>' ==> after[0] != '>'
      case Append => true
  }

  /** The text consists of these tokens with white space before, between and after them, as much as it takes to part them. */
  ghost predicate Spells(s: string, ts: seq<Tok<string>>)
    decreases |ts|
  {
    if ts == [] then AllWhite(s)
    else exists i: nat :: Leads(s, i, ts[0]) && Spells(s[i + |Show(ts[0])|..], ts[1..])
  }

  ghost predicate Leads(s: string, i: nat, t: Tok<string>) {
    && TokOk(t) && i + |Show(t)| <= |s| && AllWhite(s[..i])
    && s[i..i + |Show(t)|] == Show(t) && Parts(t, s[i + |Show(t)|..])
  }

  lemma {:induction false} WordEndsAt(s: string, p: nat, q: nat)
    requires p <= q <= |s| && (q < |s| ==> !Plain(s[q]))
    requires forall i :: p <= i < q ==> Plain(s[i])
    ensures WordEnd(s, p) == q
    decreases q - p
  {
    if p < q { WordEndsAt(s, p + 1, q); }
  }

  /** A token that stands at p is the one that is read there. */
  lemma {:induction false} ShownIsNext(s: string, p: nat, t: Tok<string>)
    requires TokOk(t) && p + |Show(t)| <= |s|
    requires s[p..p + |Show(t)|] == Show(t) && Parts(t, s[p + |Show(t)|..])
    ensures p < |s| && !White(s[p]) && End(s, p) == p + |Show(t)|
    ensures MapTok(Texts(s), Next(s, p)) == t
  {
    var n := |Show(t)|;
    assert s[p] == s[p..p + n][0];
    assert p + n < |s| ==> s[p + n..][0] == s[p + n];
    if t.Word? {
      assert forall i :: p <= i < p + n ==> Plain(s[i]) by {
        assert forall i :: p <= i < p + n ==> s[i] == s[p..p + n][i - p];
      }
      WordEndsAt(s, p, p + n);
    } else if t.Append? {
      assert s[p + 1] == s[p..p + n][1];
    }
  }

  /** And what is read there stands there. */
  lemma NextIsShown(s: string, p: nat)
    requires p < |s| && !White(s[p])
    ensures var t := MapTok(Texts(s), Next(s, p));
            TokOk(t) && Show(t) == s[p..End(s, p)] && Parts(t, s[End(s, p)..])
  {
    var e := End(s, p);
    assert e < |s| ==> s[e..][0] == s[e];
    match Next(s, p)
    case Word(w) =>
      assert forall i :: 0 <= i < |s[p..e]| ==> s[p..e][i] == s[p + i];
    case Append =>
      assert s[p..e] == [s[p], s[p + 1]];
    case Sym(c) =>
      assert s[p..e] == [s[p]];
  }

  lemma {:induction false} SkipIs(s: string, p: nat, q: nat)
    requires p <= q <= |s| && (forall i :: p <= i < q ==> White(s[i])) && (q < |s| ==> !White(s[q]))
    ensures Skip(s, p) == q
    decreases q - p
  {
    if p < q { SkipIs(s, p + 1, q); }
  }

  lemma {:induction false} SkipWhite(s: string, p: nat)
    requires p <= |s|
    ensures forall i :: p <= i < Skip(s, p) ==> White(s[i])
    decreases |s| - p
  {
    if p < |s| && White(s[p]) { SkipWhite(s, p + 1); }
  }

  lemma LeadsAt(s: string, p: nat, i: nat, t: Tok<string>)
    requires p <= |s| && Leads(s[p..], i, t)
    ensures p + i < |s| && Skip(s, p) == p + i && End(s, p + i) == p + i + |Show(t)| && MapTok(Texts(s), Next(s, p + i)) == t
    ensures s[p..][i + |Show(t)|..] == s[p + i + |Show(t)|..]
  {
    var q, n := p + i, |Show(t)|;
    hide Show, TokOk, Texts, MapTok, Next, End, White;
    assert s[p..][i..i + n] == s[q..q + n] && s[p..][i + n..] == s[q + n..];
    ShownIsNext(s, q, t);
    forall k | p <= k < q ensures White(s[k]) { assert s[p..][..i][k - p] == s[k]; }
    SkipIs(s, p, q);
  }

  lemma NextLeads(s: string, p: nat)
    requires p <= |s| && Skip(s, p) < |s|
    ensures var q := Skip(s, p);
            var t := MapTok(Texts(s), Next(s, q));
            Leads(s[p..], q - p, t) && s[p..][q - p + |Show(t)|..] == s[End(s, q)..]
  {
    var q := Skip(s, p);
    var t := MapTok(Texts(s), Next(s, q));
    hide Show, TokOk, Texts, MapTok, Next, White;
    NextIsShown(s, q);
    SkipWhite(s, p);
    var i, n := q - p, |Show(t)|;
    assert s[p..][i..i + n] == s[q..q + n] && s[p..][i + n..] == s[q + n..];
    assert forall k :: 0 <= k < i ==> s[p..][..i][k] == s[p + k];
  }

  /** The lexer finds exactly the tokens the text consists of. */
  lemma {:induction false} LexIsSpelling(s: string, p: nat, ts: seq<Tok<string>>)
    requires p <= |s|
    ensures MapToks(Texts(s), Lex(s, p)) == ts <==> Spells(s[p..], ts)
    decreases |s| - p
  {
    hide Next, End, Texts, MapTok, MapToks, Show, White, Leads;
    var q := Skip(s, p);
    if q == |s| {
      NothingSpelled(s, p, ts);
    } else {
      NextLeads(s, p);
      var t := MapTok(Texts(s), Next(s, q));
      LexStep(s, p);
      var rest := MapToks(Texts(s), Lex(s, End(s, q)));
      LexIsSpelling(s, End(s, q), if ts == [] then [] else ts[1..]);
      if MapToks(Texts(s), Lex(s, p)) == ts {
        assert ts[0] == t && ts[1..] == rest;
        assert Leads(s[p..], q - p, ts[0]);
      }
      if Spells(s[p..], ts) { SpelledNext(s, p, ts); }
    }
  }

  lemma NothingSpelled(s: string, p: nat, ts: seq<Tok<string>>)
    requires p <= |s| && Skip(s, p) == |s|
    ensures MapToks(Texts(s), Lex(s, p)) == [] && (Spells(s[p..], ts) <==> ts == [])
  {
    hide Next, End, Texts, MapTok, Show, White, Parts, TokOk;
    SkipWhite(s, p);
    assert forall k :: 0 <= k < |s[p..]| ==> s[p..][k] == s[p + k];
    if ts != [] && Spells(s[p..], ts) {
      var i: nat :| Leads(s[p..], i, ts[0]) && Spells(s[p..][i + |Show(ts[0])|..], ts[1..]);
      LeadsAt(s, p, i, ts[0]);
    }
  }

  lemma LexStep(s: string, p: nat)
    requires p <= |s| && Skip(s, p) < |s|
    ensures var q := Skip(s, p);
            MapToks(Texts(s), Lex(s, p)) == [MapTok(Texts(s), Next(s, q))] + MapToks(Texts(s), Lex(s, End(s, q)))
  {
    hide Next, End, Texts, MapTok, MapToks;
    var q := Skip(s, p);
    MapCons(Texts(s), Next(s, q), Lex(s, End(s, q)));
  }

  lemma SpelledNext(s: string, p: nat, ts: seq<Tok<string>>)
    requires p <= |s| && Skip(s, p) < |s| && Spells(s[p..], ts)
    ensures var q := Skip(s, p);
            ts != [] && ts[0] == MapTok(Texts(s), Next(s, q)) && Spells(s[End(s, q)..], ts[1..])
  {
    hide Next, End, Texts, MapTok, Show, White, Parts, TokOk;
    var q := Skip(s, p);
    assert s[p..][q - p] == s[q];
    if ts != [] {
      var i: nat :| Leads(s[p..], i, ts[0]) && Spells(s[p..][i + |Show(ts[0])|..], ts[1..]);
      LeadsAt(s, p, i, ts[0]);
    }
  }

  /** A line's meaning, from the text alone: its tokens, and the tree they have in the grammar. */
  ghost predicate Means(s: string, c: Cmd<string>) {
    exists ts :: Spells(s, ts) && LineOf(ts, c)
  }

  lemma MeaningIs(s: string, c: Cmd<string>)
    ensures Meaning(s) == Ok(c, []) <==> Means(s, c)
  {
    hide ParseAll, Spells, LineOf;
    var ts := MapToks(Texts(s), Lex(s, 0));
    assert s[0..] == s;
    LexIsSpelling(s, 0, ts);
    ParserIsGrammar(ts, c);
    forall us | Spells(s, us) ensures us == ts { LexIsSpelling(s, 0, us); }
  }

  /** The printer's text is read back as the tokens it was made of. */
  lemma {:induction false} LexRender(s: string, p: nat, ts: seq<Tok<string>>)
    requires p <= |s| && s[p..] == Render(ts)
    requires forall t :: t in ts ==> TokOk(t)
    ensures MapToks(Texts(s), Lex(s, p)) == ts
    decreases |ts|
  {
    hide Next, End, Lex, Texts, MapTok, MapToks, Show, TokOk, White;
    if ts == [] {
      LexNothing(s, p);
    } else {
      var n := |Show(ts[0])|;
      CutText(s, p, Show(ts[0]), Render(ts[1..]));
      BeforeSpace(s, p + n, ts[0]);
      ShownIsNext(s, p, ts[0]);
      LexRender(s, p + n + 1, ts[1..]);
      SpaceSkipped(s, p + n);
      LexFirst(s, p, ts[0], ts[1..]);
    }
  }

  lemma BeforeSpace(s: string, p: nat, t: Tok<string>)
    requires p < |s| && s[p] == ' '
    ensures Parts(t, s[p..])
  {
    assert s[p..][0] == ' ';
  }

  lemma LexNothing(s: string, p: nat)
    requires p == |s|
    ensures MapToks(Texts(s), Lex(s, p)) == []
  {
  }

  lemma CutText(s: string, p: nat, a: string, b: string)
    requires p <= |s| && s[p..] == a + " " + b
    ensures p + |a| < |s| && s[p..p + |a|] == a && s[p + |a|] == ' ' && s[p + |a| + 1..] == b
  {
    assert s[p..p + |a|] == s[p..][..|a|];
    assert s[p + |a|] == s[p..][|a|];
    assert s[p + |a| + 1..] == s[p..][|a| + 1..];
  }

  lemma LexFirst(s: string, p: nat, t: Tok<string>, ts: seq<Tok<string>>)
    requires p < |s| && !White(s[p]) && MapTok(Texts(s), Next(s, p)) == t
    requires MapToks(Texts(s), Lex(s, End(s, p))) == ts
    ensures MapToks(Texts(s), Lex(s, p)) == [t] + ts
  {
    hide Next, End, Texts, MapTok, MapToks;
    assert Lex(s, p) == [Next(s, p)] + Lex(s, End(s, p)) by { assert Skip(s, p) == p; }
    MapCons(Texts(s), Next(s, p), Lex(s, End(s, p)));
  }

  lemma SpaceSkipped(s: string, p: nat)
    requires p < |s| && s[p] == ' '
    ensures Lex(s, p) == Lex(s, p + 1)
  {
    assert Skip(s, p) == Skip(s, p + 1);
  }

  predicate WordsOk(c: Cmd<string>) {
    match c
    case Exec(argv) => forall w :: w in argv ==> WordOk(w)
    case Redir(d, f, _, _) => WordsOk(d) && WordOk(f)
    case Pipe(l, r) => WordsOk(l) && WordsOk(r)
    case List(l, r) => WordsOk(l) && WordsOk(r)
    case Back(d) => WordsOk(d)
  }

  lemma {:induction false} WordsTokOk(argv: seq<string>)
    requires forall w :: w in argv ==> WordOk(w)
    ensures forall t :: t in Words(argv) ==> TokOk(t)
  {
    if argv != [] { WordsTokOk(argv[1..]); }
  }

  lemma {:induction false} ToksOk(c: Cmd<string>)
    requires WordsOk(c)
    ensures forall t :: t in Toks(c) ==> TokOk(t)
  {
    match c
    case Exec(argv) => WordsTokOk(argv);
    case Redir(d, _, _, _) => ToksOk(d);
    case Pipe(l, r) => ToksOk(l); ToksOk(r);
    case List(l, r) => ToksOk(l); ToksOk(r);
    case Back(d) => ToksOk(d);
  }

  /** Printing a command and reading the text gives the command back. */
  lemma PrintedMeaning(c: Cmd<string>)
    requires WordsOk(c)
    ensures Meaning(Render(Toks(c))) == Ok(c, []) <==> TreeOk(c)
  {
    var s := Render(Toks(c));
    ToksOk(c);
    assert s[0..] == s;
    LexRender(s, 0, Toks(c));
    ParserUndoesPrinter(c);
  }

  /** The tree of places the parser builds says what the text means. */
  lemma PlacesMeanTexts(s: string)
    ensures MapParsed(Texts(s), ParseAll(Lex(s, 0))) == Meaning(s)
  {
    ParseMap(Texts(s), Lex(s, 0));
  }

  // ----- NUL after every word -----

  /** A word of s that cannot be made longer. */
  ghost predicate WordSpan(s: string, x: Span) {
    x.lo < x.hi <= |s| && (forall i :: x.lo <= i < x.hi ==> Plain(s[i])) && (x.hi < |s| ==> !Plain(s[x.hi]))
  }

  lemma {:induction false} LexWords(s: string, p: nat)
    requires p <= |s|
    ensures forall x :: x in WordsOf(Lex(s, p)) ==> WordSpan(s, x)
    decreases |s| - p
  {
    var q := Skip(s, p);
    if q < |s| {
      LexWords(s, End(s, q));
      assert Lex(s, p)[1..] == Lex(s, End(s, q));
    }
  }

  /** The places right after a command's words. */
  function Ends(c: Cmd<Span>): set<nat> {
    match c
    case Exec(argv) => set i | 0 <= i < |argv| :: argv[i].hi
    case Redir(d, f, _, _) => Ends(d) + {f.hi}
    case Pipe(l, r) => Ends(l) + Ends(r)
    case List(l, r) => Ends(l) + Ends(r)
    case Back(d) => Ends(d)
  }

  /** e is right after one of the words in ws. */
  ghost predicate EndOf(e: nat, ws: multiset<Span>) {
    exists x :: x in ws && x.hi == e
  }

  lemma ExecEnds(argv: seq<Span>)
    ensures forall x :: x in multiset(argv) ==> x.hi in Ends(Exec(argv))
    ensures forall e :: e in Ends(Exec(argv)) ==> EndOf(e, multiset(argv))
  {
    forall e | e in Ends(Exec(argv)) ensures EndOf(e, multiset(argv)) {
      var i :| 0 <= i < |argv| && argv[i].hi == e;
      assert argv[i] in multiset(argv);
    }
    forall x | x in multiset(argv) ensures x.hi in Ends(Exec(argv)) {
      assert x in argv;
    }
  }

  lemma EndOfSum(e: nat, a: multiset<Span>, b: multiset<Span>)
    ensures EndOf(e, a + b) <==> EndOf(e, a) || EndOf(e, b)
  {
    if EndOf(e, a) { var x :| x in a && x.hi == e; assert x in a + b; }
    if EndOf(e, b) { var x :| x in b && x.hi == e; assert x in a + b; }
  }

  lemma RightAfter(x: Span)
    ensures EndOf(x.hi, multiset{x})
  {
    assert x in multiset{x};
  }

  lemma {:induction false} EndsAreEnds(c: Cmd<Span>)
    ensures forall x :: x in Leaves(c) ==> x.hi in Ends(c)
    ensures forall e :: e in Ends(c) ==> EndOf(e, Leaves(c))
  {
    hide EndOf;
    match c
    case Exec(argv) => ExecEnds(argv);
    case Redir(d, f, _, _) =>
      EndsAreEnds(d);
      forall e | e in Ends(c) ensures EndOf(e, Leaves(c)) { RightAfter(f); EndOfSum(e, Leaves(d), multiset{f}); }
    case Pipe(l, r) =>
      EndsAreEnds(l);
      EndsAreEnds(r);
      forall e | e in Ends(c) ensures EndOf(e, Leaves(c)) { EndOfSum(e, Leaves(l), Leaves(r)); }
    case List(l, r) =>
      EndsAreEnds(l);
      EndsAreEnds(r);
      forall e | e in Ends(c) ensures EndOf(e, Leaves(c)) { EndOfSum(e, Leaves(l), Leaves(r)); }
    case Back(d) => EndsAreEnds(d);
  }

  /** The C string that starts at p. */
  function CString(b: seq<char>, p: nat): string
    decreases |b| - p
  {
    if p < |b| && b[p] != '\0' then [b[p]] + CString(b, p + 1) else ""
  }

  function CStrings(b: seq<char>): Span -> string {
    (x: Span) => CString(b, x.lo)
  }

  lemma {:induction false} CStringIs(b: seq<char>, lo: nat, hi: nat)
    requires lo <= hi < |b| && b[hi] == '\0'
    requires forall i :: lo <= i < hi ==> b[i] != '\0'
    ensures CString(b, lo) == b[lo..hi]
    decreases hi - lo
  {
    if lo < hi {
      CStringIs(b, lo + 1, hi);
      assert b[lo..hi] == [b[lo]] + b[lo + 1..hi];
    }
  }

  /** b is the text with a NUL written at each of the given places, and one at its end. */
  ghost predicate Terminated(b: seq<char>, s: string, ends: set<nat>) {
    |b| > |s| && b[|s|] == '\0' && forall i :: 0 <= i < |s| ==> b[i] == if i in ends then '\0' else s[i]
  }

  lemma {:induction false} TokenIsCString(b: seq<char>, s: string, c: Cmd<Span>, x: Span)
    requires '\0' !in s && Terminated(b, s, Ends(c))
    requires forall y :: y in Leaves(c) ==> WordSpan(s, y)
    requires x in Leaves(c)
    ensures CString(b, x.lo) == Str(s, x)
  {
    EndsAreEnds(c);
    assert WordSpan(s, x);
    forall i | x.lo <= i < x.hi ensures b[i] == s[i] && b[i] != '\0' {
      assert !EndOf(i, Leaves(c));
    }
    CStringIs(b, x.lo, x.hi);
    assert b[x.lo..x.hi] == s[x.lo..x.hi];
  }

  /** After nulterminate every string of the tree reads as exactly its token. */
  lemma TokensAreCStrings(b: seq<char>, s: string)
    requires ParseAll(Lex(s, 0)).Ok?
    requires '\0' !in s && Terminated(b, s, Ends(ParseAll(Lex(s, 0)).cmd))
    ensures Meaning(s) == Ok(MapCmd(CStrings(b), ParseAll(Lex(s, 0)).cmd), [])
  {
    hide ParseAll, Lex;
    var c := ParseAll(Lex(s, 0)).cmd;
    EveryWordPlacedOnce(Lex(s, 0));
    LexWords(s, 0);
    forall x | x in Leaves(c) ensures CStrings(b)(x) == Texts(s)(x) {
      TokenIsCString(b, s, c, x);
    }
    MapSame(CStrings(b), Texts(s), c);
    PlacesMeanTexts(s);
    AllRead(s);
  }

  lemma AllRead(s: string)
    ensures Meaning(s).Ok? ==> Meaning(s).rest == []
  {
  }
}
