/**
 The pattern matcher of grep, against what its patterns mean. Patterns and texts are C
 strings, so they hold no NUL; reading past the end gives the terminator.
 */
module Grep {

  /** A pattern element: one character, any number of one character, or the end of the text. A '.' stands for any character. */
  datatype Item = One(c: char) | Star(c: char) | End

  predicate Fits(c: char, x: char) {
    c == '.' || c == x
  }

  /** How the source reads a pattern: '*' binds to what precedes it, '$' is special only as the last character. */
  function Parse(re: string): (items: seq<Item>)
    ensures forall i :: 0 <= i < |items| - 1 ==> items[i] != End
  {
    if re == "" then []
    else if |re| >= 2 && re[1] == '*' then [Star(re[0])] + Parse(re[2..])
    else if re == "$" then [End]
    else [One(re[0])] + Parse(re[1..])
  }

  /** A pattern written out. */
  function Written(items: seq<Item>): string {
    if items == [] then ""
    else
      (match items[0]
       case One(c) => [c]
       case Star(c) => [c, '*']
       case End => "$") + Written(items[1..])
  }

  /** Each item can be told from what follows it: no single character before a '*', no single '$' and nothing else at the end. */
  predicate Legible(items: seq<Item>) {
    items == [] ||
    (Legible(items[1..]) &&
     match items[0]
     case One(c) => (Written(items[1..]) != "" ==> Written(items[1..])[0] != '*') && !(c == '$' && items[1..] == [])
     case Star(_) => true
     case End => items[1..] == [])
  }

  /** Every pattern is read as the items it is written with, and these as themselves exactly when they are legible. */
  lemma {:induction false} ReadsAsWritten(re: string)
    ensures Written(Parse(re)) == re && Legible(Parse(re))
  {
    if re != "" {
      if |re| >= 2 && re[1] == '*' {
        ReadsAsWritten(re[2..]);
        assert re == [re[0], '*'] + re[2..] && Parse(re)[1..] == Parse(re[2..]);
      } else if re == "$" {
        assert Parse(re)[1..] == [];
      } else {
        ReadsAsWritten(re[1..]);
        assert re == [re[0]] + re[1..] && Parse(re)[1..] == Parse(re[1..]);
      }
    }
  }

  lemma {:induction false} WrittenReads(items: seq<Item>)
    ensures Parse(Written(items)) == items <==> Legible(items)
    decreases |items|
  {
    if Parse(Written(items)) == items { ReadsAsWritten(Written(items)); }
    if Legible(items) && items != [] {
      WrittenReads(items[1..]);
      var w := Written(items[1..]);
      match items[0]
      case One(c) => assert ([c] + w)[1..] == w && (w == "" ==> items[1..] == []) by { if items[1..] != [] { assert w != ""; } }
      case Star(c) => assert ([c, '*'] + w)[2..] == w;
      case End => assert w == "";
    }
  }

  /** The words a pattern stands for, item by item. */
  ghost predicate Word(items: seq<Item>, w: string)
    decreases |items|
  {
    if items == [] then w == ""
    else
      match items[0]
      case One(c) => w != "" && Fits(c, w[0]) && Word(items[1..], w[1..])
      case Star(c) => exists k :: 0 <= k <= |w| && AllFit(c, w[..k]) && Word(items[1..], w[k..])
      case End => Word(items[1..], w)
  }

  ghost predicate AllFit(c: char, w: string) {
    forall i :: 0 <= i < |w| ==> Fits(c, w[i])
  }

  ghost predicate ToTheEnd(items: seq<Item>) {
    items != [] && items[|items| - 1] == End
  }

  /** Some word of the pattern starts the text, and is all of it if the pattern ends in '$'. */
  ghost predicate StartsWith(items: seq<Item>, text: string) {
    exists n :: 0 <= n <= |text| && Word(items, text[..n]) && (ToTheEnd(items) ==> n == |text|)
  }

  /** The meaning of a whole pattern: anchored at the start by '^', otherwise anywhere. */
  ghost predicate Means(re: string, text: string) {
    if re != "" && re[0] == '^' then StartsWith(Parse(re[1..]), text)
    else exists i :: 0 <= i <= |text| && StartsWith(Parse(re), text[i..])
  }

  // ----- how the meaning unfolds -----

  lemma StartsNothing(text: string)
    ensures StartsWith([], text)
  {
    assert Word([], text[..0]);
  }

  lemma StartsEnd(text: string)
    ensures StartsWith([End], text) <==> text == ""
  {
    if text == "" {
      assert Word([], text[..0]) && Word([End], text[..0]);
    }
    if StartsWith([End], text) {
      var n :| 0 <= n <= |text| && Word([End], text[..n]) && n == |text|;
      assert Word([], text[..n]);
    }
  }

  lemma StartsOne(c: char, rest: seq<Item>, text: string)
    ensures StartsWith([One(c)] + rest, text) <==> text != "" && Fits(c, text[0]) && StartsWith(rest, text[1..])
  {
    var items := [One(c)] + rest;
    assert items[1..] == rest;
    assert ToTheEnd(items) <==> ToTheEnd(rest);
    if StartsWith(items, text) {
      var n :| 0 <= n <= |text| && Word(items, text[..n]) && (ToTheEnd(items) ==> n == |text|);
      assert text[..n][1..] == text[1..][..n - 1];
    }
    if text != "" && Fits(c, text[0]) && StartsWith(rest, text[1..]) {
      var n :| 0 <= n <= |text[1..]| && Word(rest, text[1..][..n]) && (ToTheEnd(rest) ==> n == |text[1..]|);
      assert text[..n + 1][1..] == text[1..][..n];
      assert Word(items, text[..n + 1]);
    }
  }

  lemma StartsStar(c: char, rest: seq<Item>, text: string)
    ensures StartsWith([Star(c)] + rest, text) <==>
            StartsWith(rest, text) || (text != "" && Fits(c, text[0]) && StartsWith([Star(c)] + rest, text[1..]))
  {
    var items := [Star(c)] + rest;
    assert items[1..] == rest;
    StarNone(c, rest, text);
    if text != "" && Fits(c, text[0]) { StarMore(c, rest, text); }
    if StartsWith(items, text) {
      var n :| 0 <= n <= |text| && Word(items, text[..n]) && (ToTheEnd(items) ==> n == |text|);
      var w := text[..n];
      var k :| 0 <= k <= |w| && AllFit(c, w[..k]) && Word(rest, w[k..]);
      if k == 0 {
        assert w[0..] == w;
        if rest == [] { StartsNothing(text); } else { assert ToTheEnd(rest) ==> ToTheEnd(items); }
      } else {
        assert w[..k][0] == text[0];
        var v := text[1..][..n - 1];
        assert v == w[1..];
        TailCut(w, k);
        assert AllFit(c, v[..k - 1]);
        assert Word(items, v);
      }
    }
  }

  lemma TailCut(w: string, k: nat)
    requires 1 <= k <= |w|
    ensures w[1..][..k - 1] == w[..k][1..] && w[1..][k - 1..] == w[k..]
  {
  }

  lemma StarNone(c: char, rest: seq<Item>, text: string)
    ensures StartsWith(rest, text) ==> StartsWith([Star(c)] + rest, text)
  {
    var items := [Star(c)] + rest;
    assert items[1..] == rest;
    if StartsWith(rest, text) {
      var n :| 0 <= n <= |text| && Word(rest, text[..n]) && (ToTheEnd(rest) ==> n == |text|);
      assert text[..n][0..] == text[..n] && AllFit(c, text[..n][..0]);
      assert Word(items, text[..n]);
      assert ToTheEnd(items) ==> ToTheEnd(rest);
    }
  }

  lemma StarMore(c: char, rest: seq<Item>, text: string)
    requires text != "" && Fits(c, text[0])
    ensures StartsWith([Star(c)] + rest, text[1..]) ==> StartsWith([Star(c)] + rest, text)
  {
    var items := [Star(c)] + rest;
    assert items[1..] == rest;
    if StartsWith(items, text[1..]) {
      var n :| 0 <= n <= |text[1..]| && Word(items, text[1..][..n]) && (ToTheEnd(items) ==> n == |text[1..]|);
      var w := text[1..][..n];
      var k :| 0 <= k <= |w| && AllFit(c, w[..k]) && Word(rest, w[k..]);
      var v := text[..n + 1];
      assert v[1..] == w && v[..k + 1] == [text[0]] + w[..k] && v[k + 1..] == w[k..];
      assert AllFit(c, v[..k + 1]);
      assert Word(items, v);
    }
  }

  // ----- what some patterns come to -----

  /** A character with no meaning of its own. */
  predicate Ordinary(c: char) {
    c !in ".*$^"
  }

  predicate StandsAt(text: string, i: nat, word: string) {
    i + |word| <= |text| && text[i..i + |word|] == word
  }

  lemma {:induction false} PlainStarts(re: string, text: string)
    requires forall i :: 0 <= i < |re| ==> Ordinary(re[i])
    ensures StartsWith(Parse(re), text) <==> |re| <= |text| && text[..|re|] == re
    decreases |re|
  {
    if re == "" {
      StartsNothing(text);
    } else {
      assert Parse(re) == [One(re[0])] + Parse(re[1..]) by { assert re[0] != '$' && (|re| >= 2 ==> re[1] != '*'); }
      StartsOne(re[0], Parse(re[1..]), text);
      if text != "" {
        PlainStarts(re[1..], text[1..]);
        assert |re| <= |text| ==> text[..|re|] == [text[0]] + text[1..][..|re| - 1];
        assert re == [re[0]] + re[1..];
      }
    }
  }

  /** Without special characters, matching is finding the pattern in the text. */
  lemma PlainMeans(re: string, text: string)
    requires forall i :: 0 <= i < |re| ==> Ordinary(re[i])
    ensures Means(re, text) <==> exists i: nat :: StandsAt(text, i, re)
  {
    forall i | 0 <= i <= |text| ensures StartsWith(Parse(re), text[i..]) <==> StandsAt(text, i, re) {
      PlainStarts(re, text[i..]);
      assert i + |re| <= |text| ==> text[i..][..|re|] == text[i..i + |re|];
    }
    if exists i: nat :: StandsAt(text, i, re) {
      var i: nat :| StandsAt(text, i, re);
      assert StartsWith(Parse(re), text[i..]);
    }
  }

  /** '.' is any character; c* between anchors is a text of that character alone, and .* any text. */
  lemma SpecialMeans(c: char, text: string)
    requires Ordinary(c)
    ensures Means(".", text) <==> text != ""
    ensures Means(['^', c, '*', '$'], text) <==> forall i :: 0 <= i < |text| ==> text[i] == c
    ensures Means("^.*$", text)
  {
    if text != "" {
      StartsOne('.', [], text);
      StartsNothing(text[1..]);
      assert Parse(".") == [One('.')] + [] && text[0..] == text;
    }
    if Means(".", text) {
      var i :| 0 <= i <= |text| && StartsWith(Parse("."), text[i..]);
      StartsOne('.', [], text[i..]);
      assert Parse(".") == [One('.')] + [];
    }
    StarToEnd(c, text);
    StarToEnd('.', text);
    assert ['^', c, '*', '$'][1..] == [c, '*', '$'] && "^.*$"[1..] == ['.', '*', '$'];
  }

  lemma {:induction false} StarToEnd(c: char, text: string)
    ensures StartsWith(Parse([c, '*', '$']), text) <==> forall i :: 0 <= i < |text| ==> c == '.' || text[i] == c
    decreases |text|
  {
    assert [c, '*', '$'][2..] == "$" && Parse([c, '*', '$']) == [Star(c)] + [End];
    StartsStar(c, [End], text);
    StartsEnd(text);
    if text != "" { StarToEnd(c, text[1..]); }
  }

  // ----- the matcher -----

  /** matchhere: does re match at the beginning of text? */
  method MatchHere(re: string, text: string) returns (r: bool)
    ensures r == StartsWith(Parse(re), text)
    decreases |re|, 0
  {
    if re == "" {
      StartsNothing(text);
      return true;
    }
    if |re| >= 2 && re[1] == '*' {
      r := MatchStar(re[0], re[2..], text);
      return;
    }
    if re == "$" {
      StartsEnd(text);
      return text == "";
    }
    StartsOne(re[0], Parse(re[1..]), text);
    if text != "" && (re[0] == '.' || re[0] == text[0]) {
      r := MatchHere(re[1..], text[1..]);
      return;
    }
    return false;
  }

  /** matchstar: does c*re match at the beginning of text? */
  method MatchStar(c: char, re: string, text: string) returns (r: bool)
    ensures r == StartsWith([Star(c)] + Parse(re), text)
    decreases |re|, 1
  {
    var t := text;
    while true
      invariant StartsWith([Star(c)] + Parse(re), text) == StartsWith([Star(c)] + Parse(re), t)
      decreases |t|
    {
      StartsStar(c, Parse(re), t);
      var here := MatchHere(re, t);
      if here { return true; }
      if !(t != "" && (t[0] == c || c == '.')) { return false; }
      t := t[1..];
    }
  }

  /** match: sound and complete for every pattern and every text. */
  method Match(re: string, text: string) returns (r: bool)
    ensures r == Means(re, text)
  {
    if re != "" && re[0] == '^' {
      r := MatchHere(re[1..], text);
      return;
    }
    var i := 0;
    while true
      invariant 0 <= i <= |text|
      invariant forall j :: 0 <= j < i ==> !StartsWith(Parse(re), text[j..])
      decreases |text| - i
    {
      var here := MatchHere(re, text[i..]);
      if here { return true; }
      if i == |text| { return false; }
      i := i + 1;
    }
  }
}
