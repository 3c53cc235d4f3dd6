// sh.c: what the tokens of a line are, without saying how they are found.

module ShellTokens {
  import opened ShellGrammar

  // A word, one of the symbols, or ">>".
  datatype Tok = Word(text: string) | Sym(c: char) | Append

  ghost predicate White(s: Line, i: nat, j: nat) {
    j <= |s| && forall k | i <= k < j :: IsWhite(s[k])
  }

  // s[q..e] is this token: words are as long as they can be, and so is ">>".
  ghost predicate Stands(s: Line, q: nat, e: nat, tok: Tok) {
    q < e <= |s| &&
    match tok
    case Word(text) => IsWord(s, Span(q, e)) && text == s[q..e]
    case Sym(c) => e == q + 1 && s[q] == c && c in SYMBOLS && (c == '>' ==> At(s, e) != '>')
    case Append => e == q + 2 && s[q] == '>' && s[q + 1] == '>'
  }

  // From position i on the line holds these tokens, with white space around them.
  ghost predicate Lexes(s: Line, i: nat, toks: seq<Tok>)
    decreases |toks|
  {
    if toks == [] then White(s, i, |s|)
    else exists q: nat, e: nat :: i <= q && Stands(s, q, e, toks[0]) && White(s, i, q) && Lexes(s, e, toks[1..])
  }

  // ---------------------------------------------------------------- the parser's tokens are these

  function TokOf(s: Line, t: Token): Tok
    requires t.q <= t.eq <= |s|
  {
    if t.kind == 'a' then Word(s[t.q..t.eq]) else if t.kind == '+' then Append else Sym(t.kind)
  }

  function Toks(s: Line, i: nat): seq<Tok>
    requires i <= |s|
    decreases |s| - i
  {
    var t := TokenAt(s, i);
    if t.kind == '\0' then [] else [TokOf(s, t)] + Toks(s, t.next)
  }

  lemma {:induction false} SkipsWhite(s: Line, i: nat)
    requires i <= |s|
    ensures White(s, i, Skip(s, i))
    decreases |s| - i
  {
    if i < |s| && IsWhite(s[i]) { SkipsWhite(s, i + 1); }
  }

  lemma {:induction false} SkipIs(s: Line, i: nat, q: nat)
    requires i <= q <= |s| && White(s, i, q) && !IsWhite(At(s, q))
    ensures Skip(s, i) == q
    decreases q - i
  {
    if i < q { SkipIs(s, i + 1, q); }
  }

  lemma {:induction false} WordEndIs(s: Line, q: nat, e: nat)
    requires q <= e <= |s| && (forall k | q <= k < e :: IsWordChar(s[k])) && !IsWordChar(At(s, e))
    ensures WordEnd(s, q) == e
    decreases e - q
  {
    if q < e { WordEndIs(s, q + 1, e); }
  }

  lemma ToksSkip(s: Line, i: nat)
    requires i <= |s|
    ensures Toks(s, Skip(s, i)) == Toks(s, i)
  {
    assert TokenAt(s, Skip(s, i)) == TokenAt(s, i);
  }

  lemma TokenStands(s: Line, i: nat)
    requires i <= |s| && TokenAt(s, i).kind != '\0'
    ensures var t := TokenAt(s, i);
      White(s, i, t.q) && Stands(s, t.q, t.eq, TokOf(s, t)) && t.next == Skip(s, t.eq)
  {
    SkipsWhite(s, i);
    if TokenAt(s, i).kind == 'a' { TokenIsWord(s, i); }
  }

  lemma StandsIsToken(s: Line, i: nat, q: nat, e: nat, tok: Tok)
    requires i <= q && Stands(s, q, e, tok) && White(s, i, q)
    ensures TokenAt(s, i).kind != '\0' && TokOf(s, TokenAt(s, i)) == tok && TokenAt(s, i).next == Skip(s, e)
  {
    SkipIs(s, i, q);
    if tok.Word? { WordEndIs(s, q, e); }
  }

  lemma ToksFrom(s: Line, i: nat, q: nat, e: nat, tok: Tok)
    requires i <= q && Stands(s, q, e, tok) && White(s, i, q)
    ensures Toks(s, i) == [tok] + Toks(s, e)
  {
    StandsIsToken(s, i, q, e, tok);
    ToksSkip(s, e);
  }

  // A line has exactly the tokens that the parser finds one after the other.
  lemma {:induction false} LexesExactly(s: Line, i: nat, toks: seq<Tok>)
    requires i <= |s|
    ensures Lexes(s, i, toks) <==> toks == Toks(s, i)
    decreases |toks|
  {
    if Lexes(s, i, toks) { LexesOnly(s, i, toks); }
    if toks == Toks(s, i) { LexesSome(s, i); }
  }

  lemma {:induction false} LexesOnly(s: Line, i: nat, toks: seq<Tok>)
    requires i <= |s| && Lexes(s, i, toks)
    ensures toks == Toks(s, i)
    decreases |toks|
  {
    if toks == [] {
      SkipIs(s, i, |s|);
    } else {
      var q: nat, e: nat :| i <= q && Stands(s, q, e, toks[0]) && White(s, i, q) && Lexes(s, e, toks[1..]);
      LexesOnly(s, e, toks[1..]);
      ToksFrom(s, i, q, e, toks[0]);
    }
  }

  lemma {:induction false} LexesSome(s: Line, i: nat)
    requires i <= |s|
    ensures Lexes(s, i, Toks(s, i))
    decreases |s| - i
  {
    var t := TokenAt(s, i);
    if t.kind == '\0' {
      SkipsWhite(s, i);
    } else {
      TokenStands(s, i);
      LexesSome(s, t.eq);
      ToksSkip(s, t.eq);
      assert Toks(s, i)[1..] == Toks(s, t.eq) && Toks(s, i)[0] == TokOf(s, t);
    }
  }

  // ---------------------------------------------------------------- looking at the next token

  function Lead(tok: Tok): char {
    match tok
    case Word(_) => '\0'
    case Sym(c) => c
    case Append => '>'
  }

  predicate Begins(toks: seq<Tok>, chars: string) {
    toks != [] && Lead(toks[0]) in chars
  }

  lemma PeekToks(s: Line, i: nat, chars: string)
    requires i <= |s| && forall c | c in chars :: c in SYMBOLS
    ensures Peek(s, i, chars) <==> Begins(Toks(s, i), chars)
  {
    assert '\0' !in SYMBOLS;
    if TokenAt(s, i).kind != '\0' { TokenStands(s, i); }
  }

  // The token at i, and those behind it.
  lemma NextTok(s: Line, i: nat, tok: Tok, more: seq<Tok>)
    requires i <= |s| && Toks(s, i) == [tok] + more
    ensures i < TokenAt(s, i).next <= |s| && TokOf(s, TokenAt(s, i)) == tok && Toks(s, TokenAt(s, i).next) == more
    ensures TokenAt(s, i).kind == match tok case Word(_) => 'a' case Sym(c) => c case Append => '+'
    ensures tok.Sym? ==> tok.c in SYMBOLS
  {
    assert ([tok] + more)[1..] == more;
    TokenStands(s, i);
  }

  lemma NoTok(s: Line, i: nat)
    requires i <= |s|
    ensures Toks(s, i) == [] <==> Skip(s, i) == |s|
    ensures Toks(s, i) == [] <==> TokenAt(s, i).kind == '\0'
  {
  }
}
