// Printing a command tree with every part in parentheses, and parsing it back.

module ShellRoundTrip {
  import opened ShellGrammar
  import opened ShellTokens
  import opened ShellForms
  import opened ShellExact

  predicate GoodWord(w: string) {
    |w| > 0 && forall k | 0 <= k < |w| :: IsWordChar(w[k])
  }

  predicate GoodTree(t: Tree) {
    match t
    case Run(words) => forall k | 0 <= k < |words| :: GoodWord(words[k])
    case To(sub, file, _) => GoodTree(sub) && GoodWord(file)
    case Piped(left, right) => GoodTree(left) && GoodTree(right)
    case Then(left, right) => GoodTree(left) && GoodTree(right)
    case Async(sub) => GoodTree(sub)
  }

  function PrintWords(words: seq<string>): string {
    if words == [] then ""
    else if |words| == 1 then words[0]
    else words[0] + (" " + PrintWords(words[1..]))
  }

  function Operator(output: bool): char {
    if output then '>' else '<'
  }

  function Print(t: Tree): string
    decreases t, 0
  {
    match t
    case Run(words) => PrintWords(words)
    case To(sub, file, output) => Block(sub) + ([Operator(output)] + file)
    case Piped(left, right) => Block(left) + ("|" + Block(right))
    case Then(left, right) => Block(left) + (";" + Block(right))
    case Async(sub) => Block(sub) + "&"
  }

  function Block(t: Tree): string
    decreases t, 1
  {
    "(" + (Print(t) + ")")
  }

  // ---------------------------------------------------------------- the tokens of a printing

  function WordToks(words: seq<string>): seq<Tok> {
    if words == [] then [] else [Word(words[0])] + WordToks(words[1..])
  }

  function PrintToks(t: Tree): seq<Tok>
    decreases t, 0
  {
    match t
    case Run(words) => WordToks(words)
    case To(sub, file, output) => BlockToks(sub, FileToks(file, output))
    case Piped(left, right) => BlockToks(left, []) + ([Sym('|')] + BlockToks(right, []))
    case Then(left, right) => BlockToks(left, []) + ([Sym(';')] + BlockToks(right, []))
    case Async(sub) => BlockToks(sub, []) + [Sym('&')]
  }

  function FileToks(file: string, output: bool): seq<Tok> {
    [Sym(Operator(output)), Word(file)]
  }

  function BlockToks(t: Tree, files: seq<Tok>): seq<Tok>
    decreases t, 1
  {
    [Sym('(')] + (PrintToks(t) + ([Sym(')')] + files))
  }

  lemma {:induction false} WordsArePlain(words: seq<string>)
    ensures IsPlain(WordToks(words)) && Args(WordToks(words)) == words && Files(WordToks(words)) == []
    decreases |words|
  {
    if words != [] { WordsArePlain(words[1..]); }
  }

  // The grammar makes t of them.
  lemma {:induction false} PrintForm(t: Tree)
    ensures LineForm(t, PrintToks(t))
    decreases t, 0
  {
    match t
    case Run(words) => RunForm(words);
    case To(sub, file, output) =>
      PrintForm(sub);
      OneFile(sub, file, output);
      BlockIs(sub, PrintToks(sub), FileToks(file, output));
    case Piped(left, right) =>
      BlockForms(left);
      BlockForms(right);
      PipedIs(left, BlockToks(left, []), right, BlockToks(right, []));
    case Then(left, right) =>
      BlockForms(left);
      BlockForms(right);
      ThenIs(left, BlockToks(left, []), right, BlockToks(right, []));
    case Async(sub) =>
      BlockForms(sub);
      BackIs(sub, BlockToks(sub, []));
  }

  lemma RunForm(words: seq<string>)
    ensures ExecForm(Run(words), WordToks(words))
  {
    WordsArePlain(words);
  }

  lemma {:induction false} BlockForms(t: Tree)
    ensures ExecForm(t, BlockToks(t, [])) && PipeForm(t, BlockToks(t, [])) && BacksForm(t, BlockToks(t, []))
    ensures LineForm(t, BlockToks(t, []))
    decreases t, 1
  {
    PrintForm(t);
    BlockIs(t, PrintToks(t), []);
  }

  lemma OneFile(sub: Tree, file: string, output: bool)
    ensures OnlyFiles(FileToks(file, output))
    ensures Redirected(sub, Files(FileToks(file, output))) == To(sub, file, output)
  {
    var toks := FileToks(file, output);
    assert toks[2..] == [];
    assert Files(toks) == [Target(file, output)];
  }

  // ---------------------------------------------------------------- reading them off the line

  function Height(t: Tree): nat {
    match t
    case Run(_) => 0
    case To(sub, _, _) => Height(sub) + 1
    case Piped(left, right) => Height(left) + Height(right) + 1
    case Then(left, right) => Height(left) + Height(right) + 1
    case Async(sub) => Height(sub) + 1
  }

  // p stands at position i of the line.
  ghost predicate Has(s: Line, i: nat, p: string) {
    i + |p| <= |s| && s[i..i + |p|] == p
  }

  lemma HasConcat(s: Line, i: nat, p: string, q: string)
    requires Has(s, i, p + q)
    ensures Has(s, i, p) && Has(s, i + |p|, q)
  {
    var text := s[i..i + |p + q|];
    assert s[i..i + |p|] == text[..|p|] && s[i + |p|..i + |p| + |q|] == text[|p|..];
  }

  lemma HasChar(s: Line, i: nat, c: char, q: string, m: nat)
    requires Has(s, i, [c] + q) && m == i + 1
    ensures i < |s| && s[i] == c && Has(s, m, q)
  {
    HasConcat(s, i, [c], q);
    assert s[i] == s[i..i + 1][0];
  }

  // From i up to j the line reads as these tokens.
  ghost predicate ReadAs(s: Line, i: nat, toks: seq<Tok>, j: nat) {
    i <= j <= |s| && Toks(s, i) == toks + Toks(s, j)
  }

  lemma Join(s: Line, i: nat, p: seq<Tok>, k: nat, q: seq<Tok>, j: nat)
    requires ReadAs(s, i, p, k) && ReadAs(s, k, q, j)
    ensures ReadAs(s, i, p + q, j)
  {
  }

  lemma SymToks(s: Line, i: nat, c: char, m: nat)
    requires i < |s| && s[i] == c && c in SYMBOLS && m == i + 1 && (c == '>' ==> At(s, m) != '>')
    ensures ReadAs(s, i, [Sym(c)], m)
  {
    ToksFrom(s, i, i, m, Sym(c));
  }

  lemma WordIsTok(s: Line, i: nat, w: string, e: nat)
    requires GoodWord(w) && Has(s, i, w) && e == i + |w| && !IsWordChar(At(s, e))
    ensures IsWordChar(s[i]) && ReadAs(s, i, [Word(w)], e)
  {
    forall k | i <= k < e ensures IsWordChar(s[k]) { assert s[k] == s[i..e][k - i]; }
    ToksFrom(s, i, i, e, Word(w));
  }

  lemma SpaceToks(s: Line, i: nat, m: nat)
    requires i < |s| && IsWhite(s[i]) && m == i + 1
    ensures ReadAs(s, i, [], m)
  {
    ToksSkip(s, i);
    ToksSkip(s, m);
  }

  // The first of some words, and where the others are.
  lemma FirstWord(s: Line, i: nat, words: seq<string>, j: nat) returns (next: nat)
    requires words != [] && GoodWord(words[0]) && Has(s, i, PrintWords(words))
    requires j == i + |PrintWords(words)| && !IsWordChar(At(s, j))
    ensures ReadAs(s, i, [Word(words[0])], next)
    ensures Has(s, next, PrintWords(words[1..])) && j == next + |PrintWords(words[1..])|
  {
    var e := i + |words[0]|;
    if |words| == 1 {
      next := e;
      WordIsTok(s, i, words[0], e);
    } else {
      var rest := PrintWords(words[1..]);
      HasConcat(s, i, words[0], " " + rest);
      next := e + 1;
      HasChar(s, e, ' ', rest, next);
      SpaceToks(s, e, next);
      WordIsTok(s, i, words[0], e);
      Join(s, i, [Word(words[0])], e, [], next);
      assert [Word(words[0])] + [] == [Word(words[0])];
    }
  }

  lemma {:induction false} WordsRead(s: Line, i: nat, words: seq<string>, j: nat)
    requires (forall k | 0 <= k < |words| :: GoodWord(words[k])) && Has(s, i, PrintWords(words))
    requires j == i + |PrintWords(words)| && !IsWordChar(At(s, j))
    ensures ReadAs(s, i, WordToks(words), j)
    decreases |words|
  {
    if words != [] {
      var next := FirstWord(s, i, words, j);
      WordsRead(s, next, words[1..], j);
      Join(s, i, [Word(words[0])], next, WordToks(words[1..]), j);
    }
  }

  lemma FileRead(s: Line, k: nat, file: string, output: bool, j: nat)
    requires GoodWord(file) && Has(s, k, [Operator(output)] + file)
    requires j == k + 1 + |file| && !IsWordChar(At(s, j))
    ensures ReadAs(s, k, FileToks(file, output), j)
  {
    var m := k + 1;
    HasChar(s, k, Operator(output), file, m);
    WordIsTok(s, m, file, j);
    SymToks(s, k, Operator(output), m);
    Join(s, k, [Sym(Operator(output))], m, [Word(file)], j);
    assert FileToks(file, output) == [Sym(Operator(output))] + [Word(file)];
  }

  // A symbol between two parts, and one at the end.
  lemma SymBetween(s: Line, i: nat, p: string, c: char, q: string) returns (k: nat, m: nat)
    requires c in "|;&)" && Has(s, i, p + ([c] + q))
    ensures k == i + |p| < |s| && m == k + 1 && Has(s, i, p) && s[k] == c && Has(s, m, q) && ReadAs(s, k, [Sym(c)], m)
  {
    HasConcat(s, i, p, [c] + q);
    k := i + |p|;
    m := k + 1;
    HasChar(s, k, c, q, m);
    SymToks(s, k, c, m);
  }

  lemma SymBehind(s: Line, i: nat, p: string, c: char, m: nat) returns (k: nat)
    requires c in "|;&)" && Has(s, i, p + [c]) && m == i + |p| + 1
    ensures k == i + |p| < |s| && Has(s, i, p) && s[k] == c && ReadAs(s, k, [Sym(c)], m)
  {
    HasConcat(s, i, p, [c]);
    k := i + |p|;
    assert [c] + "" == [c];
    HasChar(s, k, c, "", m);
    SymToks(s, k, c, m);
  }

  lemma JoinTwo(s: Line, i: nat, p: seq<Tok>, k: nat, c: char, m: nat, q: seq<Tok>, j: nat)
    requires ReadAs(s, i, p, k) && ReadAs(s, k, [Sym(c)], m) && ReadAs(s, m, q, j)
    ensures ReadAs(s, i, p + ([Sym(c)] + q), j)
  {
    Join(s, k, [Sym(c)], m, q, j);
    Join(s, i, p, k, [Sym(c)] + q, j);
  }

  // A printing, up to a character that is no part of a word, is read as its tokens.
  lemma {:induction false} PrintRead(s: Line, i: nat, t: Tree, j: nat)
    requires GoodTree(t) && Has(s, i, Print(t)) && j == i + |Print(t)| && !IsWordChar(At(s, j))
    ensures ReadAs(s, i, PrintToks(t), j)
    decreases Height(t), 0
  {
    match t
    case Run(words) => WordsRead(s, i, words, j);
    case To(sub, file, output) =>
      var k := i + |Block(sub)|;
      HasConcat(s, i, Block(sub), [Operator(output)] + file);
      FileRead(s, k, file, output, j);
      BlockRead(s, i, sub, FileToks(file, output), k, j);
    case Piped(left, right) => TwoRead(s, i, left, '|', right, j);
    case Then(left, right) => TwoRead(s, i, left, ';', right, j);
    case Async(sub) =>
      var k := SymBehind(s, i, Block(sub), '&', j);
      BlockAlone(s, i, sub, BlockToks(sub, []), k);
      Join(s, i, BlockToks(sub, []), k, [Sym('&')], j);
  }

  lemma {:induction false} TwoRead(s: Line, i: nat, left: Tree, c: char, right: Tree, j: nat)
    requires GoodTree(left) && GoodTree(right) && c in "|;"
    requires Has(s, i, Block(left) + ([c] + Block(right))) && j == i + |Block(left)| + 1 + |Block(right)|
    ensures ReadAs(s, i, BlockToks(left, []) + ([Sym(c)] + BlockToks(right, [])), j)
    decreases Height(left) + Height(right), 3
  {
    var p, q := BlockToks(left, []), BlockToks(right, []);
    var k, m := SymBetween(s, i, Block(left), c, Block(right));
    BlockAlone(s, i, left, p, k);
    BlockAlone(s, m, right, q, j);
    JoinTwo(s, i, p, k, c, m, q, j);
  }

  // A block with its redirections behind it.
  lemma {:induction false} BlockRead(s: Line, i: nat, t: Tree, files: seq<Tok>, k: nat, j: nat)
    requires GoodTree(t) && Has(s, i, Block(t)) && k == i + |Block(t)| && ReadAs(s, k, files, j)
    ensures ReadAs(s, i, BlockToks(t, files), j)
    decreases Height(t), 1
  {
    var m, tail := i + 1, PrintToks(t) + ([Sym(')')] + files);
    HasChar(s, i, '(', Print(t) + ")", m);
    var e := SymBehind(s, m, Print(t), ')', k);
    SymToks(s, i, '(', m);
    PrintRead(s, m, t, e);
    JoinTwo(s, m, PrintToks(t), e, ')', k, files, j);
    Join(s, i, [Sym('(')], m, tail, j);
  }

  lemma {:induction false} BlockAlone(s: Line, i: nat, t: Tree, toks: seq<Tok>, k: nat)
    requires GoodTree(t) && Has(s, i, Block(t)) && k == i + |Block(t)| && toks == BlockToks(t, [])
    ensures ReadAs(s, i, toks, k)
    decreases Height(t), 2
  {
    assert [] + Toks(s, k) == Toks(s, k);
    BlockRead(s, i, t, [], k, k);
  }

  // ---------------------------------------------------------------- main results

  predicate Clean(p: string) {
    forall i | 0 <= i < |p| :: p[i] != '\0'
  }

  lemma {:induction false} WordsClean(words: seq<string>)
    requires forall k | 0 <= k < |words| :: GoodWord(words[k])
    ensures Clean(PrintWords(words))
  {
    if words != [] {
      WordsClean(words[1..]);
      assert Clean(words[0]) && Clean(" ");
    }
  }

  lemma {:induction false} PrintClean(t: Tree)
    requires GoodTree(t)
    ensures Clean(Print(t))
  {
    match t
    case Run(words) => WordsClean(words);
    case To(sub, file, output) => PrintClean(sub); assert Clean(file);
    case Piped(left, right) => PrintClean(left); PrintClean(right);
    case Then(left, right) => PrintClean(left); PrintClean(right);
    case Async(sub) => PrintClean(sub);
  }

  // The line is read as t.
  ghost predicate Means(s: Line, t: Tree) {
    Parse(s).Ok? && WellFormed(s, Parse(s).cmd) && Text(s, Parse(s).cmd) == t
  }

  // Printing and parsing are inverse, with nothing left over, for exactly the
  // trees with at most nine words per command.
  lemma RoundTrip(t: Tree)
    requires GoodTree(t)
    ensures Clean(Print(t))
    ensures Parse(Print(t)).Ok? <==> Fits(t)
    ensures Fits(t) ==> Means(Print(t), t)
  {
    PrintClean(t);
    var s: Line := Print(t);
    PrintRead(s, 0, t, |s|);
    NoTok(s, |s|);
    assert PrintToks(t) + [] == PrintToks(t);
    PrintForm(t);
    Accepted(s, t, PrintToks(t));
  }

  lemma {:induction false} TextIsGood(s: Line, cmd: Cmd)
    requires WellFormed(s, cmd)
    ensures GoodTree(Text(s, cmd)) && Fits(Text(s, cmd))
  {
    match cmd
    case Exec(argv) =>
    case Redir(sub, to) => TextIsGood(s, sub);
    case Pipe(left, right) => TextIsGood(s, left); TextIsGood(s, right);
    case List(left, right) => TextIsGood(s, left); TextIsGood(s, right);
    case Back(sub) => TextIsGood(s, sub);
  }

  // Every accepted line has a fully parenthesised form with the same tree.
  lemma NormalForm(s: Line)
    requires Parse(s).Ok?
    ensures WellFormed(s, Parse(s).cmd)
    ensures var t := Text(s, Parse(s).cmd); Clean(Print(t)) && Means(Print(t), t)
  {
    LineFormed(s, 0);
    TextIsGood(s, Parse(s).cmd);
    RoundTrip(Text(s, Parse(s).cmd));
  }
}
