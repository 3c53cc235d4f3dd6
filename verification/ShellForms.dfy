// The grammar of sh.c as a relation between token lists and trees.

module ShellForms {
  import opened ShellGrammar
  import opened ShellTokens

  datatype Target = Target(file: string, output: bool)

  predicate IsOp(tok: Tok) {
    tok == Sym('<') || tok == Sym('>') || tok == Append
  }

  // Words, and redirections: an operator with a word behind it.
  predicate IsPlain(toks: seq<Tok>)
    decreases |toks|
  {
    || toks == []
    || (toks[0].Word? && IsPlain(toks[1..]))
    || (IsOp(toks[0]) && |toks| > 1 && toks[1].Word? && IsPlain(toks[2..]))
  }

  // The words that are no file names, in order.
  function Args(toks: seq<Tok>): seq<string>
    requires IsPlain(toks)
    decreases |toks|
  {
    if toks == [] then [] else if toks[0].Word? then [toks[0].text] + Args(toks[1..]) else Args(toks[2..])
  }

  // The redirections, in order.
  function Files(toks: seq<Tok>): seq<Target>
    requires IsPlain(toks)
    decreases |toks|
  {
    if toks == [] then []
    else if toks[0].Word? then Files(toks[1..])
    else [Target(toks[1].text, toks[0] != Sym('<'))] + Files(toks[2..])
  }

  // The first redirection is innermost.
  function Redirected(t: Tree, files: seq<Target>): Tree
    decreases |files|
  {
    if files == [] then t else Redirected(To(t, files[0].file, files[0].output), files[1..])
  }

  ghost predicate OnlyFiles(toks: seq<Tok>) {
    IsPlain(toks) && Args(toks) == []
  }

  // ( line ) with redirections behind; the parenthesis closes at n.
  ghost predicate BlockForm(t: Tree, toks: seq<Tok>, n: nat, inner: Tree)
    decreases |toks|, 0
  {
    && 0 < n < |toks| && toks[0] == Sym('(') && toks[n] == Sym(')') && LineForm(inner, toks[1..n])
    && OnlyFiles(toks[n + 1..]) && t == Redirected(inner, Files(toks[n + 1..]))
  }

  // A block, or a plain command: its words in order, with redirections anywhere.
  ghost predicate ExecForm(t: Tree, toks: seq<Tok>)
    decreases |toks|, 1
  {
    if toks != [] && toks[0] == Sym('(') then exists n: nat, inner :: BlockForm(t, toks, n, inner)
    else IsPlain(toks) && t == Redirected(Run(Args(toks)), Files(toks))
  }

  ghost predicate PipedForm(t: Tree, toks: seq<Tok>, k: nat)
    decreases |toks|, 1
  {
    t.Piped? && k < |toks| && toks[k] == Sym('|') && ExecForm(t.left, toks[..k]) && PipeForm(t.right, toks[k + 1..])
  }

  ghost predicate PipeForm(t: Tree, toks: seq<Tok>)
    decreases |toks|, 2
  {
    ExecForm(t, toks) || exists k: nat :: PipedForm(t, toks, k)
  }

  // A pipeline and any number of "&".
  ghost predicate BacksForm(t: Tree, toks: seq<Tok>)
    decreases |toks|, 3
  {
    || PipeForm(t, toks)
    || (t.Async? && toks != [] && toks[|toks| - 1] == Sym('&') && BacksForm(t.sub, toks[..|toks| - 1]))
  }

  ghost predicate ThenForm(t: Tree, toks: seq<Tok>, k: nat)
    decreases |toks|, 4
  {
    t.Then? && k < |toks| && toks[k] == Sym(';') && BacksForm(t.left, toks[..k]) && LineForm(t.right, toks[k + 1..])
  }

  ghost predicate LineForm(t: Tree, toks: seq<Tok>)
    decreases |toks|, 5
  {
    BacksForm(t, toks) || exists k: nat :: ThenForm(t, toks, k)
  }

  // The parser's only other limit: at most nine words per command.
  predicate Fits(t: Tree) {
    match t
    case Run(words) => |words| < MAXARGS
    case To(sub, _, _) => Fits(sub)
    case Piped(left, right) => Fits(left) && Fits(right)
    case Then(left, right) => Fits(left) && Fits(right)
    case Async(sub) => Fits(sub)
  }

  lemma {:induction false} RedirectedFits(t: Tree, files: seq<Target>)
    ensures Fits(Redirected(t, files)) == Fits(t)
    decreases |files|
  {
    if files != [] { RedirectedFits(To(t, files[0].file, files[0].output), files[1..]); }
  }

  // What a reader gets from a parse: a tree and the tokens left.
  datatype Reading = Stop | Malformed | Reads(t: Tree, rest: seq<Tok>)

  ghost function Read(s: Line, r: Parsed): Reading
    requires r.Ok? ==> r.pos <= |s|
  {
    if r.Panic? then Stop else if WellFormed(s, r.cmd) then Reads(Text(s, r.cmd), Toks(s, r.pos)) else Malformed
  }

  // The tree, if it fits, and a panic otherwise.
  ghost predicate Gives(s: Line, r: Parsed, t: Tree, rest: seq<Tok>) {
    (r.Ok? ==> r.pos <= |s|) && Read(s, r) == if Fits(t) then Reads(t, rest) else Stop
  }

  // Nothing follows, or one of these symbols.
  predicate Ends(rest: seq<Tok>, chars: string) {
    rest == [] || Begins(rest, chars)
  }

  // ---------------------------------------------------------------- redirections

  ghost function Targets(s: Line, list: seq<Redirection>): seq<Target>
    requires AllWords(s, list)
  {
    seq(|list|, k requires 0 <= k < |list| => Target(WordOf(s, list[k].file), list[k].output))
  }

  lemma {:induction false} RedirectedLast(t: Tree, files: seq<Target>, f: Target)
    ensures Redirected(t, files + [f]) == To(Redirected(t, files), f.file, f.output)
    decreases |files|
  {
    if files == [] {
      assert [f][1..] == [];
    } else {
      assert (files + [f])[1..] == files[1..] + [f];
      RedirectedLast(To(t, files[0].file, files[0].output), files[1..], f);
    }
  }

  lemma {:induction false} WrapText(s: Line, cmd: Cmd, list: seq<Redirection>)
    requires WellFormed(s, cmd) && AllWords(s, list)
    ensures WellFormed(s, Wrap(cmd, list)) && Text(s, Wrap(cmd, list)) == Redirected(Text(s, cmd), Targets(s, list))
    decreases |list|
  {
    if list != [] {
      var init, last := list[..|list| - 1], list[|list| - 1];
      WrapText(s, cmd, init);
      RedirectedLast(Text(s, cmd), Targets(s, init), Target(WordOf(s, last.file), last.output));
      assert Targets(s, list) == Targets(s, init) + [Target(WordOf(s, last.file), last.output)];
    }
  }

  // One redirection and what follows it.
  lemma RedirStep(s: Line, i: nat, list: seq<Redirection>, op: Tok, file: Tok, more: seq<Tok>)
    returns (red: Redirection, next: nat)
    requires i <= |s| && Toks(s, i) == [op, file] + more && IsOp(op) && file.Word?
    ensures i < next <= |s| && Toks(s, next) == more && IsWord(s, red.file)
    ensures WordOf(s, red.file) == file.text && red.output == (op != Sym('<'))
    ensures Peek(s, i, "<>") && RedirsAt(s, i, list) == RedirsAt(s, next, list + [red])
  {
    PeekToks(s, i, "<>");
    assert [op, file] + more == [op] + ([file] + more);
    NextTok(s, i, op, [file] + more);
    var a := TokenAt(s, i).next;
    NextTok(s, a, file, more);
    TokenStands(s, a);
    var t := TokenAt(s, a);
    red, next := Redirection(Span(t.q, t.eq), op != Sym('<')), t.next;
  }

  // An operator that is read must have its word.
  lemma RedirNeeds(s: Line, i: nat, list: seq<Redirection>)
    requires i <= |s| && Peek(s, i, "<>")
    ensures Toks(s, i) != [] && IsOp(Toks(s, i)[0])
    ensures RedirsAt(s, i, list).Redirs? ==> |Toks(s, i)| > 1 && Toks(s, i)[1].Word?
  {
    PeekToks(s, i, "<>");
    var toks := Toks(s, i);
    assert toks == [toks[0]] + toks[1..];
    NextTok(s, i, toks[0], toks[1..]);
    var a := TokenAt(s, i).next;
    NoTok(s, a);
    if toks[1..] != [] {
      assert toks[1..] == [toks[1]] + toks[2..];
      NextTok(s, a, toks[1], toks[2..]);
    }
  }

  // These redirections were read, and these tokens are left.
  ghost predicate HasFiles(s: Line, r: Redirs, files: seq<Target>, rest: seq<Tok>) {
    && r.Redirs? && r.pos <= |s| && AllWords(s, r.list)
    && Targets(s, r.list) == files && Toks(s, r.pos) == rest
  }

  lemma TargetsLast(s: Line, list: seq<Redirection>, red: Redirection)
    requires AllWords(s, list) && IsWord(s, red.file)
    ensures AllWords(s, list + [red])
    ensures Targets(s, list + [red]) == Targets(s, list) + [Target(WordOf(s, red.file), red.output)]
  {
  }

  lemma Associate<T>(p: seq<T>, q: seq<T>, rest: seq<T>)
    ensures p + (q + rest) == (p + q) + rest
  {
  }

  lemma TargetsMore(s: Line, list: seq<Redirection>, red: Redirection, phrase: seq<Tok>)
    requires AllWords(s, list) && IsWord(s, red.file) && IsPlain(phrase) && phrase != [] && IsOp(phrase[0])
    requires WordOf(s, red.file) == phrase[1].text && red.output == (phrase[0] != Sym('<'))
    ensures AllWords(s, list + [red])
    ensures Targets(s, list + [red]) + Files(phrase[2..]) == Targets(s, list) + Files(phrase)
  {
    TargetsLast(s, list, red);
    Associate(Targets(s, list), [Target(phrase[1].text, red.output)], Files(phrase[2..]));
  }

  // All redirections up to something else.
  lemma {:induction false} RedirsRound(s: Line, i: nat, list: seq<Redirection>, phrase: seq<Tok>, rest: seq<Tok>,
                                       files: seq<Target>)
    requires i <= |s| && Toks(s, i) == phrase + rest && OnlyFiles(phrase) && AllWords(s, list)
    requires !Begins(rest, "<>") && files == Targets(s, list) + Files(phrase)
    ensures HasFiles(s, RedirsAt(s, i, list), files, rest)
    decreases |phrase|
  {
    PeekToks(s, i, "<>");
    if phrase == [] {
      assert phrase + rest == rest;
      ToksSkip(s, i);
    } else {
      assert phrase + rest == [phrase[0], phrase[1]] + (phrase[2..] + rest);
      var red, next := RedirStep(s, i, list, phrase[0], phrase[1], phrase[2..] + rest);
      TargetsMore(s, list, red, phrase);
      RedirsRound(s, next, list + [red], phrase[2..], rest, files);
    }
  }

  lemma {:induction false} RedirsSound(s: Line, i: nat, list: seq<Redirection>) returns (phrase: seq<Tok>)
    requires i <= |s| && RedirsAt(s, i, list).Redirs?
    ensures OnlyFiles(phrase) && Toks(s, i) == phrase + Toks(s, RedirsAt(s, i, list).pos)
    ensures !Begins(Toks(s, RedirsAt(s, i, list).pos), "<>")
    decreases |s| - i
  {
    PeekToks(s, i, "<>");
    if Peek(s, i, "<>") {
      RedirNeeds(s, i, list);
      var toks := Toks(s, i);
      assert toks == [toks[0], toks[1]] + toks[2..];
      var red, next := RedirStep(s, i, list, toks[0], toks[1], toks[2..]);
      var more := RedirsSound(s, next, list + [red]);
      phrase := [toks[0], toks[1]] + more;
      assert phrase[2..] == more;
    } else {
      phrase := [];
      ToksSkip(s, i);
    }
  }
}
