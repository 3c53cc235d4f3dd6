// The parser accepts exactly the lines of the grammar, each with its tree.

module ShellExact {
  import opened ShellGrammar
  import opened ShellTokens
  import opened ShellForms

  // ---------------------------------------------------------------- plain commands

  // parseexec() from one of its calls of parseredirs() on.
  function ItemsAt(s: Line, i: nat, argv: seq<Span>, list: seq<Redirection>): (r: Parsed)
    requires i <= |s|
    ensures r.Ok? ==> i <= r.pos <= |s|
  {
    var r := RedirsAt(s, i, list);
    if r.NoFile? then Panic else ArgsAt(s, r.pos, argv, r.list)
  }

  lemma WordStep(s: Line, i: nat, argv: seq<Span>, list: seq<Redirection>, word: Tok, more: seq<Tok>)
    returns (w: Span, next: nat)
    requires i <= |s| && Toks(s, i) == [word] + more && word.Word?
    ensures i < next <= |s| && Toks(s, next) == more && IsWord(s, w) && WordOf(s, w) == word.text
    ensures ItemsAt(s, i, argv, list) ==
      if |argv| + 1 >= MAXARGS then Panic else ItemsAt(s, next, argv + [w], list)
  {
    PeekToks(s, i, "<>");
    PeekToks(s, i, "|)&;");
    NextTok(s, i, word, more);
    TokenStands(s, i);
    var t := TokenAt(s, i);
    w, next := Span(t.q, t.eq), t.next;
    ArgsSkip(s, i, argv, list);
  }

  lemma ArgsSkip(s: Line, i: nat, argv: seq<Span>, list: seq<Redirection>)
    requires i <= |s|
    ensures Skip(s, Skip(s, i)) == Skip(s, i) && ArgsAt(s, Skip(s, i), argv, list) == ArgsAt(s, i, argv, list)
  {
    assert TokenAt(s, Skip(s, i)) == TokenAt(s, i);
  }

  lemma ItemsEnd(s: Line, i: nat, argv: seq<Span>, list: seq<Redirection>)
    requires i <= |s| && Ends(Toks(s, i), "|)&;")
    ensures ItemsAt(s, i, argv, list) == Ok(Wrap(Exec(argv), list), Skip(s, i))
  {
    PeekToks(s, i, "<>");
    PeekToks(s, i, "|)&;");
    NoTok(s, i);
    ArgsSkip(s, i, argv, list);
  }

  lemma ItemsDone(s: Line, i: nat, argv: seq<Span>, list: seq<Redirection>, words: seq<string>, files: seq<Target>)
    requires i <= |s| && Ends(Toks(s, i), "|)&;") && WellFormed(s, Exec(argv)) && AllWords(s, list)
    requires words == Text(s, Exec(argv)).words && files == Targets(s, list)
    ensures Gives(s, ItemsAt(s, i, argv, list), Redirected(Run(words), files), Toks(s, i))
  {
    ItemsEnd(s, i, argv, list);
    WrapText(s, Exec(argv), list);
    RedirectedFits(Run(words), files);
    ToksSkip(s, i);
  }

  lemma WordsMore(s: Line, argv: seq<Span>, w: Span, args: seq<string>)
    requires WellFormed(s, Exec(argv)) && IsWord(s, w) && |argv| + 1 < MAXARGS
    ensures WellFormed(s, Exec(argv + [w]))
    ensures Text(s, Exec(argv + [w])).words + args == Text(s, Exec(argv)).words + ([WordOf(s, w)] + args)
  {
    assert Text(s, Exec(argv + [w])).words == Text(s, Exec(argv)).words + [WordOf(s, w)];
  }

  // From i on the line holds this phrase, which completes these words and files.
  ghost predicate Completes(s: Line, i: nat, argv: seq<Span>, list: seq<Redirection>, phrase: seq<Tok>, rest: seq<Tok>,
                            words: seq<string>, files: seq<Target>) {
    && i <= |s| && Toks(s, i) == phrase + rest && IsPlain(phrase) && WellFormed(s, Exec(argv)) && AllWords(s, list)
    && words == Text(s, Exec(argv)).words + Args(phrase) && files == Targets(s, list) + Files(phrase)
  }

  lemma AfterWord(s: Line, i: nat, argv: seq<Span>, list: seq<Redirection>, phrase: seq<Tok>, rest: seq<Tok>,
                  words: seq<string>, files: seq<Target>) returns (w: Span, next: nat)
    requires Completes(s, i, argv, list, phrase, rest, words, files) && phrase != [] && phrase[0].Word?
    ensures |argv| + 1 < MAXARGS ==>
      && i < next <= |s| && ItemsAt(s, i, argv, list) == ItemsAt(s, next, argv + [w], list)
      && Completes(s, next, argv + [w], list, phrase[1..], rest, words, files)
    ensures |argv| + 1 >= MAXARGS ==> ItemsAt(s, i, argv, list) == Panic && |words| >= MAXARGS
  {
    assert phrase + rest == [phrase[0]] + (phrase[1..] + rest);
    w, next := WordStep(s, i, argv, list, phrase[0], phrase[1..] + rest);
    if |argv| + 1 < MAXARGS { WordsMore(s, argv, w, Args(phrase[1..])); }
  }

  lemma AfterRedir(s: Line, i: nat, argv: seq<Span>, list: seq<Redirection>, phrase: seq<Tok>, rest: seq<Tok>,
                   words: seq<string>, files: seq<Target>) returns (red: Redirection, next: nat)
    requires Completes(s, i, argv, list, phrase, rest, words, files) && phrase != [] && IsOp(phrase[0])
    ensures i < next <= |s| && ItemsAt(s, i, argv, list) == ItemsAt(s, next, argv, list + [red])
    ensures Completes(s, next, argv, list + [red], phrase[2..], rest, words, files)
  {
    assert phrase + rest == [phrase[0], phrase[1]] + (phrase[2..] + rest);
    red, next := RedirStep(s, i, list, phrase[0], phrase[1], phrase[2..] + rest);
    TargetsMore(s, list, red, phrase);
  }

  // Words and redirections in any mixture: the words in order, the later
  // redirections outside, and at most nine words.
  lemma {:induction false} ItemsRound(s: Line, i: nat, argv: seq<Span>, list: seq<Redirection>, phrase: seq<Tok>,
                                      rest: seq<Tok>, words: seq<string>, files: seq<Target>)
    requires Completes(s, i, argv, list, phrase, rest, words, files) && Ends(rest, "|)&;")
    ensures Gives(s, ItemsAt(s, i, argv, list), Redirected(Run(words), files), rest)
    decreases |phrase|
  {
    if phrase == [] {
      assert phrase + rest == rest;
      ItemsDone(s, i, argv, list, words, files);
    } else if phrase[0].Word? {
      var w, next := AfterWord(s, i, argv, list, phrase, rest, words, files);
      if |argv| + 1 < MAXARGS {
        ItemsRound(s, next, argv + [w], list, phrase[1..], rest, words, files);
      } else {
        RedirectedFits(Run(words), files);
      }
    } else {
      var red, next := AfterRedir(s, i, argv, list, phrase, rest, words, files);
      ItemsRound(s, next, argv, list + [red], phrase[2..], rest, words, files);
    }
  }

  lemma WordFirst(word: Tok, more: seq<Tok>, rest: seq<Tok>)
    requires word.Word? && IsPlain(more)
    ensures IsPlain([word] + more) && [word] + (more + rest) == ([word] + more) + rest
  {
    assert ([word] + more)[1..] == more;
  }

  lemma RedirFirst(op: Tok, file: Tok, more: seq<Tok>, rest: seq<Tok>)
    requires IsOp(op) && file.Word? && IsPlain(more)
    ensures IsPlain([op, file] + more) && [op, file] + (more + rest) == ([op, file] + more) + rest
  {
    assert ([op, file] + more)[2..] == more;
  }

  // What is read as a plain command is one.
  lemma {:induction false} ItemsSound(s: Line, i: nat, argv: seq<Span>, list: seq<Redirection>, r: Parsed)
    returns (phrase: seq<Tok>)
    requires i <= |s| && r == ItemsAt(s, i, argv, list) && r.Ok?
    ensures r.pos <= |s| && IsPlain(phrase) && Toks(s, i) == phrase + Toks(s, r.pos) && Ends(Toks(s, r.pos), "|)&;")
    decreases |s| - i
  {
    var toks := Toks(s, i);
    if Ends(toks, "|)&;") {
      phrase := [];
      ItemsEnd(s, i, argv, list);
      ToksSkip(s, i);
    } else if toks[0].Word? {
      assert toks == [toks[0]] + toks[1..];
      var w, next := WordStep(s, i, argv, list, toks[0], toks[1..]);
      phrase := ItemsSound(s, next, argv + [w], list, r);
      WordFirst(toks[0], phrase, Toks(s, r.pos));
      phrase := [toks[0]] + phrase;
    } else {
      ItemsNeed(s, i, argv, list);
      assert toks == [toks[0], toks[1]] + toks[2..];
      var red, next := RedirStep(s, i, list, toks[0], toks[1], toks[2..]);
      phrase := ItemsSound(s, next, argv, list + [red], r);
      RedirFirst(toks[0], toks[1], phrase, Toks(s, r.pos));
      phrase := [toks[0], toks[1]] + phrase;
    }
  }

  lemma ItemsNeed(s: Line, i: nat, argv: seq<Span>, list: seq<Redirection>)
    requires i <= |s| && ItemsAt(s, i, argv, list).Ok?
    requires !Ends(Toks(s, i), "|)&;") && !Toks(s, i)[0].Word?
    ensures IsOp(Toks(s, i)[0]) && |Toks(s, i)| > 1 && Toks(s, i)[1].Word?
  {
    PeekToks(s, i, "<>");
    PeekToks(s, i, "|)&;");
    var toks := Toks(s, i);
    assert toks == [toks[0]] + toks[1..];
    NextTok(s, i, toks[0], toks[1..]);
    ArgsSkip(s, i, argv, list);
    if Peek(s, i, "<>") { RedirNeeds(s, i, list); }
  }

  // ---------------------------------------------------------------- the grammar gives the tree

  lemma {:induction false} ExecRound(s: Line, i: nat, t: Tree, phrase: seq<Tok>, rest: seq<Tok>)
    requires i <= |s| && Toks(s, i) == phrase + rest && ExecForm(t, phrase) && Ends(rest, "|)&;")
    ensures Gives(s, ExecAt(s, i), t, rest)
    decreases |phrase|, 1
  {
    PeekToks(s, i, "(");
    if phrase != [] && phrase[0] == Sym('(') {
      var n: nat, inner :| BlockForm(t, phrase, n, inner);
      BlockRound(s, i, t, phrase, rest, n, inner);
    } else {
      assert phrase == [] ==> phrase + rest == rest;
      assert Text(s, Exec([])).words + Args(phrase) == Args(phrase);
      assert Targets(s, []) + Files(phrase) == Files(phrase);
      assert ExecAt(s, i) == ItemsAt(s, i, [], []);
      ItemsRound(s, i, [], [], phrase, rest, Args(phrase), Files(phrase));
    }
  }

  lemma {:induction false} BlockRound(s: Line, i: nat, t: Tree, phrase: seq<Tok>, rest: seq<Tok>, n: nat, inner: Tree)
    requires i <= |s| && Toks(s, i) == phrase + rest && BlockForm(t, phrase, n, inner) && Ends(rest, "|)&;")
    ensures Gives(s, ExecAt(s, i), t, rest)
    decreases |phrase|, 0
  {
    var tail := phrase[n + 1..] + rest;
    PeekToks(s, i, "(");
    assert phrase + rest == [Sym('(')] + (phrase[1..n] + ([Sym(')')] + tail));
    NextTok(s, i, Sym('('), phrase[1..n] + ([Sym(')')] + tail));
    var a := TokenAt(s, i).next;
    LineRound(s, a, inner, phrase[1..n], [Sym(')')] + tail);
    BlockCloses(s, LineAt(s, a), inner, t, phrase[n + 1..], rest);
    ExecIsBlock(s, i, a);
  }

  // The closing parenthesis, and the redirections behind it.
  function AfterLine(s: Line, line: Parsed): Parsed
    requires line.Ok? ==> line.pos <= |s|
  {
    if line.Panic? || !Peek(s, line.pos, ")") then Panic
    else
      var r := RedirsAt(s, TokenAt(s, line.pos).next, []);
      if r.NoFile? then Panic else Ok(Wrap(line.cmd, r.list), r.pos)
  }

  lemma ExecIsBlock(s: Line, i: nat, a: nat)
    requires i <= |s| && Peek(s, i, "(") && a == TokenAt(s, i).next
    ensures ExecAt(s, i) == AfterLine(s, LineAt(s, a))
  {
  }

  lemma BlockCloses(s: Line, line: Parsed, inner: Tree, t: Tree, files: seq<Tok>, rest: seq<Tok>)
    requires Gives(s, line, inner, [Sym(')')] + (files + rest)) && OnlyFiles(files) && Ends(rest, "|)&;")
    requires t == Redirected(inner, Files(files))
    ensures Gives(s, AfterLine(s, line), t, rest)
  {
    RedirectedFits(inner, Files(files));
    if line.Ok? {
      PeekToks(s, line.pos, ")");
      NextTok(s, line.pos, Sym(')'), files + rest);
      var r := RedirsAt(s, TokenAt(s, line.pos).next, []);
      assert HasFiles(s, r, Files(files), rest) by { FirstRedirs(s, TokenAt(s, line.pos).next, files, rest); }
      WrapText(s, line.cmd, r.list);
    }
  }

  lemma FirstRedirs(s: Line, i: nat, phrase: seq<Tok>, rest: seq<Tok>)
    requires i <= |s| && Toks(s, i) == phrase + rest && OnlyFiles(phrase) && !Begins(rest, "<>")
    ensures HasFiles(s, RedirsAt(s, i, []), Files(phrase), rest)
  {
    assert Targets(s, []) + Files(phrase) == Files(phrase);
    RedirsRound(s, i, [], phrase, rest, Files(phrase));
  }

  lemma {:induction false} PipeRound(s: Line, i: nat, t: Tree, phrase: seq<Tok>, rest: seq<Tok>)
    requires i <= |s| && Toks(s, i) == phrase + rest && PipeForm(t, phrase) && Ends(rest, ")&;")
    ensures Gives(s, PipeAt(s, i), t, rest)
    decreases |phrase|, 2
  {
    if ExecForm(t, phrase) {
      ExecRound(s, i, t, phrase, rest);
      PipeStops(s, ExecAt(s, i), t, rest);
    } else {
      var k: nat :| PipedForm(t, phrase, k);
      var tail := phrase[k + 1..] + rest;
      assert phrase + rest == phrase[..k] + ([Sym('|')] + tail);
      ExecRound(s, i, t.left, phrase[..k], [Sym('|')] + tail);
      var left := ExecAt(s, i);
      if left.Ok? {
        NextTok(s, left.pos, Sym('|'), tail);
        PipeRound(s, TokenAt(s, left.pos).next, t.right, phrase[k + 1..], rest);
      }
      PipeJoins(s, left, t, tail, rest);
    }
  }

  lemma PipeStops(s: Line, left: Parsed, t: Tree, rest: seq<Tok>)
    requires Gives(s, left, t, rest) && Ends(rest, ")&;")
    ensures Gives(s, PipeRest(s, left), t, rest)
  {
    if left.Ok? {
      PeekToks(s, left.pos, "|");
      ToksSkip(s, left.pos);
    }
  }

  lemma PipeJoins(s: Line, left: Parsed, t: Tree, tail: seq<Tok>, rest: seq<Tok>)
    requires t.Piped? && Gives(s, left, t.left, [Sym('|')] + tail)
    requires left.Ok? ==> Gives(s, PipeAt(s, TokenAt(s, left.pos).next), t.right, rest)
    ensures Gives(s, PipeRest(s, left), t, rest)
  {
    if left.Ok? { PeekToks(s, left.pos, "|"); }
  }

  // A pipeline and its "&", up to something else; also in front of more of them.
  // The parser is then at p with cmd, or has stopped.
  lemma {:induction false} BacksRound(s: Line, i: nat, t: Tree, phrase: seq<Tok>, rest: seq<Tok>) returns (r: Parsed)
    requires i <= |s| && Toks(s, i) == phrase + rest && BacksForm(t, phrase) && Ends(rest, ")&;")
    ensures Gives(s, r, t, rest) && BacksFrom(s, PipeAt(s, i)) == BacksFrom(s, r)
    decreases |phrase|, 3
  {
    if PipeForm(t, phrase) {
      PipeRound(s, i, t, phrase, rest);
      r := PipeAt(s, i);
    } else {
      var init := phrase[..|phrase| - 1];
      assert phrase + rest == init + ([Sym('&')] + rest);
      var sub := BacksRound(s, i, t.sub, init, [Sym('&')] + rest);
      r := BackStep(s, sub, t, rest);
    }
  }

  function BacksFrom(s: Line, r: Parsed): (left: Parsed)
    requires r.Ok? ==> r.pos <= |s|
    ensures left.Ok? ==> left.pos <= |s|
  {
    if r.Panic? then Panic else BacksAt(s, r.pos, r.cmd)
  }

  lemma BackStep(s: Line, sub: Parsed, t: Tree, rest: seq<Tok>) returns (r: Parsed)
    requires t.Async? && Gives(s, sub, t.sub, [Sym('&')] + rest)
    ensures Gives(s, r, t, rest) && BacksFrom(s, sub) == BacksFrom(s, r)
  {
    r := Panic;
    if sub.Ok? {
      PeekToks(s, sub.pos, "&");
      NextTok(s, sub.pos, Sym('&'), rest);
      r := Ok(Back(sub.cmd), TokenAt(s, sub.pos).next);
    }
  }

  lemma BacksStop(s: Line, r: Parsed, t: Tree, rest: seq<Tok>)
    requires Gives(s, r, t, rest) && Ends(rest, ");")
    ensures Gives(s, BacksFrom(s, r), t, rest)
  {
    if r.Ok? {
      PeekToks(s, r.pos, "&");
      ToksSkip(s, r.pos);
    }
  }

  // What follows the "&" of a line.
  function AfterBacks(s: Line, left: Parsed): Parsed
    requires left.Ok? ==> left.pos <= |s|
  {
    if left.Panic? then Panic
    else if Peek(s, left.pos, ";") then
      var right := LineAt(s, TokenAt(s, left.pos).next);
      if right.Ok? then Ok(List(left.cmd, right.cmd), right.pos) else Panic
    else left
  }

  lemma LineIs(s: Line, i: nat)
    requires i <= |s|
    ensures LineAt(s, i) == AfterBacks(s, BacksFrom(s, PipeAt(s, i)))
  {
  }

  lemma {:induction false} LineRound(s: Line, i: nat, t: Tree, phrase: seq<Tok>, rest: seq<Tok>)
    requires i <= |s| && Toks(s, i) == phrase + rest && LineForm(t, phrase) && Ends(rest, ")")
    ensures Gives(s, LineAt(s, i), t, rest)
    decreases |phrase|, 5
  {
    LineIs(s, i);
    if BacksForm(t, phrase) {
      var r := BacksRound(s, i, t, phrase, rest);
      BacksStop(s, r, t, rest);
      LineStops(s, BacksFrom(s, r), t, rest);
    } else {
      var k: nat :| ThenForm(t, phrase, k);
      var tail := phrase[k + 1..] + rest;
      assert phrase + rest == phrase[..k] + ([Sym(';')] + tail);
      var r := BacksRound(s, i, t.left, phrase[..k], [Sym(';')] + tail);
      BacksStop(s, r, t.left, [Sym(';')] + tail);
      var left := BacksFrom(s, r);
      if left.Ok? {
        NextTok(s, left.pos, Sym(';'), tail);
        LineRound(s, TokenAt(s, left.pos).next, t.right, phrase[k + 1..], rest);
      }
      LineJoins(s, left, t, tail, rest);
    }
  }

  lemma LineStops(s: Line, left: Parsed, t: Tree, rest: seq<Tok>)
    requires Gives(s, left, t, rest) && Ends(rest, ")")
    ensures Gives(s, AfterBacks(s, left), t, rest)
  {
    if left.Ok? { PeekToks(s, left.pos, ";"); }
  }

  lemma LineJoins(s: Line, left: Parsed, t: Tree, tail: seq<Tok>, rest: seq<Tok>)
    requires t.Then? && Gives(s, left, t.left, [Sym(';')] + tail)
    requires left.Ok? ==> Gives(s, LineAt(s, TokenAt(s, left.pos).next), t.right, rest)
    ensures Gives(s, AfterBacks(s, left), t, rest)
  {
    if left.Ok? { PeekToks(s, left.pos, ";"); }
  }

  // ---------------------------------------------------------------- what is read is in the grammar

  // From i on the parser has read these tokens, and made this tree of them.
  ghost predicate Made(s: Line, i: nat, r: Parsed, phrase: seq<Tok>, t: Tree) {
    && r.Ok? && i <= |s| && r.pos <= |s| && WellFormed(s, r.cmd) && Text(s, r.cmd) == t
    && Toks(s, i) == phrase + Toks(s, r.pos)
  }

  lemma {:induction false} ExecSound(s: Line, i: nat) returns (phrase: seq<Tok>, t: Tree)
    requires i <= |s| && ExecAt(s, i).Ok?
    ensures Made(s, i, ExecAt(s, i), phrase, t) && ExecForm(t, phrase)
    decreases |s| - i, 1
  {
    if Peek(s, i, "(") {
      phrase, t := BlockSound(s, i);
    } else {
      assert ExecAt(s, i) == ItemsAt(s, i, [], []);
      phrase, t := PlainSound(s, i);
    }
  }

  lemma PlainSound(s: Line, i: nat) returns (phrase: seq<Tok>, t: Tree)
    requires i <= |s| && ItemsAt(s, i, [], []).Ok?
    ensures Made(s, i, ItemsAt(s, i, [], []), phrase, t) && ExecForm(t, phrase)
  {
    var r := ItemsAt(s, i, [], []);
    phrase := ItemsSound(s, i, [], [], r);
    t := Redirected(Run(Args(phrase)), Files(phrase));
    assert Text(s, Exec([])).words + Args(phrase) == Args(phrase);
    assert Targets(s, []) + Files(phrase) == Files(phrase);
    ItemsRound(s, i, [], [], phrase, Toks(s, r.pos), Args(phrase), Files(phrase));
  }

  // The next token is this symbol.
  lemma TakeSym(s: Line, i: nat, c: char) returns (next: nat)
    requires i <= |s| && c in "|&;()" && Peek(s, i, [c])
    ensures i < next == TokenAt(s, i).next <= |s| && Toks(s, i) == [Sym(c)] + Toks(s, next)
  {
    PeekToks(s, i, [c]);
    var toks := Toks(s, i);
    assert toks == [toks[0]] + toks[1..];
    NextTok(s, i, toks[0], toks[1..]);
    next := TokenAt(s, i).next;
  }

  lemma {:induction false} BlockSound(s: Line, i: nat) returns (phrase: seq<Tok>, t: Tree)
    requires i <= |s| && Peek(s, i, "(") && ExecAt(s, i).Ok?
    ensures Made(s, i, ExecAt(s, i), phrase, t) && ExecForm(t, phrase)
    decreases |s| - i, 0
  {
    var a := TakeSym(s, i, '(');
    ExecIsBlock(s, i, a);
    var mid, inner := LineSound(s, a);
    phrase, t := ClosedSound(s, i, a, LineAt(s, a), mid, inner);
  }

  lemma ClosedSound(s: Line, i: nat, a: nat, line: Parsed, mid: seq<Tok>, inner: Tree)
    returns (phrase: seq<Tok>, t: Tree)
    requires i < a <= |s| && Toks(s, i) == [Sym('(')] + Toks(s, a)
    requires Made(s, a, line, mid, inner) && LineForm(inner, mid) && AfterLine(s, line).Ok?
    ensures Made(s, i, AfterLine(s, line), phrase, t) && ExecForm(t, phrase)
  {
    var b := TakeSym(s, line.pos, ')');
    var r := RedirsAt(s, b, []);
    var files := RedirsSound(s, b, []);
    FirstRedirs(s, b, files, Toks(s, r.pos));
    WrapText(s, line.cmd, r.list);
    phrase, t := [Sym('(')] + (mid + ([Sym(')')] + files)), Redirected(inner, Files(files));
    BlockIs(inner, mid, files);
    Glue(mid, Sym(')'), files, Toks(s, r.pos), Toks(s, line.pos), Toks(s, b), Toks(s, a));
    Associate([Sym('(')], mid + ([Sym(')')] + files), Toks(s, r.pos));
  }

  lemma BlockIs(inner: Tree, mid: seq<Tok>, files: seq<Tok>)
    requires LineForm(inner, mid) && OnlyFiles(files)
    ensures ExecForm(Redirected(inner, Files(files)), [Sym('(')] + (mid + ([Sym(')')] + files)))
  {
    var phrase := [Sym('(')] + (mid + ([Sym(')')] + files));
    assert phrase[1..|mid| + 1] == mid && phrase[|mid| + 2..] == files;
    assert BlockForm(Redirected(inner, Files(files)), phrase, |mid| + 1, inner);
  }

  // Two phrases with a symbol between them.
  lemma Glue(p: seq<Tok>, x: Tok, q: seq<Tok>, rest: seq<Tok>, second: seq<Tok>, third: seq<Tok>, whole: seq<Tok>)
    requires whole == p + second && second == [x] + third && third == q + rest
    ensures whole == (p + ([x] + q)) + rest
  {
  }

  lemma {:induction false} PipeSound(s: Line, i: nat) returns (phrase: seq<Tok>, t: Tree)
    requires i <= |s| && PipeAt(s, i).Ok?
    ensures Made(s, i, PipeAt(s, i), phrase, t) && PipeForm(t, phrase)
    decreases |s| - i, 2
  {
    var left := ExecAt(s, i);
    phrase, t := ExecSound(s, i);
    if Peek(s, left.pos, "|") {
      var j := TakeSym(s, left.pos, '|');
      var more, t1 := PipeSound(s, j);
      phrase, t := PipedSound(s, i, left, phrase, t, j, PipeAt(s, j), more, t1);
    } else {
      ToksSkip(s, left.pos);
    }
  }

  lemma PipedSound(s: Line, i: nat, left: Parsed, p: seq<Tok>, t: Tree, j: nat, right: Parsed, q: seq<Tok>, u: Tree)
    returns (phrase: seq<Tok>, whole: Tree)
    requires Made(s, i, left, p, t) && ExecForm(t, p) && Made(s, j, right, q, u) && PipeForm(u, q)
    requires Toks(s, left.pos) == [Sym('|')] + Toks(s, j)
    ensures Made(s, i, Ok(Pipe(left.cmd, right.cmd), right.pos), phrase, whole) && PipeForm(whole, phrase)
  {
    phrase, whole := p + ([Sym('|')] + q), Piped(t, u);
    Glue(p, Sym('|'), q, Toks(s, right.pos), Toks(s, left.pos), Toks(s, j), Toks(s, i));
    PipedIs(t, p, u, q);
  }

  lemma PipedIs(t: Tree, p: seq<Tok>, u: Tree, q: seq<Tok>)
    requires ExecForm(t, p) && PipeForm(u, q)
    ensures PipeForm(Piped(t, u), p + ([Sym('|')] + q))
  {
    var phrase := p + ([Sym('|')] + q);
    assert phrase[..|p|] == p && phrase[|p| + 1..] == q;
    assert PipedForm(Piped(t, u), phrase, |p|);
  }

  lemma BackIs(t: Tree, p: seq<Tok>)
    requires BacksForm(t, p)
    ensures BacksForm(Async(t), p + [Sym('&')])
  {
    var phrase := p + [Sym('&')];
    assert phrase[..|phrase| - 1] == p;
  }

  lemma {:induction false} BacksSound(s: Line, i: nat, now: Parsed, p: seq<Tok>, t: Tree)
    returns (phrase: seq<Tok>, whole: Tree)
    requires Made(s, i, now, p, t) && BacksForm(t, p)
    ensures Made(s, i, BacksFrom(s, now), phrase, whole) && BacksForm(whole, phrase)
    decreases |s| - now.pos
  {
    if Peek(s, now.pos, "&") {
      var next := TakeSym(s, now.pos, '&');
      BackIs(t, p);
      Associate(p, [Sym('&')], Toks(s, next));
      phrase, whole := BacksSound(s, i, Ok(Back(now.cmd), next), p + [Sym('&')], Async(t));
    } else {
      phrase, whole := p, t;
      ToksSkip(s, now.pos);
    }
  }

  lemma {:induction false} LineSound(s: Line, i: nat) returns (phrase: seq<Tok>, t: Tree)
    requires i <= |s| && LineAt(s, i).Ok?
    ensures Made(s, i, LineAt(s, i), phrase, t) && LineForm(t, phrase)
    decreases |s| - i, 3
  {
    LineIs(s, i);
    var first := PipeAt(s, i);
    phrase, t := PipeSound(s, i);
    phrase, t := BacksSound(s, i, first, phrase, t);
    var left := BacksFrom(s, first);
    if Peek(s, left.pos, ";") {
      var j := TakeSym(s, left.pos, ';');
      var more, u := LineSound(s, j);
      phrase, t := ThenSound(s, i, left, phrase, t, j, LineAt(s, j), more, u);
    }
  }

  lemma ThenSound(s: Line, i: nat, left: Parsed, p: seq<Tok>, t: Tree, j: nat, right: Parsed, q: seq<Tok>, u: Tree)
    returns (phrase: seq<Tok>, whole: Tree)
    requires Made(s, i, left, p, t) && BacksForm(t, p) && Made(s, j, right, q, u) && LineForm(u, q)
    requires Toks(s, left.pos) == [Sym(';')] + Toks(s, j)
    ensures Made(s, i, Ok(List(left.cmd, right.cmd), right.pos), phrase, whole) && LineForm(whole, phrase)
  {
    phrase, whole := p + ([Sym(';')] + q), Then(t, u);
    Glue(p, Sym(';'), q, Toks(s, right.pos), Toks(s, left.pos), Toks(s, j), Toks(s, i));
    ThenIs(t, p, u, q);
  }

  lemma ThenIs(t: Tree, p: seq<Tok>, u: Tree, q: seq<Tok>)
    requires BacksForm(t, p) && LineForm(u, q)
    ensures LineForm(Then(t, u), p + ([Sym(';')] + q))
  {
    var phrase := p + ([Sym(';')] + q);
    assert phrase[..|p|] == p && phrase[|p| + 1..] == q;
    assert ThenForm(Then(t, u), phrase, |p|);
  }

  // ---------------------------------------------------------------- main results

  // A line is read as t if and only if the grammar makes t of its tokens and no
  // command of t has more than nine words.
  lemma ParsesExactly(s: Line, toks: seq<Tok>, t: Tree)
    requires Lexes(s, 0, toks)
    ensures Parse(s).Ok? ==> WellFormed(s, Parse(s).cmd)
    ensures Parse(s).Ok? && Text(s, Parse(s).cmd) == t <==> LineForm(t, toks) && Fits(t)
  {
    LexesExactly(s, 0, toks);
    if LineForm(t, toks) && Fits(t) { Accepted(s, t, toks); }
    if Parse(s).Ok? {
      var r := LineAt(s, 0);
      var phrase, _ := LineSound(s, 0);
      NoTok(s, r.pos);
      assert phrase + [] == phrase;
      if Text(s, r.cmd) == t && !Fits(t) { Accepted(s, t, toks); }
    }
  }

  lemma Accepted(s: Line, t: Tree, toks: seq<Tok>)
    requires toks == Toks(s, 0) && LineForm(t, toks)
    ensures Parse(s).Ok? <==> Fits(t)
    ensures Fits(t) ==> Parse(s).Ok? && WellFormed(s, Parse(s).cmd) && Text(s, Parse(s).cmd) == t
  {
    assert toks + [] == toks;
    LineRound(s, 0, t, toks, []);
    if Fits(t) { NoTok(s, LineAt(s, 0).pos); }
  }

  // Within the grammar the parser panics for a tenth word only.
  lemma PanicsExactly(s: Line, toks: seq<Tok>, t: Tree)
    requires Lexes(s, 0, toks) && LineForm(t, toks)
    ensures Parse(s).Panic? <==> !Fits(t)
  {
    LexesExactly(s, 0, toks);
    Accepted(s, t, toks);
  }

  // Words and redirections in any mixture, however they are spaced: one command
  // with the words in order, the first redirection innermost.
  lemma PlainRound(s: Line, toks: seq<Tok>)
    requires Lexes(s, 0, toks) && IsPlain(toks)
    ensures Parse(s).Ok? <==> |Args(toks)| < MAXARGS
    ensures Parse(s).Ok? ==>
      WellFormed(s, Parse(s).cmd) && Text(s, Parse(s).cmd) == Redirected(Run(Args(toks)), Files(toks))
  {
    var t := Redirected(Run(Args(toks)), Files(toks));
    RedirectedFits(Run(Args(toks)), Files(toks));
    assert ExecForm(t, toks);
    LexesExactly(s, 0, toks);
    Accepted(s, t, toks);
  }
}
