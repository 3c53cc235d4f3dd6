// The command language of sh.c: tokens, trees of text spans, and what each
// parsing function accepts.

module ShellGrammar {

  // A command line up to its terminating NUL.
  type Line = s: string | forall i | 0 <= i < |s| :: s[i] != '\0' witness ""

  const WHITE := " \t\r\n\U{0B}"
  const SYMBOLS := "<|>&;()"
  const MAXARGS := 10

  predicate IsWhite(c: char) { c in WHITE }

  predicate IsWordChar(c: char) {
    !IsWhite(c) && c !in SYMBOLS && c != '\0'
  }

  // s[i], or the NUL behind the line.
  function At(s: Line, i: nat): char {
    if i < |s| then s[i] else '\0'
  }

  function Skip(s: Line, i: nat): (r: nat)
    requires i <= |s|
    ensures i <= r <= |s| && !IsWhite(At(s, r))
    decreases |s| - i
  {
    if i < |s| && IsWhite(s[i]) then Skip(s, i + 1) else i
  }

  function WordEnd(s: Line, i: nat): (r: nat)
    requires i <= |s|
    ensures i <= r <= |s| && !IsWordChar(At(s, r))
    decreases |s| - i
  {
    if i < |s| && IsWordChar(s[i]) then WordEnd(s, i + 1) else i
  }

  // Kind of token ('\0' at the end, 'a' for a word, '+' for ">>"), its text, and
  // where the next one starts.
  datatype Token = Token(kind: char, q: nat, eq: nat, next: nat)

  function TokenAt(s: Line, i: nat): (r: Token)
    requires i <= |s|
    ensures i <= r.q <= r.eq <= r.next <= |s|
    ensures r.kind != '\0' <==> r.eq > r.q
    ensures r.kind == '\0' ==> r.next == |s|
    decreases |s| - i
  {
    var q := Skip(s, i);
    var c := At(s, q);
    if c == '\0' then Token('\0', q, q, q)
    else if c == '>' && At(s, q + 1) == '>' then Token('+', q, q + 2, Skip(s, q + 2))
    else if c in SYMBOLS then Token(c, q, q + 1, Skip(s, q + 1))
    else Token('a', q, WordEnd(s, q), Skip(s, WordEnd(s, q)))
  }

  predicate Peek(s: Line, i: nat, toks: string)
    requires i <= |s|
  {
    At(s, Skip(s, i)) in toks
  }

  // Words and file names as spans of the line.
  datatype Span = Span(q: nat, eq: nat)
  datatype Redirection = Redirection(file: Span, output: bool)
  datatype Cmd =
    | Exec(argv: seq<Span>)
    | Redir(sub: Cmd, to: Redirection)
    | Pipe(left: Cmd, right: Cmd)
    | List(left: Cmd, right: Cmd)
    | Back(sub: Cmd)

  datatype Parsed = Ok(cmd: Cmd, pos: nat) | Panic
  datatype Redirs = Redirs(list: seq<Redirection>, pos: nat) | NoFile

  // Later redirections go outside.
  function Wrap(cmd: Cmd, list: seq<Redirection>): Cmd
    decreases |list|
  {
    if list == [] then cmd else Redir(Wrap(cmd, list[..|list| - 1]), list[|list| - 1])
  }

  function RedirsAt(s: Line, i: nat, list: seq<Redirection>): (r: Redirs)
    requires i <= |s|
    ensures r.Redirs? ==> i <= r.pos <= |s|
    decreases |s| - i
  {
    if Peek(s, i, "<>") then
      var op := TokenAt(s, i);
      var file := TokenAt(s, op.next);
      if file.kind != 'a' then NoFile
      else RedirsAt(s, file.next, list + [Redirection(Span(file.q, file.eq), op.kind != '<')])
    else Redirs(list, Skip(s, i))
  }

  function ArgsAt(s: Line, i: nat, argv: seq<Span>, list: seq<Redirection>): (r: Parsed)
    requires i <= |s|
    ensures r.Ok? ==> i <= r.pos <= |s|
    decreases |s| - i
  {
    var t := TokenAt(s, i);
    if Peek(s, i, "|)&;") then Ok(Wrap(Exec(argv), list), Skip(s, i))
    else if t.kind == '\0' then Ok(Wrap(Exec(argv), list), t.next)
    else if t.kind != 'a' || |argv| + 1 >= MAXARGS then Panic
    else
      var r := RedirsAt(s, t.next, list);
      if r.NoFile? then Panic else ArgsAt(s, r.pos, argv + [Span(t.q, t.eq)], r.list)
  }

  function ExecAt(s: Line, i: nat): (r: Parsed)
    requires i <= |s|
    ensures r.Ok? ==> i <= r.pos <= |s|
    decreases |s| - i, 1
  {
    if Peek(s, i, "(") then BlockAt(s, i)
    else
      var r := RedirsAt(s, i, []);
      if r.NoFile? then Panic else ArgsAt(s, r.pos, [], r.list)
  }

  function BlockAt(s: Line, i: nat): (r: Parsed)
    requires i <= |s| && Peek(s, i, "(")
    ensures r.Ok? ==> i <= r.pos <= |s|
    decreases |s| - i, 0
  {
    var line := LineAt(s, TokenAt(s, i).next);
    if line.Panic? || !Peek(s, line.pos, ")") then Panic
    else
      var r := RedirsAt(s, TokenAt(s, line.pos).next, []);
      if r.NoFile? then Panic else Ok(Wrap(line.cmd, r.list), r.pos)
  }

  function PipeAt(s: Line, i: nat): (r: Parsed)
    requires i <= |s|
    ensures r.Ok? ==> i <= r.pos <= |s|
    decreases |s| - i, 3
  {
    PipeRest(s, ExecAt(s, i))
  }

  // What follows the first command of a pipeline.
  function PipeRest(s: Line, left: Parsed): (r: Parsed)
    requires left.Ok? ==> left.pos <= |s|
    ensures r.Ok? ==> left.Ok? && left.pos <= r.pos <= |s|
    decreases if left.Ok? then |s| - left.pos else 0, 2
  {
    if left.Ok? && Peek(s, left.pos, "|") then
      var right := PipeAt(s, TokenAt(s, left.pos).next);
      if right.Ok? then Ok(Pipe(left.cmd, right.cmd), right.pos) else Panic
    else if left.Ok? then Ok(left.cmd, Skip(s, left.pos))
    else Panic
  }

  function BacksAt(s: Line, i: nat, cmd: Cmd): (r: Parsed)
    requires i <= |s|
    ensures r.Ok? && i <= r.pos <= |s|
    decreases |s| - i
  {
    if Peek(s, i, "&") then BacksAt(s, TokenAt(s, i).next, Back(cmd)) else Ok(cmd, Skip(s, i))
  }

  function LineAt(s: Line, i: nat): (r: Parsed)
    requires i <= |s|
    ensures r.Ok? ==> i <= r.pos <= |s|
    decreases |s| - i, 5
  {
    LineRest(s, PipeAt(s, i))
  }

  // What follows the first pipeline of a line.
  function LineRest(s: Line, first: Parsed): (r: Parsed)
    requires first.Ok? ==> first.pos <= |s|
    ensures r.Ok? ==> first.Ok? && first.pos <= r.pos <= |s|
    decreases if first.Ok? then |s| - first.pos else 0, 4
  {
    if first.Panic? then Panic
    else
      var left := BacksAt(s, first.pos, first.cmd);
      if Peek(s, left.pos, ";") then
        var right := LineAt(s, TokenAt(s, left.pos).next);
        if right.Ok? then Ok(List(left.cmd, right.cmd), right.pos) else Panic
      else left
  }

  // parsecmd(): the whole line must be used up.
  function Parse(s: Line): Parsed {
    var r := LineAt(s, 0);
    if r.Ok? && Skip(s, r.pos) == |s| then Ok(r.cmd, |s|) else Panic
  }

  // ---------------------------------------------------------------- what a tree means

  datatype Tree =
    | Run(words: seq<string>)
    | To(sub: Tree, file: string, output: bool)
    | Piped(left: Tree, right: Tree)
    | Then(left: Tree, right: Tree)
    | Async(sub: Tree)

  // A maximal run of word characters.
  ghost predicate IsWord(s: Line, w: Span) {
    w.q < w.eq <= |s| && (forall i | w.q <= i < w.eq :: IsWordChar(s[i])) && !IsWordChar(At(s, w.eq))
  }

  ghost predicate WellFormed(s: Line, cmd: Cmd) {
    match cmd
    case Exec(argv) => |argv| < MAXARGS && forall k | 0 <= k < |argv| :: IsWord(s, argv[k])
    case Redir(sub, to) => WellFormed(s, sub) && IsWord(s, to.file)
    case Pipe(left, right) => WellFormed(s, left) && WellFormed(s, right)
    case List(left, right) => WellFormed(s, left) && WellFormed(s, right)
    case Back(sub) => WellFormed(s, sub)
  }

  ghost function WordOf(s: Line, w: Span): string
    requires IsWord(s, w)
  {
    s[w.q..w.eq]
  }

  ghost function Text(s: Line, cmd: Cmd): Tree
    requires WellFormed(s, cmd)
  {
    match cmd
    case Exec(argv) => Run(seq(|argv|, k requires 0 <= k < |argv| => WordOf(s, argv[k])))
    case Redir(sub, to) => To(Text(s, sub), WordOf(s, to.file), to.output)
    case Pipe(left, right) => Piped(Text(s, left), Text(s, right))
    case List(left, right) => Then(Text(s, left), Text(s, right))
    case Back(sub) => Async(Text(s, sub))
  }

  // ---------------------------------------------------------------- parsing builds well-formed trees

  ghost predicate AllWords(s: Line, list: seq<Redirection>) {
    forall k | 0 <= k < |list| :: IsWord(s, list[k].file)
  }

  lemma {:induction false} WrapFormed(s: Line, cmd: Cmd, list: seq<Redirection>)
    requires WellFormed(s, cmd) && AllWords(s, list)
    ensures WellFormed(s, Wrap(cmd, list))
    decreases |list|
  {
    if list != [] { WrapFormed(s, cmd, list[..|list| - 1]); }
  }

  lemma {:induction false} WordEndIsMaximal(s: Line, i: nat)
    requires i <= |s|
    ensures forall k | i <= k < WordEnd(s, i) :: IsWordChar(s[k])
    decreases |s| - i
  {
    if i < |s| && IsWordChar(s[i]) { WordEndIsMaximal(s, i + 1); }
  }

  lemma TokenIsWord(s: Line, i: nat)
    requires i <= |s| && TokenAt(s, i).kind == 'a'
    ensures IsWord(s, Span(TokenAt(s, i).q, TokenAt(s, i).eq))
  {
    WordEndIsMaximal(s, Skip(s, i));
  }

  lemma {:induction false} RedirsFormed(s: Line, i: nat, list: seq<Redirection>)
    requires i <= |s| && AllWords(s, list) && RedirsAt(s, i, list).Redirs?
    ensures AllWords(s, RedirsAt(s, i, list).list)
    decreases |s| - i
  {
    if Peek(s, i, "<>") {
      var op := TokenAt(s, i);
      var file := TokenAt(s, op.next);
      TokenIsWord(s, op.next);
      RedirsFormed(s, file.next, list + [Redirection(Span(file.q, file.eq), op.kind != '<')]);
    }
  }

  lemma {:induction false} ArgsFormed(s: Line, i: nat, argv: seq<Span>, list: seq<Redirection>)
    requires i <= |s| && WellFormed(s, Exec(argv)) && AllWords(s, list) && ArgsAt(s, i, argv, list).Ok?
    ensures WellFormed(s, ArgsAt(s, i, argv, list).cmd)
    decreases |s| - i
  {
    WrapFormed(s, Exec(argv), list);
    var t := TokenAt(s, i);
    if !Peek(s, i, "|)&;") && t.kind != '\0' {
      TokenIsWord(s, i);
      RedirsFormed(s, t.next, list);
      var r := RedirsAt(s, t.next, list);
      ArgsFormed(s, r.pos, argv + [Span(t.q, t.eq)], r.list);
    }
  }

  lemma {:induction false} ExecFormed(s: Line, i: nat)
    requires i <= |s| && ExecAt(s, i).Ok?
    ensures WellFormed(s, ExecAt(s, i).cmd)
    decreases |s| - i, 1
  {
    if Peek(s, i, "(") {
      BlockFormed(s, i);
    } else {
      RedirsFormed(s, i, []);
      var r := RedirsAt(s, i, []);
      ArgsFormed(s, r.pos, [], r.list);
    }
  }

  lemma {:induction false} BlockFormed(s: Line, i: nat)
    requires i <= |s| && Peek(s, i, "(") && BlockAt(s, i).Ok?
    ensures WellFormed(s, BlockAt(s, i).cmd)
    decreases |s| - i, 0
  {
    var line := LineAt(s, TokenAt(s, i).next);
    LineFormed(s, TokenAt(s, i).next);
    RedirsFormed(s, TokenAt(s, line.pos).next, []);
    WrapFormed(s, line.cmd, RedirsAt(s, TokenAt(s, line.pos).next, []).list);
  }

  lemma {:induction false} PipeFormed(s: Line, i: nat)
    requires i <= |s| && PipeAt(s, i).Ok?
    ensures WellFormed(s, PipeAt(s, i).cmd)
    decreases |s| - i, 2
  {
    var left := ExecAt(s, i);
    ExecFormed(s, i);
    if Peek(s, left.pos, "|") { PipeFormed(s, TokenAt(s, left.pos).next); }
  }

  lemma {:induction false} BacksFormed(s: Line, i: nat, cmd: Cmd)
    requires i <= |s| && WellFormed(s, cmd)
    ensures WellFormed(s, BacksAt(s, i, cmd).cmd)
    decreases |s| - i
  {
    if Peek(s, i, "&") { BacksFormed(s, TokenAt(s, i).next, Back(cmd)); }
  }

  // Whatever the parser accepts has at most nine arguments per command, and its
  // spans are maximal words of the line.
  lemma {:induction false} LineFormed(s: Line, i: nat)
    requires i <= |s| && LineAt(s, i).Ok?
    ensures WellFormed(s, LineAt(s, i).cmd)
    decreases |s| - i, 3
  {
    var first := PipeAt(s, i);
    PipeFormed(s, i);
    BacksFormed(s, first.pos, first.cmd);
    var left := BacksAt(s, first.pos, first.cmd);
    if Peek(s, left.pos, ";") { LineFormed(s, TokenAt(s, left.pos).next); }
  }
}
