// sh.c: the parsing functions advancing *ps over the line, and nulterminate()
// cutting the buffer into words.

module ShellParser {
  import opened ShellGrammar

  class Parser {
    const s: Line
    var ps: nat

    ghost predicate Valid()
      reads this
    {
      ps <= |s|
    }

    constructor (line: Line)
      ensures Valid() && s == line && ps == 0
    {
      s, ps := line, 0;
    }

    method SkipWhite(i: nat) returns (j: nat)
      requires i <= |s|
      ensures j == Skip(s, i)
    {
      j := i;
      while j < |s| && IsWhite(s[j])
        invariant i <= j <= |s| && Skip(s, j) == Skip(s, i)
      {
        j := j + 1;
      }
    }

    // *p in C: the NUL is readable.
    method CharAt(i: nat) returns (c: char)
      ensures c == At(s, i)
    {
      if i < |s| { c := s[i]; } else { c := '\0'; }
    }

    method GetToken() returns (kind: char, q: nat, eq: nat)
      requires Valid()
      modifies this
      ensures Valid() && Token(kind, q, eq, ps) == TokenAt(s, old(ps))
    {
      var p := SkipWhite(ps);
      q := p;
      kind := CharAt(p);
      if kind == '\0' {
      } else if kind == '|' || kind == '(' || kind == ')' || kind == ';' || kind == '&' || kind == '<' {
        p := p + 1;
      } else if kind == '>' {
        p := p + 1;
        var c := CharAt(p);
        if c == '>' {
          kind := '+';
          p := p + 1;
        }
      } else {
        kind := 'a';
        while p < |s| && !IsWhite(s[p]) && s[p] !in SYMBOLS
          invariant q <= p <= |s| && WordEnd(s, p) == WordEnd(s, q)
        {
          p := p + 1;
        }
      }
      eq := p;
      ps := SkipWhite(p);
    }

    method PeekFor(toks: string) returns (r: bool)
      requires Valid() && '\0' !in toks
      modifies this
      ensures Valid() && ps == Skip(s, old(ps)) && r == Peek(s, old(ps), toks)
    {
      ps := SkipWhite(ps);
      var c := CharAt(ps);
      r := c != '\0' && c in toks;
    }

    // Later redirections are later in the list, and wrap the earlier ones.
    method ParseRedirs(list: seq<Redirection>) returns (ok: bool, out: seq<Redirection>)
      requires Valid()
      modifies this
      ensures Valid() && old(ps) <= ps
      ensures RedirsAt(s, old(ps), list) == if ok then Redirs(out, ps) else NoFile
    {
      out := list;
      SkipTwice(s, ps);
      var more := PeekFor("<>");
      while more
        invariant Valid() && old(ps) <= ps && ps == Skip(s, ps) && more == Peek(s, ps, "<>")
        invariant RedirsAt(s, ps, out) == RedirsAt(s, old(ps), list)
        decreases |s| - ps, more
      {
        var op, _, _ := GetToken();
        var kind, q, eq := GetToken();
        if kind != 'a' { return false, out; }
        out := out + [Redirection(Span(q, eq), op != '<')];
        SkipTwice(s, ps);
        more := PeekFor("<>");
      }
      ok := true;
    }

    method ParseExec() returns (ok: bool, cmd: Cmd)
      requires Valid()
      modifies this
      ensures Valid() && ExecAt(s, old(ps)) == if ok then Ok(cmd, ps) else Panic
      decreases |s| - ps, 1
    {
      cmd := Exec([]);
      SkipTwice(s, ps);
      var open := PeekFor("(");
      if open {
        ok, cmd := ParseBlock();
        return;
      }
      var list;
      ok, list := ParseRedirs([]);
      if !ok { return; }
      ok, cmd := ParseArgs(list);
    }

    // The argument loop of parseexec(). The EXEC node that redirections wrap is
    // filled in as arguments come; here it is built when they are all known.
    method ParseArgs(list0: seq<Redirection>) returns (ok: bool, cmd: Cmd)
      requires Valid()
      modifies this
      ensures Valid() && old(ps) <= ps && ArgsAt(s, old(ps), [], list0) == if ok then Ok(cmd, ps) else Panic
    {
      var argv, list := [], list0;
      cmd := Exec([]);
      SkipTwice(s, ps);
      var stop := PeekFor("|)&;");
      while !stop
        invariant Valid() && old(ps) <= ps && ps == Skip(s, ps) && stop == Peek(s, ps, "|)&;")
        invariant ArgsAt(s, ps, argv, list) == ArgsAt(s, old(ps), [], list0)
        decreases |s| - ps, !stop
      {
        var kind, q, eq := GetToken();
        if kind == '\0' { break; }
        if kind != 'a' { return false, cmd; }
        argv := argv + [Span(q, eq)];
        if |argv| >= MAXARGS { return false, cmd; }
        var good;
        good, list := ParseRedirs(list);
        if !good { return false, cmd; }
        SkipTwice(s, ps);
        stop := PeekFor("|)&;");
      }
      ok, cmd := true, Wrap(Exec(argv), list);
    }

    method ParseBlock() returns (ok: bool, cmd: Cmd)
      requires Valid() && Peek(s, ps, "(")
      modifies this
      ensures Valid() && BlockAt(s, old(ps)) == if ok then Ok(cmd, ps) else Panic
      decreases |s| - ps, 0
    {
      SkipTwice(s, ps);
      var open := PeekFor("(");
      var _, _, _ := GetToken();
      ok, cmd := ParseLine();
      if !ok { return; }
      SkipTwice(s, ps);
      var close := PeekFor(")");
      if !close { return false, cmd; }
      var _, _, _ := GetToken();
      var list;
      ok, list := ParseRedirs([]);
      cmd := Wrap(cmd, list);
    }

    method ParsePipe() returns (ok: bool, cmd: Cmd)
      requires Valid()
      modifies this
      ensures Valid() && PipeAt(s, old(ps)) == if ok then Ok(cmd, ps) else Panic
      decreases |s| - ps, 2
    {
      ok, cmd := ParseExec();
      if !ok { return; }
      SkipTwice(s, ps);
      var bar := PeekFor("|");
      if bar {
        var _, _, _ := GetToken();
        var right;
        ok, right := ParsePipe();
        cmd := Pipe(cmd, right);
      }
    }

    method ParseLine() returns (ok: bool, cmd: Cmd)
      requires Valid()
      modifies this
      ensures Valid() && LineAt(s, old(ps)) == if ok then Ok(cmd, ps) else Panic
      decreases |s| - ps, 3
    {
      ok, cmd := ParsePipe();
      if !ok { return; }
      ghost var first, i := cmd, ps;
      SkipTwice(s, ps);
      var amp := PeekFor("&");
      while amp
        invariant Valid() && i <= ps && ps == Skip(s, ps) && amp == Peek(s, ps, "&")
        invariant BacksAt(s, ps, cmd) == BacksAt(s, i, first)
        decreases |s| - ps, amp
      {
        var _, _, _ := GetToken();
        cmd := Back(cmd);
        SkipTwice(s, ps);
        amp := PeekFor("&");
      }
      SkipTwice(s, ps);
      var semi := PeekFor(";");
      if semi {
        var _, _, _ := GetToken();
        var right;
        ok, right := ParseLine();
        cmd := List(cmd, right);
      }
    }
  }

  // White space before a phrase does not matter.
  lemma SkipTwice(s: Line, i: nat)
    requires i <= |s|
    ensures Skip(s, Skip(s, i)) == Skip(s, i)
    ensures TokenAt(s, Skip(s, i)) == TokenAt(s, i)
    ensures forall list :: RedirsAt(s, Skip(s, i), list) == RedirsAt(s, i, list)
    ensures forall argv, list :: ArgsAt(s, Skip(s, i), argv, list) == ArgsAt(s, i, argv, list)
    ensures forall cmd :: BacksAt(s, Skip(s, i), cmd) == BacksAt(s, i, cmd)
    ensures Peek(s, i, "(") ==> BlockAt(s, Skip(s, i)) == BlockAt(s, i)
  {
  }
}
