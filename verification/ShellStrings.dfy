// sh.c: nulterminate() writes NULs into the line so that every span of the tree
// reads as a C string, and parsecmd() puts the pieces together.

module ShellStrings {
  import opened ShellGrammar
  import opened ShellParser

  // Where the words of a tree end.
  ghost function Ends(cmd: Cmd): set<nat> {
    match cmd
    case Exec(argv) => set k | 0 <= k < |argv| :: argv[k].eq
    case Redir(sub, to) => Ends(sub) + {to.file.eq}
    case Pipe(left, right) => Ends(left) + Ends(right)
    case List(left, right) => Ends(left) + Ends(right)
    case Back(sub) => Ends(sub)
  }

  // What C reads at b + q.
  function CString(b: seq<char>, q: nat): string
    decreases |b| - q
  {
    if q >= |b| || b[q] == '\0' then "" else [b[q]] + CString(b, q + 1)
  }

  function Strings(b: seq<char>, cmd: Cmd): Tree {
    match cmd
    case Exec(argv) => Run(seq(|argv|, k requires 0 <= k < |argv| => CString(b, argv[k].q)))
    case Redir(sub, to) => To(Strings(b, sub), CString(b, to.file.q), to.output)
    case Pipe(left, right) => Piped(Strings(b, left), Strings(b, right))
    case List(left, right) => Then(Strings(b, left), Strings(b, right))
    case Back(sub) => Async(Strings(b, sub))
  }

  // b is the line with NULs at `ends`, none of them inside a word.
  ghost predicate CutAt(s: Line, b: seq<char>, ends: set<nat>) {
    && |b| == |s| + 1
    && (forall e | e in ends :: e <= |s| && !IsWordChar(At(s, e)))
    && (forall k: nat | k <= |s| :: b[k] == if k in ends then '\0' else At(s, k))
  }

  lemma {:induction false} EndsOutsideWords(s: Line, cmd: Cmd)
    requires WellFormed(s, cmd)
    ensures forall e | e in Ends(cmd) :: e <= |s| && !IsWordChar(At(s, e))
  {
    match cmd
    case Exec(argv) =>
    case Redir(sub, to) => EndsOutsideWords(s, sub);
    case Pipe(left, right) => EndsOutsideWords(s, left); EndsOutsideWords(s, right);
    case List(left, right) => EndsOutsideWords(s, left); EndsOutsideWords(s, right);
    case Back(sub) => EndsOutsideWords(s, sub);
  }

  lemma {:induction false} WordReads(s: Line, b: seq<char>, ends: set<nat>, q: nat, eq: nat)
    requires CutAt(s, b, ends) && eq in ends && q <= eq && forall i | q <= i < eq :: IsWordChar(s[i])
    ensures CString(b, q) == s[q..eq]
    decreases eq - q
  {
    if q < eq {
      assert b[q] == s[q];
      WordReads(s, b, ends, q + 1, eq);
      assert s[q..eq] == [s[q]] + s[q + 1..eq];
    }
  }

  // However many words were cut, each one still reads as it was parsed.
  lemma {:induction false} StringsAreText(s: Line, b: seq<char>, ends: set<nat>, cmd: Cmd)
    requires WellFormed(s, cmd) && CutAt(s, b, ends) && Ends(cmd) <= ends
    ensures Strings(b, cmd) == Text(s, cmd)
  {
    match cmd
    case Exec(argv) =>
      forall k | 0 <= k < |argv| ensures CString(b, argv[k].q) == WordOf(s, argv[k]) {
        assert argv[k].eq in Ends(cmd);
        WordReads(s, b, ends, argv[k].q, argv[k].eq);
      }
    case Redir(sub, to) =>
      StringsAreText(s, b, ends, sub);
      WordReads(s, b, ends, to.file.q, to.file.eq);
    case Pipe(left, right) => StringsAreText(s, b, ends, left); StringsAreText(s, b, ends, right);
    case List(left, right) => StringsAreText(s, b, ends, left); StringsAreText(s, b, ends, right);
    case Back(sub) => StringsAreText(s, b, ends, sub);
  }

  // Exactly the ends of the words become NUL.
  method NulTerminate(b: array<char>, cmd: Cmd)
    requires forall e | e in Ends(cmd) :: e < b.Length
    modifies b
    ensures forall k: nat | k < b.Length :: b[k] == if k in Ends(cmd) then '\0' else old(b[k])
    decreases cmd
  {
    match cmd
    case Exec(argv) =>
      assert forall k: nat | k < |argv| :: argv[k].eq in Ends(cmd);
      for i := 0 to |argv|
        invariant forall k: nat | k < b.Length ::
          b[k] == if exists j :: 0 <= j < i && argv[j].eq == k then '\0' else old(b[k])
      {
        b[argv[i].eq] := '\0';
      }
    case Redir(sub, to) =>
      assert Ends(cmd) == Ends(sub) + {to.file.eq};
      NulTerminate(b, sub);
      b[to.file.eq] := '\0';
    case Pipe(left, right) =>
      assert Ends(cmd) == Ends(left) + Ends(right);
      NulTerminate(b, left);
      NulTerminate(b, right);
    case List(left, right) =>
      assert Ends(cmd) == Ends(left) + Ends(right);
      NulTerminate(b, left);
      NulTerminate(b, right);
    case Back(sub) =>
      assert Ends(cmd) == Ends(sub);
      NulTerminate(b, sub);
  }

  // parsecmd() on a buffer: the tree of the line up to its first NUL, and a
  // buffer in which every word of the tree is a C string. It stops (panics)
  // exactly when the grammar rejects the line.
  method ParseCmd(b: array<char>, ghost line: Line) returns (ok: bool, cmd: Cmd)
    requires |line| < b.Length && b[..|line| + 1] == line + "\0"
    modifies b
    ensures ok <==> Parse(line).Ok?
    ensures ok ==> cmd == Parse(line).cmd && WellFormed(line, cmd) && Strings(b[..|line| + 1], cmd) == Text(line, cmd)
    ensures !ok ==> b[..] == old(b[..])
  {
    var n := 0;
    while b[n] != '\0'
      invariant n <= |line| && b[..] == old(b[..])
      decreases |line| - n
    {
      assert b[n] == b[..|line| + 1][n];
      n := n + 1;
    }
    assert n == |line| by { assert b[n] == (line + "\0")[n]; }
    var text := b[..n];
    assert text == line by { assert b[..n] == b[..n + 1][..n]; }
    var p := new Parser(text);
    ok, cmd := p.ParseLine();
    if !ok { return; }
    p.ps := p.SkipWhite(p.ps);
    if p.ps != n { return false, cmd; }
    LineFormed(line, 0);
    EndsOutsideWords(line, cmd);
    ghost var before := b[..n + 1];
    NulTerminate(b, cmd);
    ghost var after := b[..n + 1];
    assert CutAt(line, after, Ends(cmd)) by {
      assert forall k: nat | k <= n :: before[k] == At(line, k);
    }
    StringsAreText(line, after, Ends(cmd), cmd);
  }
}
