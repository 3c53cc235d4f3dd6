// The pattern matcher of grep.c, and the language of its patterns.

module Grep {

  // ---------------------------------------------------------------- the language

  // A pattern is a sequence of pieces. "x*" is a star whatever x is, "$" is an
  // anchor only at the end, and a star with nothing before it is a literal.
  datatype Piece = One(c: char) | Star(c: char) | End

  function Pieces(re: string): seq<Piece> {
    if re == "" then []
    else if |re| > 1 && re[1] == '*' then [Star(re[0])] + Pieces(re[2..])
    else if re == "$" then [End]
    else [One(re[0])] + Pieces(re[1..])
  }

  predicate Fits(c: char, x: char) {
    c == '.' || c == x
  }

  // Piece p accepts text[a..b].
  ghost predicate Accepts(p: Piece, text: string, a: nat, b: nat) {
    && a <= b <= |text|
    && match p
       case One(c) => b == a + 1 && Fits(c, text[a])
       case Star(c) => forall i | a <= i < b :: Fits(c, text[i])
       case End => a == b == |text|
  }

  // cuts divides text[cuts[0]..cuts[last]] into one stretch per piece.
  ghost predicate Reads(ps: seq<Piece>, text: string, cuts: seq<nat>) {
    && |cuts| == |ps| + 1
    && cuts[|ps|] <= |text|
    && forall k | 0 <= k < |ps| :: Accepts(ps[k], text, cuts[k], cuts[k + 1])
  }

  // Some substring is in the language of the pattern; a leading "^" pins its start.
  ghost predicate Matches(re: string, text: string) {
    if re != "" && re[0] == '^' then exists cuts :: Reads(Pieces(re[1..]), text, cuts) && cuts[0] == 0
    else exists cuts :: Reads(Pieces(re), text, cuts)
  }

  // ---------------------------------------------------------------- the code's recursion

  // matchhere() at text + j.
  predicate Here(re: string, text: string, j: nat)
    requires j <= |text|
    decreases |re|, |text| - j, 0
  {
    if re == "" then true
    else if |re| > 1 && re[1] == '*' then StarHere(re[0], re[2..], text, j)
    else if re == "$" then j == |text|
    else j < |text| && Fits(re[0], text[j]) && Here(re[1..], text, j + 1)
  }

  // matchstar() at text + j.
  predicate StarHere(c: char, re: string, text: string, j: nat)
    requires j <= |text|
    decreases |re|, |text| - j, 1
  {
    Here(re, text, j) || (j < |text| && Fits(c, text[j]) && StarHere(c, re, text, j + 1))
  }

  lemma {:induction false} StarIff(c: char, re: string, text: string, j: nat)
    requires j <= |text|
    ensures StarHere(c, re, text, j) <==>
      exists b :: j <= b <= |text| && Accepts(Star(c), text, j, b) && Here(re, text, b)
    decreases |text| - j
  {
    if j < |text| {
      StarIff(c, re, text, j + 1);
      if StarHere(c, re, text, j) && !Here(re, text, j) {
        var b :| j + 1 <= b <= |text| && Accepts(Star(c), text, j + 1, b) && Here(re, text, b);
        assert Accepts(Star(c), text, j, b);
      }
      if b :| j <= b <= |text| && Accepts(Star(c), text, j, b) && Here(re, text, b) {
        if b > j { assert Accepts(Star(c), text, j + 1, b); }
      }
    }
    if Here(re, text, j) { assert Accepts(Star(c), text, j, j); }
  }

  // ---------------------------------------------------------------- soundness and completeness

  lemma ReadsMore(p: Piece, ps: seq<Piece>, text: string, j: nat, cuts: seq<nat>)
    requires Reads(ps, text, cuts) && Accepts(p, text, j, cuts[0])
    ensures Reads([p] + ps, text, [j] + cuts)
  {
  }

  lemma ReadsRest(ps: seq<Piece>, text: string, cuts: seq<nat>)
    requires Reads(ps, text, cuts) && ps != []
    ensures Accepts(ps[0], text, cuts[0], cuts[1]) && Reads(ps[1..], text, cuts[1..])
  {
  }

  lemma {:induction false} Sound(re: string, text: string, j: nat) returns (cuts: seq<nat>)
    requires j <= |text| && Here(re, text, j)
    ensures Reads(Pieces(re), text, cuts) && cuts[0] == j
    decreases |re|
  {
    if re == "" {
      cuts := [j];
    } else if |re| > 1 && re[1] == '*' {
      StarIff(re[0], re[2..], text, j);
      var b :| j <= b <= |text| && Accepts(Star(re[0]), text, j, b) && Here(re[2..], text, b);
      cuts := Sound(re[2..], text, b);
      ReadsMore(Star(re[0]), Pieces(re[2..]), text, j, cuts);
      cuts := [j] + cuts;
    } else if re == "$" {
      cuts := [j, j];
    } else {
      cuts := Sound(re[1..], text, j + 1);
      ReadsMore(One(re[0]), Pieces(re[1..]), text, j, cuts);
      cuts := [j] + cuts;
    }
  }

  lemma {:induction false} Complete(re: string, text: string, cuts: seq<nat>)
    requires Reads(Pieces(re), text, cuts)
    ensures cuts[0] <= |text| && Here(re, text, cuts[0])
    decreases |re|
  {
    if re == "" {
    } else if |re| > 1 && re[1] == '*' {
      ReadsRest(Pieces(re), text, cuts);
      assert Pieces(re)[1..] == Pieces(re[2..]);
      Complete(re[2..], text, cuts[1..]);
      StarIff(re[0], re[2..], text, cuts[0]);
    } else if re == "$" {
      ReadsRest(Pieces(re), text, cuts);
    } else {
      ReadsRest(Pieces(re), text, cuts);
      assert Pieces(re)[1..] == Pieces(re[1..]);
      Complete(re[1..], text, cuts[1..]);
    }
  }

  // matchhere() succeeds exactly when a prefix of text + j is in the language.
  lemma HereIff(re: string, text: string, j: nat)
    requires j <= |text|
    ensures Here(re, text, j) <==> exists cuts :: Reads(Pieces(re), text, cuts) && cuts[0] == j
  {
    if Here(re, text, j) { var cuts := Sound(re, text, j); }
    if cuts :| Reads(Pieces(re), text, cuts) && cuts[0] == j { Complete(re, text, cuts); }
  }

  // ---------------------------------------------------------------- the loops

  method MatchHere(re: string, text: string, j: nat) returns (r: bool)
    requires j <= |text|
    ensures r == Here(re, text, j)
    decreases |re|, |text| - j, 0
  {
    if re == "" { return true; }
    if |re| > 1 && re[1] == '*' {
      r := MatchStar(re[0], re[2..], text, j);
      return;
    }
    if re == "$" { return j == |text|; }
    if j < |text| && (re[0] == '.' || re[0] == text[j]) {
      r := MatchHere(re[1..], text, j + 1);
      return;
    }
    r := false;
  }

  method MatchStar(c: char, re: string, text: string, j: nat) returns (r: bool)
    requires j <= |text|
    ensures r == StarHere(c, re, text, j)
    decreases |re|, |text| - j, 1
  {
    var p := j;
    while true
      invariant j <= p <= |text|
      invariant StarHere(c, re, text, p) == StarHere(c, re, text, j)
      decreases |text| - p
    {
      r := MatchHere(re, text, p);
      if r { return; }
      if p == |text| { return false; }
      p := p + 1;
      if !(text[p - 1] == c || c == '.') { return false; }
    }
  }

  // match(): true exactly when the pattern matches somewhere. The empty string
  // at the end of the text is tried too.
  method Match(re: string, text: string) returns (r: bool)
    ensures r <==> Matches(re, text)
  {
    if re != "" && re[0] == '^' {
      HereIff(re[1..], text, 0);
      r := MatchHere(re[1..], text, 0);
      return;
    }
    var p := 0;
    while true
      invariant p <= |text|
      invariant forall k: nat | k < p :: !Here(re, text, k)
      decreases |text| - p
    {
      HereIff(re, text, p);
      r := MatchHere(re, text, p);
      if r { return; }
      if p == |text| { break; }
      p := p + 1;
    }
    forall cuts | Reads(Pieces(re), text, cuts) ensures false {
      Complete(re, text, cuts);
    }
  }
}
