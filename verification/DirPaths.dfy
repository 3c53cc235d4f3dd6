// fs.c's path walk: skipelem() and namex().

module DirPaths {
  import opened Wrappers
  import opened DirTree
  import opened DirLinks

  const DIRSIZ := 14

  function SkipSlashes(path: string, i: nat): (r: nat)
    requires i <= |path|
    ensures i <= r <= |path| && (r < |path| ==> path[r] != '/')
    decreases |path| - i
  {
    if i < |path| && path[i] == '/' then SkipSlashes(path, i + 1) else i
  }

  function ElemEnd(path: string, i: nat): (r: nat)
    requires i <= |path|
    ensures i <= r <= |path| && (r < |path| ==> path[r] == '/') && (i < |path| && path[i] != '/' ==> r > i)
    decreases |path| - i
  {
    if i < |path| && path[i] != '/' then ElemEnd(path, i + 1) else i
  }

  // Names longer than a directory entry are cut.
  function Cut(name: string): (r: string)
    ensures |r| <= DIRSIZ
  {
    if |name| >= DIRSIZ then name[..DIRSIZ] else name
  }

  // The elements of a path, empty ones dropped.
  function Elements(path: string, i: nat): seq<string>
    requires i <= |path|
    decreases |path| - i
  {
    var j := SkipSlashes(path, i);
    if j == |path| then [] else [Cut(path[j..ElemEnd(path, j)])] + Elements(path, ElemEnd(path, j))
  }

  // ---------------------------------------------------------------- what the elements are

  predicate AllSlashes(s: string) {
    Slashes(s, 0, |s|)
  }

  predicate Slashes(s: string, a: nat, b: nat)
    requires b <= |s|
  {
    forall k | a <= k < b :: s[k] == '/'
  }

  predicate ProperName(name: string) {
    name != "" && '/' !in name
  }

  // A path spelled out: each name with its slashes in front, and slashes at the end.
  function Spell(gaps: seq<string>, names: seq<string>, tail: string): string
    requires |gaps| == |names|
  {
    if names == [] then tail else gaps[0] + names[0] + Spell(gaps[1..], names[1..], tail)
  }

  // Names are kept apart by at least one slash; in front and at the end there may be any.
  predicate Spells(gaps: seq<string>, names: seq<string>, tail: string) {
    && |gaps| == |names| && AllSlashes(tail) && (forall k | 0 <= k < |gaps| :: AllSlashes(gaps[k]))
    && (forall k | 1 <= k < |gaps| :: gaps[k] != "") && forall k | 0 <= k < |names| :: ProperName(names[k])
  }

  // Position i of the path is followed by exactly this text.
  predicate Rest(path: string, i: nat, text: string) {
    i <= |path| && path[i..] == text
  }

  lemma {:induction false} SkipTo(path: string, i: nat, gap: string, rest: string)
    requires Rest(path, i, gap + rest) && AllSlashes(gap) && (rest == "" || rest[0] != '/')
    ensures SkipSlashes(path, i) == i + |gap| && Rest(path, i + |gap|, rest)
    decreases |gap|
  {
    if gap == "" {
      assert gap + rest == rest;
      assert rest != "" ==> path[i] == rest[0];
    } else {
      assert gap + rest == [gap[0]] + (gap[1..] + rest);
      assert path[i] == (gap + rest)[0] == '/';
      assert path[i + 1..] == path[i..][1..];
      SkipTo(path, i + 1, gap[1..], rest);
    }
  }

  lemma {:induction false} EndOf(path: string, i: nat, name: string, rest: string)
    requires Rest(path, i, name + rest) && '/' !in name && (rest == "" || rest[0] == '/')
    ensures ElemEnd(path, i) == i + |name| && path[i..i + |name|] == name && Rest(path, i + |name|, rest)
    decreases |name|
  {
    if name == "" {
      assert name + rest == rest;
      assert rest != "" ==> path[i] == rest[0];
    } else {
      assert path[i] == (name + rest)[0] == name[0];
      assert path[i + 1..] == path[i..][1..] == name[1..] + rest;
      assert name[0] in name;
      EndOf(path, i + 1, name[1..], rest);
      assert path[i..i + |name|] == path[i..][..|name|] == name;
    }
  }

  // What a directory entry can hold of a name.
  function Short(name: string): (r: string) {
    if |name| <= 14 then name else name[..14]
  }

  function Shortened(names: seq<string>): seq<string> {
    if names == [] then [] else [Short(names[0])] + Shortened(names[1..])
  }

  lemma FirstElement(path: string, i: nat, j: nat, e: nat, name: string, more: seq<string>)
    requires i <= j < e <= |path| && SkipSlashes(path, i) == j && ElemEnd(path, j) == e && path[j..e] == name
    requires more == Elements(path, e)
    ensures Elements(path, i) == [Short(name)] + more
  {
    assert |name| == 14 ==> name[..14] == name;
  }

  lemma NextElement(path: string, i: nat, gap: string, name: string, rest: string, e: nat, more: seq<string>)
    requires Rest(path, i, gap + (name + rest)) && AllSlashes(gap) && ProperName(name) && (rest == "" || rest[0] == '/')
    requires e == i + |gap| + |name| && (e <= |path| ==> more == Elements(path, e))
    ensures Rest(path, e, rest) && Elements(path, i) == [Short(name)] + more
  {
    var j := i + |gap|;
    assert SkipSlashes(path, i) == j && Rest(path, j, name + rest) by {
      assert (name + rest)[0] == name[0] && name[0] in name;
      SkipTo(path, i, gap, name + rest);
    }
    assert ElemEnd(path, j) == e && path[j..e] == name && Rest(path, e, rest) by { EndOf(path, j, name, rest); }
    FirstElement(path, i, j, e, name, more);
  }

  lemma SpellsMore(gaps: seq<string>, names: seq<string>, tail: string)
    requires Spells(gaps, names, tail) && names != []
    ensures Spells(gaps[1..], names[1..], tail)
    ensures var more := Spell(gaps[1..], names[1..], tail);
      && Spell(gaps, names, tail) == gaps[0] + (names[0] + more) && (more == "" || more[0] == '/')
  {
    if |names| > 1 { assert gaps[1] != "" && gaps[1][0] == '/'; }
  }

  // The elements of a path are its names, each cut to its first fourteen characters,
  // however many slashes stand between them, in front or at the end.
  lemma {:induction false} ElementsOfPath(path: string, i: nat, gaps: seq<string>, names: seq<string>, tail: string)
    requires Spells(gaps, names, tail) && Rest(path, i, Spell(gaps, names, tail))
    ensures Elements(path, i) == Shortened(names)
    decreases |names|
  {
    if names == [] {
      assert tail + "" == tail;
      SkipTo(path, i, tail, "");
    } else {
      var e := i + |gaps[0]| + |names[0]|;
      var rest := Spell(gaps[1..], names[1..], tail);
      SpellsMore(gaps, names, tail);
      RestOn(path, i, gaps[0], names[0], rest, e);
      ElementsOfPath(path, e, gaps[1..], names[1..], tail);
      NextElement(path, i, gaps[0], names[0], rest, e, Shortened(names[1..]));
    }
  }

  lemma RestOn(path: string, i: nat, gap: string, name: string, rest: string, e: nat)
    requires Rest(path, i, gap + (name + rest)) && e == i + |gap| + |name|
    ensures Rest(path, e, rest)
  {
    var text := gap + (name + rest);
    assert path[e..] == path[i..][|gap| + |name|..] == text[|gap| + |name|..] == rest;
  }

  lemma {:induction false} SkipsSlashes(path: string, i: nat)
    requires i <= |path|
    ensures AllSlashes(path[i..SkipSlashes(path, i)])
    decreases |path| - i
  {
    if i < |path| && path[i] == '/' {
      SkipsSlashes(path, i + 1);
      assert path[i..SkipSlashes(path, i)] == [path[i]] + path[i + 1..SkipSlashes(path, i)];
    }
  }

  lemma {:induction false} KeepsToName(path: string, i: nat)
    requires i <= |path|
    ensures '/' !in path[i..ElemEnd(path, i)]
    decreases |path| - i
  {
    if i < |path| && path[i] != '/' {
      KeepsToName(path, i + 1);
      assert path[i..ElemEnd(path, i)] == [path[i]] + path[i + 1..ElemEnd(path, i)];
    }
  }

  // Every path is spelled out in this way.
  lemma {:induction false} EveryPathSpells(path: string) returns (gaps: seq<string>, names: seq<string>, tail: string)
    ensures Spells(gaps, names, tail) && Spell(gaps, names, tail) == path
    ensures names != [] && path[0] == '/' ==> gaps[0] != ""
    decreases |path|
  {
    var j := SkipSlashes(path, 0);
    SkipsSlashes(path, 0);
    assert path[0..j] == path[..j];
    if j == |path| {
      gaps, names, tail := [], [], path;
    } else {
      var e := ElemEnd(path, j);
      KeepsToName(path, j);
      var gaps1, names1;
      gaps1, names1, tail := EveryPathSpells(path[e..]);
      gaps, names := [path[..j]] + gaps1, [path[j..e]] + names1;
      assert gaps[1..] == gaps1 && names[1..] == names1;
      assert path == path[..j] + path[j..e] + path[e..];
    }
  }

  // The walk along names from inode i.
  function Walk(t: seq<Inode>, i: nat, names: seq<string>): Option<nat>
    decreases |names|
  {
    if names == [] then Some(i)
    else if i >= |t| || !t[i].kind.Dir? then None
    else
      var k := Lookup(t[i].entries, names[0], 0);
      if k == |t[i].entries| then None else Walk(t, t[i].entries[k].inum, names[1..])
  }

  // The directory of the last element, for nameiparent().
  function WalkParent(t: seq<Inode>, i: nat, names: seq<string>): Option<nat> {
    if names == [] then None
    else
      match Walk(t, i, names[..|names| - 1])
      case None => None
      case Some(d) => if d < |t| && t[d].kind.Dir? then Some(d) else None
  }

  lemma StepLinked(t: seq<Inode>, depth: seq<nat>, i: nat, name: string, k: nat)
    requires Inv(t, depth) && 0 < i < |t| && LinkedDir(t[i]) && k < |t[i].entries|
    requires t[i].entries[k].inum != 0 && t[i].entries[k].name == name
    ensures 0 < t[i].entries[k].inum < |t| && t[t[i].entries[k].inum].nlink > 0
  {
    assert DirOk(t, i);
    if name == "." {
      assert t[i].entries[0].inum != 0;
    } else {
      LinkedIsUsed(t, t[i].entries[k].inum, i, k);
    }
  }

  // From a linked directory a walk only meets linked inodes.
  lemma {:induction false} WalkLinked(t: seq<Inode>, depth: seq<nat>, i: nat, names: seq<string>)
    requires Inv(t, depth) && 0 < i < |t| && t[i].nlink > 0 && Walk(t, i, names).Some?
    ensures 0 < Walk(t, i, names).value < |t| && t[Walk(t, i, names).value].nlink > 0
    decreases |names|
  {
    if names != [] {
      var k := Lookup(t[i].entries, names[0], 0);
      StepLinked(t, depth, i, names[0], k);
      WalkLinked(t, depth, t[i].entries[k].inum, names[1..]);
    }
  }

  // Walks do not look at link counts.
  lemma {:induction false} WalkSame(t: seq<Inode>, t': seq<Inode>, i: nat, names: seq<string>)
    requires |t'| == |t| && forall x | 0 <= x < |t| :: t'[x].kind == t[x].kind && t'[x].entries == t[x].entries
    ensures Walk(t', i, names) == Walk(t, i, names)
    decreases |names|
  {
    if names != [] && i < |t| && t[i].kind.Dir? {
      var k := Lookup(t[i].entries, names[0], 0);
      if k < |t[i].entries| { WalkSame(t, t', t[i].entries[k].inum, names[1..]); }
    }
  }

  lemma {:induction false} WalkMore(t: seq<Inode>, i: nat, names: seq<string>, name: string)
    ensures Walk(t, i, names + [name]) ==
      match Walk(t, i, names) case None => None case Some(j) => Walk(t, j, [name])
    decreases |names|
  {
    if names == [] {
      assert names + [name] == [name];
    } else {
      assert (names + [name])[0] == names[0] && (names + [name])[1..] == names[1..] + [name];
      if i < |t| && t[i].kind.Dir? {
        var k := Lookup(t[i].entries, names[0], 0);
        if k < |t[i].entries| { WalkMore(t, t[i].entries[k].inum, names[1..], name); }
      }
    }
  }

  // The name in path[s..e], with slashes in front from i and behind it up to next.
  predicate ElemBetween(path: string, i: nat, s: nat, e: nat, next: nat, name: string) {
    && i <= s < e <= next <= |path| && Slashes(path, i, s) && Slashes(path, e, next)
    && (forall k | s <= k < e :: path[k] != '/')
    && (next < |path| ==> e < next && path[next] != '/')
    && name == if e - s <= 14 then path[s..e] else path[s..s + 14]
  }

  lemma NoElem(path: string, i: nat)
    requires i <= |path| && SkipSlashes(path, i) == |path|
    ensures Elements(path, i) == [] && Slashes(path, i, |path|)
  {
    SkipsSlashes(path, i);
    assert forall k | i <= k < |path| :: path[k] == path[i..][k - i];
  }

  lemma ElemIs(path: string, i: nat, s: nat, e: nat, next: nat, name: string)
    requires i <= s < |path| && SkipSlashes(path, i) == s && ElemEnd(path, s) == e && SkipSlashes(path, e) == next
    requires name == if e - s >= DIRSIZ then path[s..s + DIRSIZ] else path[s..e]
    ensures ElemBetween(path, i, s, e, next, name) && !Slashes(path, i, |path|)
    ensures Elements(path, i) == [name] + Elements(path, next) && (next == |path| <==> Elements(path, next) == [])
  {
    SkipsSlashes(path, i);
    KeepsToName(path, s);
    SkipsSlashes(path, e);
    assert forall k | i <= k < s :: path[k] == path[i..s][k - i];
    assert forall k | s <= k < e :: path[k] == path[s..e][k - s];
    assert forall k | e <= k < next :: path[k] == path[e..next][k - e];
    if e - s >= DIRSIZ { assert path[s..e][..DIRSIZ] == name; }
  }

  // The next element and where the rest starts; None at the end of the path.
  method SkipElem(path: string, i: nat) returns (r: Option<string>, next: nat)
    requires i <= |path|
    ensures r.None? <==> Slashes(path, i, |path|)
    ensures r.Some? ==> exists s, e :: ElemBetween(path, i, s, e, next, r.value)
    ensures r.None? <==> Elements(path, i) == []
    ensures r.Some? ==> i < next <= |path| && Elements(path, i) == [r.value] + Elements(path, next)
    ensures r.Some? ==> (next == |path| <==> Elements(path, next) == [])
  {
    var p := i;
    while p < |path| && path[p] == '/'
      invariant i <= p <= |path| && SkipSlashes(path, p) == SkipSlashes(path, i)
    {
      p := p + 1;
    }
    if p == |path| {
      NoElem(path, i);
      return None, p;
    }
    var s := p;
    while p < |path| && path[p] != '/'
      invariant s <= p <= |path| && ElemEnd(path, p) == ElemEnd(path, s)
    {
      p := p + 1;
    }
    var name := if p - s >= DIRSIZ then path[s..s + DIRSIZ] else path[s..p];
    ghost var e := p;
    while p < |path| && path[p] == '/'
      invariant e <= p <= |path| && SkipSlashes(path, p) == SkipSlashes(path, e)
    {
      p := p + 1;
    }
    ElemIs(path, i, s, e, p, name);
    r, next := Some(name), p;
  }

  // One step of a walk, and of a walk to the parent.
  lemma WalkStep(t: seq<Inode>, i: nat, names: seq<string>)
    requires names != []
    ensures i >= |t| || !t[i].kind.Dir? ==> Walk(t, i, names).None? && WalkParent(t, i, names).None?
    ensures i < |t| && t[i].kind.Dir? ==>
      var k := Lookup(t[i].entries, names[0], 0);
      && Walk(t, i, names) == (if k == |t[i].entries| then None else Walk(t, t[i].entries[k].inum, names[1..]))
      && WalkParent(t, i, names) ==
        if |names| == 1 then Some(i)
        else if k == |t[i].entries| then None
        else WalkParent(t, t[i].entries[k].inum, names[1..])
  {
    if |names| > 1 { assert names[..|names| - 1][1..] == names[1..][..|names| - 2]; }
  }

  // A path that starts with a slash is looked up from the root.
  function From(cwd: nat, path: string): nat {
    if path != "" && path[0] == '/' then ROOT else cwd
  }

  function Resolve(t: seq<Inode>, cwd: nat, path: string): Option<nat> {
    Walk(t, From(cwd, path), Elements(path, 0))
  }

  function ResolveParent(t: seq<Inode>, cwd: nat, path: string): Option<nat> {
    WalkParent(t, From(cwd, path), Elements(path, 0))
  }

  // namex() on a tree t.
  method Namex(t: seq<Inode>, cwd: nat, path: string, parent: bool) returns (r: Option<nat>, name: string)
    ensures !parent ==> r == Resolve(t, cwd, path)
    ensures parent ==> r == ResolveParent(t, cwd, path)
    ensures parent && r.Some? ==> Elements(path, 0) != [] && name == Elements(path, 0)[|Elements(path, 0)| - 1]
  {
    ghost var names := Elements(path, 0);
    ghost var rest := names;
    var ip: nat, at: nat := if path != "" && path[0] == '/' then ROOT else cwd, 0;
    ghost var first := ip;
    name := "";
    while true
      invariant at <= |path| && rest == Elements(path, at) && |rest| <= |names|
      invariant if parent then WalkParent(t, ip, rest) == WalkParent(t, first, names)
                else Walk(t, ip, rest) == Walk(t, first, names)
      invariant rest != [] ==> rest[|rest| - 1] == names[|names| - 1]
      decreases |path| - at
    {
      var elem, next := SkipElem(path, at);
      if elem.None? { break; }
      name := elem.value;
      WalkStep(t, ip, rest);
      if ip >= |t| || !t[ip].kind.Dir? { return None, name; }
      if parent && next == |path| { return Some(ip), name; }
      var k := Dirlookup(t[ip].entries, name);
      if k == |t[ip].entries| { return None, name; }
      rest := rest[1..];
      ip, at := t[ip].entries[k].inum, next;
    }
    if parent { return None, name; }
    r := Some(ip);
  }

  // dirlookup(): the index of the entry, or the number of entries.
  method Dirlookup(e: seq<Dirent>, name: string) returns (k: nat)
    ensures k == Lookup(e, name, 0) && (k < |e| <==> Has(e, name))
  {
    LookupFinds(e, name, 0);
    k := 0;
    while k < |e|
      invariant k <= |e| && Lookup(e, name, k) == Lookup(e, name, 0)
    {
      if e[k].inum != 0 && e[k].name == name { return; }
      k := k + 1;
    }
  }
}
