// The producer's cut of the input files into chunks, and the written file format.

module PzipChunks {
  import opened PzipEncode

  datatype File = Unreadable | Contents(bytes: seq<byte>)

  function Ceiling(num1: nat, num2: nat): nat
    requires num2 > 0
  {
    num1 / num2 + (if num1 % num2 != 0 then 1 else 0)
  }

  // Cutting from the front until nothing is left.
  function ChunksOf(file: seq<byte>, chunkSz: nat): (cs: seq<seq<byte>>)
    requires chunkSz > 0
  {
    if file == [] then []
    else if |file| <= chunkSz then [file]
    else [file[..chunkSz]] + ChunksOf(file[chunkSz..], chunkSz)
  }

  // No byte is lost or repeated, and every chunk fits.
  lemma {:induction false} ChunksCover(file: seq<byte>, chunkSz: nat)
    requires chunkSz > 0
    ensures Flatten(ChunksOf(file, chunkSz)) == file
    ensures forall i | 0 <= i < |ChunksOf(file, chunkSz)| :: 0 < |ChunksOf(file, chunkSz)[i]| <= chunkSz
  {
    if |file| > chunkSz {
      ChunksCover(file[chunkSz..], chunkSz);
      var rest := ChunksOf(file[chunkSz..], chunkSz);
      FlattenOne(file[..chunkSz], rest);
      assert file[..chunkSz] + file[chunkSz..] == file;
    } else if file != [] {
      FlattenOne(file, []);
    }
  }

  lemma FlattenOne<T>(a: seq<T>, rest: seq<seq<T>>)
    ensures Flatten([a] + rest) == a + Flatten(rest)
  {
    assert ([a] + rest)[1..] == rest;
  }

  lemma DivByAdding(r: nat, k: nat)
    requires 0 < k <= r
    ensures r / k == (r - k) / k + 1 && r % k == (r - k) % k
  {
    var d, m := (r - k) / k, (r - k) % k;
    assert r == (d + 1) * k + m by { assert (d + 1) * k == d * k + k; }
    DivModUnique(r, k, d + 1, m);
  }

  lemma DivModUnique(r: nat, k: nat, d: nat, m: nat)
    requires k > 0 && r == d * k + m && m < k
    ensures r / k == d && r % k == m
  {
    var e := r / k - d;
    assert e * k == r / k * k - d * k;
    assert -1 * k < e * k < 1 * k;
    assert -1 < e < 1;
  }

  lemma CeilingStep(r: nat, k: nat)
    requires 0 < k && 0 < r
    ensures r < k ==> Ceiling(r, k) == 1 && r % k == r
    ensures r == k ==> Ceiling(r, k) == 1 && r % k == 0
    ensures r > k ==> Ceiling(r, k) == Ceiling(r - k, k) + 1 && Ceiling(r, k) >= 2 && r % k == (r - k) % k
  {
    if r < k {
      DivModUnique(r, k, 0, r);
    } else {
      DivByAdding(r, k);
      if r == k {
        DivModUnique(0, k, 0, 0);
      } else if r - k < k {
        DivModUnique(r - k, k, 0, r - k);
      } else {
        DivByAdding(r - k, k);
      }
    }
  }

  lemma {:induction false} ChunksCounted(file: seq<byte>, chunkSz: nat)
    requires chunkSz > 0
    ensures |ChunksOf(file, chunkSz)| == Ceiling(|file|, chunkSz)
  {
    if file == [] {
      DivModUnique(0, chunkSz, 0, 0);
    } else {
      CeilingStep(|file|, chunkSz);
      if |file| > chunkSz { ChunksCounted(file[chunkSz..], chunkSz); }
    }
  }

  // ---------------------------------------------------------------- sizes as ints

  const INT_MAX1 := 0x8000_0000

  // What becomes of a file size that is passed as an int.
  function ToInt(x: int): (r: int)
    ensures -INT_MAX1 <= r < INT_MAX1
  {
    var m := x % (2 * INT_MAX1);
    if m < INT_MAX1 then m else m - 2 * INT_MAX1
  }

  lemma ToIntIs(x: int, k: int)
    requires -INT_MAX1 <= x - k * (2 * INT_MAX1) < INT_MAX1
    ensures ToInt(x) == x - k * (2 * INT_MAX1)
  {
    var r := x - k * (2 * INT_MAX1);
    if r >= 0 { assert x / (2 * INT_MAX1) == k; } else { assert x / (2 * INT_MAX1) == k - 1; }
  }

  // ceiling() on ints; C division drops the fraction.
  function CeilingInt(num1: int, num2: int): int
    requires num2 > 0
  {
    if num1 >= 0 then Ceiling(num1, num2)
    else -(-num1 / num2) + (if -num1 % num2 != 0 then 1 else 0)
  }

  // The number of chunks main counts and the producer makes for a file.
  function Loops(size: nat, chunkSz: nat): int
    requires chunkSz > 0
  {
    CeilingInt(ToInt(size), chunkSz)
  }

  lemma LessFactor(a: int, b: int, k: nat)
    requires k > 0
    ensures a * k < b * k ==> a < b
    ensures a <= b ==> a * k <= b * k
  {
    assert b <= a ==> b * k <= a * k;
    assert a <= b ==> a * k <= b * k;
  }

  lemma CeilingBounds(n: nat, k: nat)
    requires k > 0
    ensures n <= Ceiling(n, k) * k < n + k
  {
    var q, r := n / k, n % k;
    assert n == q * k + r;
    assert (q + 1) * k == q * k + k;
  }

  lemma CeilingGrows(a: nat, b: nat, k: nat)
    requires k > 0 && a + k <= b
    ensures Ceiling(a, k) < Ceiling(b, k)
  {
    CeilingBounds(a, k);
    CeilingBounds(b, k);
    LessFactor(Ceiling(a, k), Ceiling(b, k), k);
  }

  // A size of 2^31 or more comes out smaller by 2^32 at least.
  lemma BigSize(size: nat)
    requires size >= INT_MAX1
    ensures ToInt(size) <= size - 2 * INT_MAX1
    ensures size <= 2 * INT_MAX1 ==> ToInt(size) == size - 2 * INT_MAX1
  {
    var k := size / (2 * INT_MAX1);
    ToIntIs(size, if size % (2 * INT_MAX1) < INT_MAX1 then k else k + 1);
  }

  lemma NotPositive(num1: int, num2: nat)
    requires num2 > 0 && num1 < 0
    ensures CeilingInt(num1, num2) <= 1
    ensures num1 + num2 <= 0 ==> CeilingInt(num1, num2) <= 0
  {
    var q, r := -num1 / num2, -num1 % num2;
    assert -num1 == q * num2 + r;
    LessFactor(-1, q, num2);
    if num1 + num2 <= 0 { LessFactor(0, q, num2); }
  }

  // The count is right exactly below 2^31 bytes.
  lemma LoopsExactly(size: nat, chunkSz: nat)
    requires 0 < chunkSz < INT_MAX1
    ensures Loops(size, chunkSz) == Ceiling(size, chunkSz) <==> size < INT_MAX1
    ensures Loops(size, chunkSz) <= Ceiling(size, chunkSz)
  {
    if size < INT_MAX1 {
      ToIntIs(size, 0);
    } else {
      BigSize(size);
      var n := ToInt(size);
      if n >= 0 {
        CeilingGrows(n, size, chunkSz);
      } else {
        NotPositive(n, chunkSz);
        CeilingBounds(size, chunkSz);
        LessFactor(1, Ceiling(size, chunkSz), chunkSz);
      }
    }
  }

  lemma CountIsCeiling(file: seq<byte>, chunkSz: nat)
    requires 0 < chunkSz < INT_MAX1
    ensures |ChunksOf(file, chunkSz)| == Loops(|file|, chunkSz) <==> |file| < INT_MAX1
  {
    ChunksCounted(file, chunkSz);
    LoopsExactly(|file|, chunkSz);
  }

  // A file of 2^31 bytes or more, but a chunk less than 2^32, has no chunk at all.
  lemma NoChunks(size: nat, chunkSz: nat)
    requires 0 < chunkSz < INT_MAX1 <= size <= 2 * INT_MAX1 - chunkSz
    ensures Loops(size, chunkSz) <= 0
  {
    BigSize(size);
    NotPositive(ToInt(size), chunkSz);
  }

  function Input(files: seq<File>): seq<byte> {
    if files == [] then [] else (if files[0].Contents? then files[0].bytes else []) + Input(files[1..])
  }

  function FileChunks(f: File, chunkSz: nat): seq<seq<byte>>
    requires chunkSz > 0
  {
    if f.Contents? then ChunksOf(f.bytes, chunkSz) else []
  }

  function AllChunks(files: seq<File>, chunkSz: nat): seq<seq<byte>>
    requires chunkSz > 0
  {
    if files == [] then [] else FileChunks(files[0], chunkSz) + AllChunks(files[1..], chunkSz)
  }

  lemma {:induction false} FlattenConcat<T>(a: seq<seq<T>>, b: seq<seq<T>>)
    ensures Flatten(a + b) == Flatten(a) + Flatten(b)
  {
    if a == [] {
      assert a + b == b;
    } else {
      assert (a + b)[1..] == a[1..] + b;
      FlattenConcat(a[1..], b);
    }
  }

  lemma {:induction false} AllChunksCover(files: seq<File>, chunkSz: nat)
    requires chunkSz > 0
    ensures Flatten(AllChunks(files, chunkSz)) == Input(files)
  {
    if files != [] {
      AllChunksCover(files[1..], chunkSz);
      FlattenConcat(FileChunks(files[0], chunkSz), AllChunks(files[1..], chunkSz));
      if files[0].Contents? { ChunksCover(files[0].bytes, chunkSz); }
    }
  }

  // ---------------------------------------------------------------- what the producer makes

  // Where the producer is in a file of `total` bytes: i chunks are cut and s bytes passed.
  ghost predicate Cutting(total: nat, chunkSz: nat, s: nat, i: nat)
    requires chunkSz > 0
  {
    && i <= Ceiling(total, chunkSz)
    && (i < Ceiling(total, chunkSz) ==> s < total && Ceiling(total - s, chunkSz) == Ceiling(total, chunkSz) - i)
    && (i < Ceiling(total, chunkSz) ==> (total - s) % chunkSz == total % chunkSz)
  }

  // obj->chunkSize is what is left, or chunkSz if more is left.
  lemma CutOne(total: nat, chunkSz: nat, s: nat, i: nat, size: nat)
    requires chunkSz > 0 && Cutting(total, chunkSz, s, i) && i < Ceiling(total, chunkSz)
    requires size ==
      if total % chunkSz == 0 then chunkSz
      else if i == Ceiling(total, chunkSz) - 1 then total % chunkSz else chunkSz
    ensures size == if total - s <= chunkSz then total - s else chunkSz
    ensures Cutting(total, chunkSz, s + chunkSz, i + 1)
    ensures i + 1 < Ceiling(total, chunkSz) <==> total - s > chunkSz
  {
    CeilingStep(total - s, chunkSz);
  }

  // obj->chunkSize in the i-th turn.
  function PieceSize(size: nat, chunkSz: nat, i: nat): nat
    requires chunkSz > 0
  {
    if size % chunkSz == 0 then chunkSz
    else if i == Loops(size, chunkSz) - 1 then size % chunkSz
    else chunkSz
  }

  // The pointer stays inside the file, also when the count is wrong.
  lemma InFile(size: nat, chunkSz: nat, i: nat)
    requires 0 < chunkSz < INT_MAX1 && i < Loops(size, chunkSz)
    ensures i * chunkSz + PieceSize(size, chunkSz, i) <= size && 0 < PieceSize(size, chunkSz, i) <= chunkSz
  {
    LoopsExactly(size, chunkSz);
    Inside(size, chunkSz, i, Ceiling(size, chunkSz));
  }

  lemma Inside(size: nat, k: nat, i: nat, c: nat)
    requires 0 < k && i < c == Ceiling(size, k)
    ensures (if i == c - 1 && size % k != 0 then i * k + size % k else i * k + k) <= size
  {
    var q := size / k;
    assert size == q * k + size % k;
    NextStart(i, k);
    LessFactor(i + 1, q, k);
  }

  lemma NextStart(i: nat, k: nat)
    ensures (i + 1) * k == i * k + k
  {
  }

  function CutOf(file: seq<byte>, chunkSz: nat): (cs: seq<seq<byte>>)
    requires 0 < chunkSz < INT_MAX1
    ensures |cs| == if Loops(|file|, chunkSz) < 0 then 0 else Loops(|file|, chunkSz)
  {
    seq(if Loops(|file|, chunkSz) < 0 then 0 else Loops(|file|, chunkSz),
        i requires 0 <= i < Loops(|file|, chunkSz) =>
          InFile(|file|, chunkSz, i);
          file[i * chunkSz..i * chunkSz + PieceSize(|file|, chunkSz, i)])
  }

  lemma {:induction false} CutFrom(file: seq<byte>, chunkSz: nat, i: nat, s: nat)
    requires 0 < chunkSz < INT_MAX1 && |file| < INT_MAX1 && i < Ceiling(|file|, chunkSz) == Loops(|file|, chunkSz)
    requires s == i * chunkSz && Cutting(|file|, chunkSz, s, i)
    ensures CutOf(file, chunkSz)[i..] == ChunksOf(file[s..], chunkSz)
    decreases Ceiling(|file|, chunkSz) - i
  {
    var loops, size := Ceiling(|file|, chunkSz), PieceSize(|file|, chunkSz, i);
    CutOne(|file|, chunkSz, s, i, size);
    OneJob(file, s, size, chunkSz);
    var cut := CutOf(file, chunkSz);
    assert cut[i] == file[s..s + size];
    NextStart(i, chunkSz);
    if i + 1 < loops { CutFrom(file, chunkSz, i + 1, s + chunkSz); }
    assert cut[i..] == [cut[i]] + cut[i + 1..];
  }

  // The producer cuts a file right exactly below 2^31 bytes, and otherwise
  // loses part of it or all.
  lemma CutExactly(file: seq<byte>, chunkSz: nat)
    requires 0 < chunkSz < INT_MAX1
    ensures CutOf(file, chunkSz) == ChunksOf(file, chunkSz) <==> |file| < INT_MAX1
    ensures INT_MAX1 <= |file| <= 2 * INT_MAX1 - chunkSz ==> CutOf(file, chunkSz) == []
  {
    CountIsCeiling(file, chunkSz);
    ChunksCounted(file, chunkSz);
    if |file| < INT_MAX1 && file != [] {
      LoopsExactly(|file|, chunkSz);
      CeilingStep(|file|, chunkSz);
      assert file[0..] == file;
      CutFrom(file, chunkSz, 0, 0);
      assert CutOf(file, chunkSz)[0..] == CutOf(file, chunkSz);
    }
    if INT_MAX1 <= |file| <= 2 * INT_MAX1 - chunkSz { NoChunks(|file|, chunkSz); }
  }

  function Cut(f: File, chunkSz: nat): seq<seq<byte>>
    requires 0 < chunkSz < INT_MAX1
  {
    if f.Contents? then CutOf(f.bytes, chunkSz) else []
  }

  // All jobs, in the order the producer numbers them.
  function Produced(files: seq<File>, chunkSz: nat): seq<seq<byte>>
    requires 0 < chunkSz < INT_MAX1
  {
    if files == [] then [] else Cut(files[0], chunkSz) + Produced(files[1..], chunkSz)
  }

  predicate Small(f: File) {
    f.Contents? ==> |f.bytes| < INT_MAX1
  }

  predicate AllSmall(files: seq<File>) {
    forall f | f in files :: Small(f)
  }

  lemma {:induction false} FlattenBound(chunks: seq<seq<byte>>, k: nat)
    requires forall i | 0 <= i < |chunks| :: |chunks[i]| <= k
    ensures |Flatten(chunks)| <= |chunks| * k
  {
    if chunks != [] {
      FlattenBound(chunks[1..], k);
      assert |chunks| * k == (|chunks| - 1) * k + k;
    }
  }

  // A file too large loses bytes.
  lemma CutLoses(file: seq<byte>, chunkSz: nat)
    requires 0 < chunkSz < INT_MAX1 && |file| >= INT_MAX1
    ensures |Flatten(CutOf(file, chunkSz))| < |file|
  {
    var cut := CutOf(file, chunkSz);
    forall i | 0 <= i < |cut| ensures |cut[i]| <= chunkSz { InFile(|file|, chunkSz, i); }
    FlattenBound(cut, chunkSz);
    BigSize(|file|);
    var n := ToInt(|file|);
    if n < 0 {
      NotPositive(n, chunkSz);
      assert |cut| == 0 || |cut| == 1;
    } else {
      CeilingBounds(n, chunkSz);
    }
  }

  // For a list of files: every byte is in some job exactly when no file is too large.
  lemma {:induction false} ProducedExactly(files: seq<File>, chunkSz: nat)
    requires 0 < chunkSz < INT_MAX1
    ensures AllSmall(files) ==> Produced(files, chunkSz) == AllChunks(files, chunkSz)
    ensures Flatten(Produced(files, chunkSz)) == Input(files) <==> AllSmall(files)
    ensures |Flatten(Produced(files, chunkSz))| <= |Input(files)|
    ensures |Flatten(Produced(files, chunkSz))| == |Input(files)| ==> AllSmall(files)
  {
    AllChunksCover(files, chunkSz);
    if files != [] {
      var f := files[0];
      ProducedExactly(files[1..], chunkSz);
      FlattenConcat(Cut(f, chunkSz), Produced(files[1..], chunkSz));
      assert AllSmall(files) <==> Small(f) && AllSmall(files[1..]) by { assert files == [f] + files[1..]; }
      if f.Contents? {
        CutExactly(f.bytes, chunkSz);
        ChunksCover(f.bytes, chunkSz);
        if |f.bytes| >= INT_MAX1 { CutLoses(f.bytes, chunkSz); }
      }
    }
  }

  // ---------------------------------------------------------------- the loops

  // Sizes and chunk numbers that an int holds.
  predicate Countable(files: seq<File>, chunkSz: nat)
    requires chunkSz > 0
  {
    AllSmall(files) && |AllChunks(files, chunkSz)| < INT_MAX1
  }

  lemma NextCount(files: seq<File>, chunkSz: nat, i: nat, total: int, n: int)
    requires 0 < chunkSz < INT_MAX1 && i < |files| && Countable(files, chunkSz) && 0 <= total
    requires total + |AllChunks(files[i..], chunkSz)| == |AllChunks(files, chunkSz)|
    requires n == if files[i].Contents? then Loops(|files[i].bytes|, chunkSz) else 0
    ensures ToInt(total + n) == total + n >= 0
    ensures total + n + |AllChunks(files[i + 1..], chunkSz)| == |AllChunks(files, chunkSz)|
  {
    assert files[i..][1..] == files[i + 1..];
    assert Small(files[i]);
    if files[i].Contents? { CountIsCeiling(files[i].bytes, chunkSz); }
    assert |FileChunks(files[i], chunkSz)| == n;
    ToIntIs(total + n, 0);
  }

  // main's estimate of the number of chunks, an int.
  method CountChunks(files: seq<File>, chunkSz: nat) returns (total: int)
    requires 0 < chunkSz < INT_MAX1
    ensures Countable(files, chunkSz) ==> total == |Produced(files, chunkSz)| == |AllChunks(files, chunkSz)|
  {
    total := 0;
    var i := 0;
    while i < |files|
      invariant 0 <= i <= |files|
      invariant Countable(files, chunkSz) ==>
        0 <= total && total + |AllChunks(files[i..], chunkSz)| == |AllChunks(files, chunkSz)|
    {
      var n := if files[i].Contents? then Loops(|files[i].bytes|, chunkSz) else 0;
      if Countable(files, chunkSz) { NextCount(files, chunkSz, i, total, n); }
      total := if files[i].Contents? then ToInt(total + n) else total;
      i := i + 1;
    }
    ProducedExactly(files, chunkSz);
  }

  // The jobs of one mapped file; s walks through it.
  method FileJobs(file: seq<byte>, chunkSz: nat) returns (jobs: seq<seq<byte>>)
    requires 0 < chunkSz < INT_MAX1 && file != []
    ensures jobs == CutOf(file, chunkSz)
    ensures jobs == ChunksOf(file, chunkSz) <==> |file| < INT_MAX1
  {
    jobs := [];
    var loops := CeilingInt(ToInt(|file|), chunkSz);
    var s, i := 0, 0;
    while i < loops
      invariant i <= |CutOf(file, chunkSz)| && s == i * chunkSz
      invariant jobs == CutOf(file, chunkSz)[..i]
    {
      var size :=
        if |file| % chunkSz == 0 then chunkSz
        else if i == loops - 1 then |file| % chunkSz
        else chunkSz;
      InFile(|file|, chunkSz, i);
      jobs := jobs + [file[s..s + size]];
      assert (i + 1) * chunkSz == s + chunkSz;
      i := i + 1;
      s := s + chunkSz;
    }
    CutExactly(file, chunkSz);
  }

  lemma NextFile(files: seq<File>, f: nat, chunkSz: nat, jobs: seq<seq<byte>>, rest: seq<seq<byte>>,
                 all: seq<seq<byte>>)
    requires 0 < chunkSz < INT_MAX1 && f < |files| && rest == Produced(files[f..], chunkSz) && jobs + rest == all
    ensures (jobs + Cut(files[f], chunkSz)) + Produced(files[f + 1..], chunkSz) == all
  {
    assert files[f..][1..] == files[f + 1..];
    assert rest == Cut(files[f], chunkSz) + Produced(files[f + 1..], chunkSz);
  }

  // The producer's jobs in the order it numbers them.
  method Jobs(files: seq<File>, chunkSz: nat) returns (jobs: seq<seq<byte>>)
    requires 0 < chunkSz < INT_MAX1
    ensures jobs == Produced(files, chunkSz)
    ensures Flatten(jobs) == Input(files) <==> AllSmall(files)
  {
    jobs := [];
    var f := 0;
    ghost var all, rest := Produced(files, chunkSz), Produced(files, chunkSz);
    assert files[0..] == files;
    while f < |files|
      invariant 0 <= f <= |files| && rest == Produced(files[f..], chunkSz) && jobs + rest == all
    {
      ghost var mine := Cut(files[f], chunkSz);
      NextFile(files, f, chunkSz, jobs, rest, all);
      rest := Produced(files[f + 1..], chunkSz);
      var more := [];
      if files[f].Contents? {
        if files[f].bytes != [] { more := FileJobs(files[f].bytes, chunkSz); } else { CutExactly([], chunkSz); }
      }
      assert more == mine;
      jobs := jobs + more;
      f := f + 1;
    }
    ProducedExactly(files, chunkSz);
  }

  lemma OneJob(file: seq<byte>, s: nat, size: nat, chunkSz: nat)
    requires chunkSz > 0 && s < |file| && size == if |file| - s <= chunkSz then |file| - s else chunkSz
    ensures ChunksOf(file[s..], chunkSz)
         == [file[s..s + size]] + (if |file| - s <= chunkSz then [] else ChunksOf(file[s + chunkSz..], chunkSz))
  {
    if |file| - s > chunkSz {
      assert file[s..][chunkSz..] == file[s + chunkSz..];
      assert file[s..][..chunkSz] == file[s..s + size];
    } else {
      assert file[s..] == file[s..s + size];
    }
  }

  // ---------------------------------------------------------------- the file format

  // A record is written as the four bytes of an int, lowest first, and the symbol.
  function RecBytes(r: Rec): (b: seq<byte>)
    requires r.count < 0x8000_0000
    ensures |b| == 5
  {
    [r.count % 256, r.count / 256 % 256, r.count / 65536 % 256, r.count / 16777216 % 256, r.ch]
  }

  function FileBytes(rs: seq<Rec>): seq<byte>
    requires Fit(rs)
  {
    if rs == [] then [] else RecBytes(rs[0]) + FileBytes(rs[1..])
  }

  function Parse(b: seq<byte>): seq<Rec> {
    if |b| < 5 then []
    else
      var n: nat := b[0] + 256 * (b[1] as nat) + 65536 * (b[2] as nat) + 16777216 * (b[3] as nat);
      [Rec(n, b[4])] + Parse(b[5..])
  }

  lemma {:induction false} ParseInverts(rs: seq<Rec>)
    requires Fit(rs)
    ensures Parse(FileBytes(rs)) == rs
  {
    if rs != [] {
      var b := FileBytes(rs);
      assert b[5..] == FileBytes(rs[1..]);
      ParseInverts(rs[1..]);
      var n := rs[0].count;
      assert n / 65536 == n / 256 / 256 && n / 16777216 == n / 65536 / 256;
      assert b[..5] == RecBytes(rs[0]);
      assert b[0] == b[..5][0] && b[1] == b[..5][1] && b[2] == b[..5][2] && b[3] == b[..5][3] && b[4] == b[..5][4];
    }
  }
}
