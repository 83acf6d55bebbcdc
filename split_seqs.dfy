/** scripts/split_seqs_to_files.py: splits a FASTA file into numbered files
    `<output><prefix>.<k>.<ext>`, either a fixed number of records per file
    (`-s`), a number of files with the records spread evenly (`-n`), or a
    number of files with the bytes spread roughly evenly (`-b`). The input
    file is its text; a file's size is the number of characters written to
    it, and the output folder starts empty. */
module SplitSeqs {
  import opened Wrappers
  import opened Strings
  import opened Numbers
  import opened Fasta
  import opened SplitCommon
  import Sharding

  // ---------------------------------------------------------------------
  // Names

  /** `check_p` as written: without `-p`, the prefix is taken from
      `fasta.rsplit('/')[0]`, the text before the FIRST '/', and the
      IndexError it guards against can never occur. */
  function WrittenPrefix(fasta: string, p: string): (r: string)
    ensures p != "" ==> r == p
    ensures p == "" ==> r <= BeforeFirst(fasta, "/") && r <= fasta
  {
    if p != "" then p
    else
      BeforeFirstIsPrefix(fasta, "/");
      BeforeLastIsPrefix(BeforeFirst(fasta, "/"), ".");
      BeforeLast(BeforeFirst(fasta, "/"), ".")
  }

  /** The prefix `check_p` evidently means: the input file's name without
      its last extension (what `rsplit('/', 1)[1]` with the IndexError
      fallback gives). */
  function Prefix(fasta: string, p: string): (r: string)
    ensures p != "" ==> r == p
    ensures p == "" ==> r <= AfterLast(fasta, "/") && '/' !in r
  {
    if p != "" then p
    else
      BeforeLastIsPrefix(AfterLast(fasta, "/"), ".");
      AfterLastAvoids(fasta, '/');
      BeforeLast(AfterLast(fasta, "/"), ".")
  }

  /** `BeforeFirst` at a known first occurrence. */
  lemma BeforeFirstAt(s: string, sep: string, i: nat)
    requires |sep| > 0 && OccursAt(s, sep, i)
    requires forall j: nat :: j < i ==> !OccursAt(s, sep, j)
    ensures BeforeFirst(s, sep) == s[..i]
  {
    var r := SplitOnce(s, sep);
    assert |r| == 2 && |r[0]| == i;
    assert s[..i] == r[0];
  }

  /** For a path `dir/name`, the prefix is the stem of `name`; for a bare
      file name, the written and the intended prefix agree. */
  lemma PrefixOfPath(dir: string, name: string)
    requires '/' !in name
    ensures Prefix(dir + "/" + name, "") == BeforeLast(name, ".")
    ensures WrittenPrefix(name, "") == Prefix(name, "")
  {
    var path := dir + "/" + name;
    assert path[|dir|..|dir| + 1] == "/";
    forall j: nat | |dir| < j ensures !OccursAt(path, "/", j) {
      NoOccurrence(name, "/", j - |dir| - 1);
      if j + 1 <= |path| {
        assert path[j..j + 1] == name[j - |dir| - 1..j - |dir|];
      }
    }
    RSplitAt(path, "/", |dir|);
    assert path[|dir| + 1..] == name;
    NotContains(name, '/');
  }

  /** The written prefix of an absolute path is empty, so the files become
      hidden `.<k>.<ext>` files, where the intended prefix is the file's stem. */
  lemma WrittenPrefixOfAbsolutePath(name: string)
    requires '/' !in name
    ensures WrittenPrefix("/" + name, "") == ""
    ensures Prefix("/" + name, "") == BeforeLast(name, ".")
  {
    var path := "/" + name;
    assert path[0..1] == "/";
    BeforeFirstAt(path, "/", 0);
    NotContains("", '.');
    PrefixOfPath("", name);
  }

  /** The stem of `x.fa` is `x`. */
  lemma StemExample()
    ensures BeforeLast("x.fa", ".") == "x"
  {
    var name := "x.fa";
    assert name[1..2] == ".";
    forall j: nat | 1 < j ensures !OccursAt(name, ".", j) {
      if j + 1 <= |name| {
        assert name[j..j + 1] == [name[j]];
      }
    }
    RSplitAt(name, ".", 1);
  }

  /** `/x.fa` gives the written prefix "" and the stem "x". */
  lemma AbsolutePathExample()
    ensures WrittenPrefix("/x.fa", "") == "" && Prefix("/x.fa", "") == "x"
  {
    assert "/x.fa" == "/" + "x.fa";
    WrittenPrefixOfAbsolutePath("x.fa");
    StemExample();
  }

  /** `f'{output}{p}.{file}.{ext}'`. */
  function FileName(output: string, prefix: string, file: nat, ext: string): string {
    output + prefix + "." + NatToString(file) + "." + ext
  }

  // ---------------------------------------------------------------------
  // Division helpers

  /** Quotient and remainder are determined by `a == q * d + r`. */
  lemma DivModUnique(a: int, q: int, d: int, r: int)
    requires q >= 1 && 0 <= r < q && a == q * d + r
    ensures a / q == d && a % q == r
  {
    assert a == q * (a / q) + a % q;
    MulBounds(q, d - a / q);
  }

  lemma MulBounds(q: int, k: int)
    requires q >= 1
    ensures k >= 1 ==> q * k >= q
    ensures k <= -1 ==> q * k <= -q
  {
  }

  /** Counting one more record: the remainder goes up by one, or wraps to
      zero as the quotient goes up. */
  lemma DivModStep(i: nat, q: nat)
    requires q >= 1
    ensures i % q + 1 < q ==> (i + 1) % q == i % q + 1 && (i + 1) / q == i / q
    ensures i % q + 1 == q ==> (i + 1) % q == 0 && (i + 1) / q == i / q + 1
  {
    assert i == q * (i / q) + i % q;
    if i % q + 1 < q {
      DivModUnique(i + 1, q, i / q, i % q + 1);
    } else {
      DivModUnique(i + 1, q, i / q + 1, 0);
    }
  }

  lemma DivModShift(n: nat, q: nat)
    requires q >= 1 && n >= q
    ensures n % q == (n - q) % q && n / q == (n - q) / q + 1
  {
    assert n - q == q * ((n - q) / q) + (n - q) % q;
    DivModUnique(n, q, (n - q) / q + 1, (n - q) % q);
  }

  // ---------------------------------------------------------------------
  // -s and -n: a fixed number of records per file

  /** The records per file: `-s`, or `ceil(count / n)` for `-n`. A quota
      below 1 gives one record per file, since the check `counter >= q`
      then holds after every record. */
  function Quota(q: int): (r: nat)
    ensures r >= 1
  {
    if q >= 1 then q else 1
  }

  /** Reference: groups of `q` consecutive records, the last one holding
      what remains. */
  function Chunks(texts: seq<string>, q: nat): (r: seq<string>)
    requires q >= 1
    ensures texts == [] <==> r == []
    decreases |texts|
  {
    if texts == [] then []
    else if |texts| <= q then [Concat(texts)]
    else [Concat(texts[..q])] + Chunks(texts[q..], q)
  }

  /** One more record opens a new file exactly when the count so far is a
      multiple of `q`, and otherwise extends the last file. */
  lemma {:induction false} ChunksSnoc(xs: seq<string>, x: string, q: nat)
    requires q >= 1
    ensures |xs| % q == 0 ==> Chunks(xs + [x], q) == Chunks(xs, q) + [x]
    ensures |xs| % q != 0 ==> (Chunks(xs, q) != [] &&
      Chunks(xs + [x], q) == Chunks(xs, q)[..|Chunks(xs, q)| - 1] + [Chunks(xs, q)[|Chunks(xs, q)| - 1] + x])
    decreases |xs|
  {
    if |xs| < q {
      ChunksSnocFirst(xs, x, q);
    } else if |xs| == q {
      ChunksSnocSecond(xs, x, q);
    } else {
      ChunksSnoc(xs[q..], x, q);
      ChunksSnocLater(xs, x, q);
    }
  }

  /** The step of `ByCount`: the next record opens a file when the file
      number has passed the files written, and otherwise extends the last. */
  lemma CountStep(texts: seq<string>, q: nat, i: nat, files: seq<string>, file: int)
    requires q >= 1 && i < |texts| && files == Chunks(texts[..i], q)
    requires file == |files| + (if i % q == 0 then 1 else 0)
    ensures file > |files| ==> Chunks(texts[..i + 1], q) == files + [texts[i]]
    ensures file <= |files| ==>
      1 <= file == |files| && Chunks(texts[..i + 1], q) == files[file - 1 := files[file - 1] + texts[i]]
  {
    ChunksSnoc(texts[..i], texts[i], q);
    assert texts[..i + 1] == texts[..i] + [texts[i]];
    if i % q != 0 {
      var n := |files| - 1;
      assert files[..n] + [files[n] + texts[i]] == files[n := files[n] + texts[i]];
    }
  }

  /** While the first file is not full, the record goes into it. */
  lemma ChunksSnocFirst(xs: seq<string>, x: string, q: nat)
    requires q >= 1 && |xs| < q
    ensures |xs| % q == 0 ==> Chunks(xs + [x], q) == Chunks(xs, q) + [x]
    ensures |xs| % q != 0 ==> (Chunks(xs, q) != [] &&
      Chunks(xs + [x], q) == Chunks(xs, q)[..|Chunks(xs, q)| - 1] + [Chunks(xs, q)[|Chunks(xs, q)| - 1] + x])
  {
    DivModUnique(|xs|, q, 0, |xs|);
    var ys := xs + [x];
    if xs == [] {
      ConcatSingle(x);
    } else {
      assert Chunks(xs, q) == [Concat(xs)];
      assert Chunks(ys, q) == [Concat(ys)];
      assert ys[..|ys| - 1] == xs;
    }
  }

  /** Once the first file is full, the record opens the second. */
  lemma ChunksSnocSecond(xs: seq<string>, x: string, q: nat)
    requires q >= 1 && |xs| == q
    ensures |xs| % q == 0 && Chunks(xs + [x], q) == Chunks(xs, q) + [x]
  {
    DivModUnique(q, q, 1, 0);
    var ys := xs + [x];
    assert ys[..q] == xs && ys[q..] == [x];
    ConcatSingle(x);
    assert Chunks(ys, q) == [Concat(xs)] + [x];
  }

  /** The step of `ChunksSnoc` past a first full file. */
  lemma ChunksSnocLater(xs: seq<string>, x: string, q: nat)
    requires q >= 1 && |xs| > q
    requires |xs[q..]| % q == 0 ==> Chunks(xs[q..] + [x], q) == Chunks(xs[q..], q) + [x]
    requires |xs[q..]| % q != 0 ==> (Chunks(xs[q..], q) != [] &&
      Chunks(xs[q..] + [x], q) == Chunks(xs[q..], q)[..|Chunks(xs[q..], q)| - 1] + [Chunks(xs[q..], q)[|Chunks(xs[q..], q)| - 1] + x])
    ensures |xs| % q == 0 ==> Chunks(xs + [x], q) == Chunks(xs, q) + [x]
    ensures |xs| % q != 0 ==> (Chunks(xs, q) != [] &&
      Chunks(xs + [x], q) == Chunks(xs, q)[..|Chunks(xs, q)| - 1] + [Chunks(xs, q)[|Chunks(xs, q)| - 1] + x])
  {
    DivModShift(|xs|, q);
    if |xs| % q == 0 {
      ChunksSnocFull(xs, x, q);
    } else {
      ChunksSnocPart(xs, x, q);
    }
  }

  /** A file after the first full one: the record opens a new file. */
  lemma ChunksSnocFull(xs: seq<string>, x: string, q: nat)
    requires q >= 1 && |xs| > q
    requires Chunks(xs[q..] + [x], q) == Chunks(xs[q..], q) + [x]
    ensures Chunks(xs + [x], q) == Chunks(xs, q) + [x]
  {
    var ys := xs + [x];
    var head := Concat(xs[..q]);
    var c := Chunks(xs[q..], q);
    assert ys[..q] == xs[..q] && ys[q..] == xs[q..] + [x];
    assert Chunks(ys, q) == [head] + (c + [x]);
    assert Chunks(xs, q) == [head] + c;
    assert [head] + (c + [x]) == ([head] + c) + [x];
  }

  /** A file after the first full one: the record extends the last file. */
  lemma ChunksSnocPart(xs: seq<string>, x: string, q: nat)
    requires q >= 1 && |xs| > q
    requires Chunks(xs[q..], q) != [] &&
      Chunks(xs[q..] + [x], q) == Chunks(xs[q..], q)[..|Chunks(xs[q..], q)| - 1] + [Chunks(xs[q..], q)[|Chunks(xs[q..], q)| - 1] + x]
    ensures Chunks(xs, q) != [] &&
      Chunks(xs + [x], q) == Chunks(xs, q)[..|Chunks(xs, q)| - 1] + [Chunks(xs, q)[|Chunks(xs, q)| - 1] + x]
  {
    var ys := xs + [x];
    var head := Concat(xs[..q]);
    var c := Chunks(xs[q..], q);
    var all := [head] + c;
    assert ys[..q] == xs[..q] && ys[q..] == xs[q..] + [x];
    assert Chunks(ys, q) == [head] + (c[..|c| - 1] + [c[|c| - 1] + x]);
    assert Chunks(xs, q) == all;
    assert all[..|all| - 1] == [head] + c[..|c| - 1];
    assert all[|all| - 1] == c[|c| - 1];
  }

  /** Every record is written once, in order. */
  lemma {:induction false} ChunksConcat(texts: seq<string>, q: nat)
    requires q >= 1
    ensures Concat(Chunks(texts, q)) == Concat(texts)
    decreases |texts|
  {
    if texts != [] {
      if |texts| <= q {
        ConcatSingle(Concat(texts));
      } else {
        ChunksConcat(texts[q..], q);
        ConcatAppend([Concat(texts[..q])], Chunks(texts[q..], q));
        ConcatSingle(Concat(texts[..q]));
        assert texts == texts[..q] + texts[q..];
        ConcatAppend(texts[..q], texts[q..]);
      }
    }
  }

  /** There are `ceil(n / q)` files. */
  lemma {:induction false} ChunksCount(texts: seq<string>, q: nat)
    requires q >= 1
    ensures |Chunks(texts, q)| == CeilDiv(|texts|, q)
    decreases |texts|
  {
    if texts == [] {
      CeilDivSmall(0, q);
    } else if |texts| <= q {
      assert Chunks(texts, q) == [Concat(texts)];
      CeilDivSmall(|texts|, q);
    } else {
      ChunksCount(texts[q..], q);
      ChunksFront(texts, q);
      CeilDivNext(|texts|, |texts[q..]|, q, |Chunks(texts[q..], q)|);
    }
  }

  /** Past `q` records, the first file takes `q` of them and the rest are
      grouped as on their own. */
  lemma ChunksFront(texts: seq<string>, q: nat)
    requires q >= 1 && |texts| > q
    ensures |Chunks(texts, q)| == 1 + |Chunks(texts[q..], q)| && |texts[q..]| == |texts| - q
  {
  }

  /** Up to `q` records fit in one file, and none need no file. */
  lemma CeilDivSmall(n: nat, q: nat)
    requires q >= 1 && n <= q
    ensures CeilDiv(n, q) == if n == 0 then 0 else 1
  {
    if n == 0 {
      DivModUnique(q - 1, q, 0, q - 1);
    } else {
      DivModUnique(n + q - 1, q, 1, n - 1);
    }
  }

  /** Past `q` records, the first `q` fill one file. */
  lemma CeilDivShift(n: nat, q: nat)
    requires q >= 1 && n > q
    ensures CeilDiv(n, q) == CeilDiv(n - q, q) + 1
  {
    DivModShift(n + q - 1, q);
    assert (n - q) + q - 1 == (n + q - 1) - q;
  }

  /** `CeilDivShift` with the remainder and its count named. */
  lemma CeilDivNext(n: nat, m: nat, q: nat, c: nat)
    requires q >= 1 && n == m + q && m > 0 && c == CeilDiv(m, q)
    ensures CeilDiv(n, q) == c + 1
  {
    CeilDivShift(n, q);
  }

  /** The end of file `k`: record `(k + 1) * q`, or the last record. */
  function ChunkEnd(k: nat, q: nat, n: nat): nat {
    if (k + 1) * q < n then (k + 1) * q else n
  }

  /** File `k` holds records `k * q` up to `ChunkEnd(k, q, n)`: `q` records
      for every file but the last, and between 1 and `q` for the last. */
  lemma {:induction false} ChunksAt(texts: seq<string>, q: nat, k: nat)
    requires q >= 1 && k < |Chunks(texts, q)|
    ensures k * q < |texts|
    ensures Chunks(texts, q)[k] == Concat(texts[k * q..ChunkEnd(k, q, |texts|)])
    decreases |texts|
  {
    if |texts| <= q {
      assert texts[0..|texts|] == texts;
    } else if k == 0 {
      assert texts[0..q] == texts[..q];
    } else {
      assert Chunks(texts, q)[k] == Chunks(texts[q..], q)[k - 1];
      ChunksAt(texts[q..], q, k - 1);
      ChunksAtLater(texts, q, k);
    }
  }

  /** The step of `ChunksAt` past the first file: file `k` is file `k - 1`
      of the records after the first `q`. */
  lemma ChunksAtLater(texts: seq<string>, q: nat, k: nat)
    requires q >= 1 && |texts| > q && k >= 1
    requires (k - 1) * q < |texts[q..]|
    requires k - 1 < |Chunks(texts[q..], q)|
    requires Chunks(texts[q..], q)[k - 1] == Concat(texts[q..][(k - 1) * q..ChunkEnd(k - 1, q, |texts[q..]|)])
    ensures k < |Chunks(texts, q)| && k * q < |texts|
    ensures Chunks(texts, q)[k] == Concat(texts[k * q..ChunkEnd(k, q, |texts|)])
  {
    var rest := texts[q..];
    ChunkBounds(k, q, |rest|, |texts|);
    ChunkTail(texts, q, k);
    var lo, hi, end := (k - 1) * q, ChunkEnd(k - 1, q, |rest|), ChunkEnd(k, q, |texts|);
    SliceShift(texts, q, lo, hi, k * q, end);
  }

  /** The bounds of file `k - 1` of the records after the first `q`, moved
      on by `q`, are those of file `k`. */
  lemma ChunkBounds(k: nat, q: nat, n: nat, m: nat)
    requires q >= 1 && k >= 1 && (k - 1) * q < n && m == n + q
    ensures 0 <= (k - 1) * q <= ChunkEnd(k - 1, q, n) <= n
    ensures (k - 1) * q + q == k * q && k * q < m
    ensures ChunkEnd(k - 1, q, n) + q == ChunkEnd(k, q, m)
  {
    MulShift(k, q);
  }

  /** File `k` is file `k - 1` of the records after the first `q`. */
  lemma ChunkTail(texts: seq<string>, q: nat, k: nat)
    requires q >= 1 && |texts| > q && k >= 1
    requires k - 1 < |Chunks(texts[q..], q)|
    ensures k < |Chunks(texts, q)| && Chunks(texts, q)[k] == Chunks(texts[q..], q)[k - 1]
  {
    assert Chunks(texts, q) == [Concat(texts[..q])] + Chunks(texts[q..], q);
  }

  /** A slice of the records after the first `q`. */
  lemma SliceShift<T>(xs: seq<T>, q: nat, lo: nat, hi: nat, a: nat, b: nat)
    requires q <= |xs| && lo <= hi <= |xs| - q && a == lo + q && b == hi + q
    ensures xs[q..][lo..hi] == xs[a..b]
  {
  }

  /** `(k - 1) * q + q == k * q` and `k * q + q == (k + 1) * q`. */
  lemma MulShift(k: nat, q: nat)
    requires k >= 1
    ensures (k - 1) * q + q == k * q && k * q + q == (k + 1) * q && ((k - 1) + 1) * q == k * q
    ensures 0 <= (k - 1) * q <= k * q <= (k + 1) * q
  {
  }

  /** The evident meaning of 'New files created' in `-s` and `-n` modes:
      the number of files written. */
  function FilesCreated(n: nat, q: int): nat {
    CeilDiv(n, Quota(q))
  }

  lemma FilesCreatedCount(texts: seq<string>, q: int)
    ensures FilesCreated(|texts|, q) == |Chunks(texts, Quota(q))|
  {
    ChunksCount(texts, Quota(q));
  }

  /** The reported count, the final `file`, is `1 + n / q`: one too many
      whenever the records fill their last file exactly, and 1 for no
      records. With one record per file, two records report three files. */
  lemma ReportedFilesOffByOne(texts: seq<string>, q: int)
    ensures 1 + |texts| / Quota(q) == FilesCreated(|texts|, q) + (if |texts| % Quota(q) == 0 then 1 else 0)
    ensures 1 + |["a", "b"]| / Quota(1) == 3 && FilesCreated(2, 1) == 2
  {
    var Q := Quota(q);
    var n := |texts|;
    assert n == Q * (n / Q) + n % Q;
    if n % Q == 0 {
      DivModUnique(n + Q - 1, Q, n / Q, Q - 1);
    } else {
      DivModUnique(n + Q - 1, Q, n / Q + 1, n % Q - 1);
    }
  }

  // ---------------------------------------------------------------------
  // -b: a byte target per file

  /** The records as the shard loop sees them (no grouping). */
  function Items(texts: seq<string>): (r: seq<Sharding.Item>)
    ensures |r| == |texts| && forall i :: 0 <= i < |texts| ==> r[i].text == texts[i]
  {
    seq(|texts|, i requires 0 <= i < |texts| => Sharding.Item(texts[i], ""))
  }

  /** `-b` writes like the shard loop of the annotation pipeline, without a
      cap on the index: checking `byte >= size` after a write is checking,
      before the next write, that the current file holds the target. */
  function BySize(texts: seq<string>, size: int): seq<string> {
    Sharding.Distribute(Items(texts), size, |texts| + 1, false).shards
  }

  /** The files after the first `i` records of the `-b` loop. */
  function WrittenBySize(texts: seq<string>, size: int, i: nat): seq<string>
    requires i <= |texts|
  {
    Sharding.Prefix(Items(texts), i, size, |texts| + 1, false).shards
  }

  lemma {:induction false} PrefixAtMost(items: seq<Sharding.Item>, i: nat, target: int, threads: int)
    requires i <= |items|
    ensures |Sharding.Prefix(items, i, target, threads, false).shards| <= i
  {
    if i > 0 {
      PrefixAtMost(items, i - 1, target, threads);
    }
  }

  /** Every record is written once, in order; every file but the last holds
      at least the target, and (for a positive target) less than the target
      before its last record. */
  lemma BySizeShape(texts: seq<string>, size: int)
    ensures Concat(BySize(texts, size)) == Sharding.TextRange(Items(texts), 0, |texts|)
    ensures texts == [] <==> BySize(texts, size) == []
    ensures Sharding.ClosedFull(Sharding.Distribute(Items(texts), size, |texts| + 1, false), size)
    ensures Sharding.Blocks(|texts|, Sharding.Distribute(Items(texts), size, |texts| + 1, false))
    ensures size > 0 ==>
      Sharding.Tight(Items(texts), |texts|, Sharding.Distribute(Items(texts), size, |texts| + 1, false), size, |texts| + 1)
  {
    Sharding.DistributeShape(Items(texts), size, |texts| + 1, false);
    if size > 0 {
      Sharding.PrefixTight(Items(texts), |texts|, size, |texts| + 1);
    }
  }

  /** The bytes of some files. */
  function Bytes(files: seq<string>): nat
    decreases |files|
  {
    if files == [] then 0 else Bytes(files[..|files| - 1]) + |files[|files| - 1]|
  }

  /** Whether the last file reached the target (and `file` moved past it). */
  predicate LastFull(files: seq<string>, size: int) {
    files != [] && |files[|files| - 1]| >= size
  }

  /** What `avg` accumulates: the size of each file when `file` moves past
      it, which is every file but the last, and the last one if it filled. */
  function ClosedBytes(files: seq<string>, size: int): nat {
    if files == [] then 0
    else Bytes(files[..|files| - 1]) + (if LastFull(files, size) then |files[|files| - 1]| else 0)
  }

  /** The average `-b` reports: the mean file size when the last file is
      short of the target; when it reached the target, the last file is
      counted twice and the divisor is one more than the files made. */
  lemma ReportedAverage(files: seq<string>, size: int)
    requires files != []
    ensures !LastFull(files, size) ==> ClosedBytes(files, size) + |files[|files| - 1]| == Bytes(files)
    ensures LastFull(files, size) ==> ClosedBytes(files, size) + |files[|files| - 1]| == Bytes(files) + |files[|files| - 1]|
  {
  }

  // ---------------------------------------------------------------------
  // The splitter object

  /** A `Splitter` after `__init__` has set its counters. `files` holds the
      contents of the numbered files, file `k` at position `k - 1`. */
  class Splitter {
    const prefix: string
    const ext: string
    var counter: int
    var holder: int
    var file: int
    var avg: real
    var files: seq<string>

    predicate Fresh()
      reads this
    {
      counter == 0 && holder == 0 && file == 1 && avg == 0.0 && files == []
    }

    constructor(prefix: string, ext: string)
      ensures this.prefix == prefix && this.ext == ext && Fresh()
    {
      this.prefix := prefix;
      this.ext := ext;
      counter := 0;
      holder := 0;
      file := 1;
      avg := 0.0;
      files := [];
    }

    /** The loop of `method_s` and `method_n` for quota `q`: every record
        goes to file `file`, and after `q` of them `file` moves on. */
    method ByCount(texts: seq<string>, q: int)
      requires Fresh()
      modifies this`counter, this`holder, this`file, this`files
      ensures files == Chunks(texts, Quota(q))
      ensures holder == |texts|
      ensures counter == |texts| % Quota(q)
      ensures file == 1 + |texts| / Quota(q)
    {
      var Q := Quota(q);
      var i := 0;
      while i < |texts|
        invariant 0 <= i <= |texts|
        invariant files == Chunks(texts[..i], Q)
        invariant counter == i % Q && holder == i - i % Q && file == 1 + i / Q
        invariant file == |files| + (if i % Q == 0 then 1 else 0)
      {
        CountStep(texts, Q, i, files, file);
        DivModStep(i, Q);
        counter := counter + 1;
        if file > |files| {
          files := files + [texts[i]];
        } else {
          files := files[file - 1 := files[file - 1] + texts[i]];
        }
        if counter >= q {
          file := file + 1;
          holder := holder + counter;
          counter := 0;
        }
        i := i + 1;
      }
      assert texts[..i] == texts;
      holder := holder + counter;
    }

    /** `method_b` on a fresh splitter. */
    method RunBySize(output: string, text: string, b: int) returns (r: Result<Outcome, Failure>)
      requires Fresh()
      modifies this`holder, this`file, this`avg, this`files
      ensures r == SplitBySize(output, prefix, ext, text, b)
    {
      var size := Target(|text|, b);
      if size.Err? {
        return Err(size.error);
      }
      var recs := ParseText(text);
      if recs.Err? {
        return Err(recs.error);
      }
      ParseNonEmpty(text);
      BySizeLoop(Texts(recs.value), size.value);
      var names := FileNames(output, prefix, ext, |files|);
      return Ok(Outcome(names, files, holder, counter, file, |files|));
    }

    /** `method_s` or `method_n` on a fresh splitter. */
    method RunByCount(output: string, text: string, mode: Mode) returns (r: Result<Outcome, Failure>)
      requires Fresh() && !mode.ByteCount?
      modifies this`counter, this`holder, this`file, this`files
      ensures r == SplitByCount(output, prefix, ext, text, mode)
    {
      var q := QuotaOf(mode, text);
      if q.Err? {
        return Err(q.error);
      }
      var recs := ParseText(text);
      if recs.Err? {
        return Err(recs.error);
      }
      var texts := Texts(recs.value);
      ghost var Q := Quota(q.value);
      ghost var chunks := Chunks(texts, Q);
      assert SplitByCount(output, prefix, ext, text, mode) ==
        Ok(Outcome(FileNames(output, prefix, ext, |chunks|), chunks, |texts|, |texts| % Q, 1 + |texts| / Q,
                   FilesCreated(|recs.value|, q.value)));
      ByCount(texts, q.value);
      var names := FileNames(output, prefix, ext, |files|);
      return Ok(Outcome(names, files, holder, counter, file, FilesCreated(|recs.value|, q.value)));
    }

    /** One record of `method_b`: it goes to file `file`, a new one when
        the previous file reached the target, and `file` moves on once this
        file's size reaches it. The file's size is returned. */
    method Place(t: string, size: int) returns (byte: nat)
      requires file == |files| + (if files == [] || LastFull(files, size) then 1 else 0)
      modifies this`holder, this`file, this`files
      ensures old(files) == [] || LastFull(old(files), size) ==> files == old(files) + [t]
      ensures old(files) != [] && !LastFull(old(files), size) ==>
        files == old(files)[|old(files)| - 1 := old(files)[|old(files)| - 1] + t]
      ensures holder == old(holder) + 1
      ensures files != [] && byte == |files[|files| - 1]|
      ensures file == |files| + (if LastFull(files, size) then 1 else 0)
    {
      holder := holder + 1;
      if file > |files| {
        files := files + [t];
      } else {
        files := files[file - 1 := files[file - 1] + t];
      }
      byte := |files[file - 1]|;
      if byte >= size {
        file := file + 1;
      }
    }

    /** Record `i` of the `-b` loop: the files become those after `i + 1`
        records, and the size of a file that reached the target is added
        to the running total. */
    method Record(texts: seq<string>, size: int, i: nat, sum: nat) returns (byte: nat, total: nat)
      requires i < |texts| && files == WrittenBySize(texts, size, i)
      requires file == |files| + (if files == [] || LastFull(files, size) then 1 else 0)
      requires sum == ClosedBytes(files, size)
      modifies this`holder, this`file, this`files
      ensures files == WrittenBySize(texts, size, i + 1) && holder == old(holder) + 1
      ensures file == |files| + (if LastFull(files, size) then 1 else 0)
      ensures files != [] && byte == |files[|files| - 1]| && total == ClosedBytes(files, size)
    {
      BySizeStep(texts, size, i);
      byte := Place(texts[i], size);
      total := if byte >= size then sum + byte else sum;
    }

    /** The loop of `method_b` for target `size`: every record goes to file
        `file`, which moves on once its size reaches the target; `avg` adds
        each file's size as it is left, then the current size once more, and
        is divided by `file`. */
    method BySizeLoop(texts: seq<string>, size: int)
      requires Fresh() && texts != []
      modifies this`holder, this`file, this`avg, this`files
      ensures files == BySize(texts, size)
      ensures holder == |texts|
      ensures file == |files| + (if LastFull(files, size) then 1 else 0)
      ensures avg == (ClosedBytes(files, size) + |files[|files| - 1]|) as real / file as real
    {
      var sum: nat := 0;
      var byte := 0;
      var i := 0;
      while i < |texts|
        invariant 0 <= i <= |texts|
        invariant files == WrittenBySize(texts, size, i)
        invariant holder == i
        invariant file == |files| + (if files == [] || LastFull(files, size) then 1 else 0)
        invariant sum == ClosedBytes(files, size)
        invariant i > 0 ==> files != [] && byte == |files[|files| - 1]|
      {
        byte, sum := Record(texts, size, i, sum);
        i := i + 1;
      }
      WrittenAll(texts, size);
      sum := sum + byte;
      avg := sum as real / file as real;
    }
  }

  /** One record of the `-b` loop: a new file when there is none yet or the
      current one holds the target, else the current file grows. */
  lemma BySizeStep(texts: seq<string>, size: int, i: nat)
    requires i < |texts|
    ensures var p := WrittenBySize(texts, size, i);
      var p' := WrittenBySize(texts, size, i + 1);
      (p == [] || LastFull(p, size) ==> p' == p + [texts[i]]) &&
      (p != [] && !LastFull(p, size) ==> p' == p[|p| - 1 := p[|p| - 1] + texts[i]]) &&
      p' != [] &&
      ClosedBytes(p', size) == ClosedBytes(p, size) + (if LastFull(p', size) then |p'[|p'| - 1]| else 0)
  {
    var items := Items(texts);
    PrefixAtMost(items, i, size, |texts| + 1);
    var s := Sharding.Prefix(items, i, size, |texts| + 1, false);
    var p := s.shards;
    assert WrittenBySize(texts, size, i + 1) ==
      Sharding.Place(s, i, Sharding.PrevGroup(items, i), items[i], size, |texts| + 1, false).shards;
    assert items[i].text == texts[i];
    assert Sharding.Advances(p, Sharding.PrevGroup(items, i), items[i], size, |texts| + 1, false) <==> LastFull(p, size);
    if p == [] || LastFull(p, size) {
      ClosedBytesNew(p, texts[i], size);
    } else {
      ClosedBytesExtend(p, texts[i], size);
    }
  }

  /** After every record the `-b` loop has written `BySize`. */
  lemma WrittenAll(texts: seq<string>, size: int)
    ensures WrittenBySize(texts, size, |texts|) == BySize(texts, size)
  {
    assert |Items(texts)| == |texts|;
  }

  lemma ClosedBytesNew(p: seq<string>, t: string, size: int)
    requires p == [] || LastFull(p, size)
    ensures ClosedBytes(p, size) == Bytes(p)
    ensures ClosedBytes(p + [t], size) == Bytes(p) + (if |t| >= size then |t| else 0)
  {
    assert (p + [t])[..|p|] == p;
  }

  lemma ClosedBytesExtend(p: seq<string>, t: string, size: int)
    requires p != [] && !LastFull(p, size)
    ensures var p' := p[|p| - 1 := p[|p| - 1] + t];
      ClosedBytes(p', size) == ClosedBytes(p, size) + (if |p'[|p| - 1]| >= size then |p'[|p| - 1]| else 0)
  {
    var p' := p[|p| - 1 := p[|p| - 1] + t];
    assert p'[..|p| - 1] == p[..|p| - 1];
  }

  // ---------------------------------------------------------------------
  // A whole run

  /** The option given: `-s`, `-n` or `-b`. */
  datatype Mode = PerFile(s: int) | FileCount(n: int) | ByteCount(b: int)

  /** `grep -c '>'`: the lines holding a '>' anywhere. */
  function GrepCount(lines: seq<string>): nat
    decreases |lines|
  {
    if lines == [] then 0
    else GrepCount(lines[..|lines| - 1]) + (if '>' in lines[|lines| - 1] then 1 else 0)
  }

  /** The texts the records are written as. */
  function Texts(recs: seq<Record>): (r: seq<string>)
    ensures |r| == |recs|
  {
    seq(|recs|, i requires 0 <= i < |recs| => RecordText(recs[i].header, recs[i].sequence))
  }

  /** What a run leaves: the files' names and contents (file `k` at
      position `k - 1`), and the counters it reports: sequences written,
      the record count of the last file, and `file`, which the report gives
      as the number of files created. `created` is the number actually made. */
  datatype Outcome = Outcome(names: seq<string>, files: seq<string>,
                             written: int, counter: int, file: int, created: nat)

  /** The names of the first `count` numbered files. */
  function FileNames(output: string, prefix: string, ext: string, count: nat): (r: seq<string>)
    ensures |r| == count
    ensures forall k :: 0 <= k < count ==> r[k] == FileName(output, prefix, k + 1, ext)
  {
    seq(count, k requires 0 <= k < count => FileName(output, prefix, k + 1, ext))
  }

  /** The quota of a mode: `-s` as given, `-n` as `ceil(count / n)` where
      the count comes from `grep -c '>'`, which exits with status 1 when it
      counts no line, so that `check_output` raises before the division. */
  function QuotaOf(mode: Mode, text: string): (r: Result<int, Failure>)
    requires !mode.ByteCount?
    ensures mode.PerFile? ==> r == Ok(mode.s)
    ensures mode.FileCount? && GrepCount(Lines(text)) == 0 ==> r == Err(CalledProcessError)
    ensures mode.FileCount? && GrepCount(Lines(text)) > 0 ==>
      (r.Err? <==> mode.n == 0) && (r.Err? ==> r.error == ZeroDivisionError) &&
      (mode.n > 0 ==> r.Ok? && r.value > 0 && r.value * mode.n >= GrepCount(Lines(text)) > (r.value - 1) * mode.n)
  {
    match mode
    case PerFile(s) => Ok(s)
    case FileCount(n) =>
      var c := GrepCount(Lines(text));
      if c == 0 then Err(CalledProcessError) else Target(c, n)
  }

  /** The divisor of a mode, which must not be zero (`-s` divides nothing). */
  function Divisor(mode: Mode): int {
    match mode
    case PerFile(_) => 1
    case FileCount(n) => n
    case ByteCount(b) => b
  }

  /** `Splitter(fasta, output, s, n, p, v, b)` on a file holding `text`:
      the extension first, then the mode's target, then the records. */
  function Split(fasta: string, output: string, p: string, text: string, mode: Mode): (r: Result<Outcome, Failure>)
    ensures Extension(fasta).Err? ==> r == Err(Extension(fasta).error)
    ensures r.Ok? ==> Extension(fasta).Ok?
    ensures r.Ok? ==> r.value.names == FileNames(output, Prefix(fasta, p), Extension(fasta).value, |r.value.files|)
  {
    match Extension(fasta)
    case Err(e) => Err(e)
    case Ok(ext) =>
      var prefix := Prefix(fasta, p);
      if mode.ByteCount? then SplitBySize(output, prefix, ext, text, mode.b)
      else SplitByCount(output, prefix, ext, text, mode)
  }

  /** `method_b`: the target size first, then the records. */
  function SplitBySize(output: string, prefix: string, ext: string, text: string, b: int): Result<Outcome, Failure> {
    match Target(|text|, b)
    case Err(e) => Err(e)
    case Ok(size) =>
      match ParseText(text)
      case Err(e) => Err(e)
      case Ok(recs) =>
        var files := BySize(Texts(recs), size);
        Ok(Outcome(FileNames(output, prefix, ext, |files|), files, |recs|, 0,
                   |files| + (if LastFull(files, size) then 1 else 0), |files|))
  }

  /** `method_s` and `method_n`: the quota first, then the records. */
  function SplitByCount(output: string, prefix: string, ext: string, text: string, mode: Mode): Result<Outcome, Failure>
    requires !mode.ByteCount?
  {
    match QuotaOf(mode, text)
    case Err(e) => Err(e)
    case Ok(q) =>
      match ParseText(text)
      case Err(e) => Err(e)
      case Ok(recs) =>
        var files := Chunks(Texts(recs), Quota(q));
        Ok(Outcome(FileNames(output, prefix, ext, |files|), files, |recs|, |recs| % Quota(q),
                   1 + |recs| / Quota(q), FilesCreated(|recs|, q)))
  }

  /** A run fails exactly when the input name has no '.', the mode divides
      by zero, or the file does not start with a header. The name is looked
      at first (IndexError); with `-n`, a file without any '>' makes
      `grep -c` fail (CalledProcessError) before the division
      (ZeroDivisionError); a file that does not start with a header raises
      NameError last. */
  lemma SplitFails(fasta: string, output: string, p: string, text: string, mode: Mode)
    ensures Split(fasta, output, p, text, mode).Err? <==>
      !Contains(fasta, ".") || Divisor(mode) == 0 || text == [] || text[0] != '>'
    ensures !Contains(fasta, ".") ==> Split(fasta, output, p, text, mode) == Err(IndexError)
    ensures Contains(fasta, ".") && mode.FileCount? && GrepCount(Lines(text)) == 0 ==>
      Split(fasta, output, p, text, mode) == Err(CalledProcessError)
    ensures Contains(fasta, ".") && Divisor(mode) == 0 && !(mode.FileCount? && GrepCount(Lines(text)) == 0) ==>
      Split(fasta, output, p, text, mode) == Err(ZeroDivisionError)
    ensures Contains(fasta, ".") && Divisor(mode) != 0 && (text == [] || text[0] != '>') &&
            !(mode.FileCount? && GrepCount(Lines(text)) == 0) ==>
      Split(fasta, output, p, text, mode) == Err(NameError)
  {
    ParseTextFailsIff(text);
    if text != [] && text[0] == '>' {
      GrepHeaderLine(text);
    }
    if !Contains(fasta, ".") {
      assert Extension(fasta) == Err(IndexError);
    }
  }

  /** A file starting with a header has a line that `grep -c '>'` counts. */
  lemma GrepHeaderLine(text: string)
    requires text != [] && text[0] == '>'
    ensures GrepCount(Lines(text)) > 0
  {
    ParseTextFailsIff(text);
    ParseHeaders(Lines(text));
    GrepAtLeastHeaders(Lines(text));
  }

  /** A run writes every record once, in order, reports every record as
      written, and `created` counts the files it made. */
  lemma SplitWritesAll(fasta: string, output: string, p: string, text: string, mode: Mode)
    requires Split(fasta, output, p, text, mode).Ok?
    ensures Concat(Split(fasta, output, p, text, mode).value.files) == Concat(Texts(ParseText(text).value))
    ensures Split(fasta, output, p, text, mode).value.written == |ParseText(text).value|
    ensures Split(fasta, output, p, text, mode).value.created == |Split(fasta, output, p, text, mode).value.files|
  {
    var recs := ParseText(text).value;
    var out := Split(fasta, output, p, text, mode).value;
    if mode.ByteCount? {
      var size := Target(|text|, mode.b).value;
      assert out.files == BySize(Texts(recs), size);
      BySizeWritesAll(Texts(recs), size);
    } else {
      var q := QuotaOf(mode, text).value;
      assert out.files == Chunks(Texts(recs), Quota(q));
      ChunksConcat(Texts(recs), Quota(q));
      FilesCreatedCount(Texts(recs), q);
    }
  }

  /** `-n n` with `n > 0` makes at most `n` files: the quota is taken from
      the count of '>' lines, which is at least the count of records. */
  lemma FileCountAtMost(fasta: string, output: string, p: string, text: string, n: int)
    requires n > 0 && Split(fasta, output, p, text, FileCount(n)).Ok?
    ensures Split(fasta, output, p, text, FileCount(n)).value.created <= n
  {
    var recs := ParseText(text).value;
    var out := Split(fasta, output, p, text, FileCount(n)).value;
    assert out.created == FilesCreated(|recs|, QuotaOf(FileCount(n), text).value);
    ParseHeaders(Lines(text));
    GrepAtLeastHeaders(Lines(text));
    var per := QuotaOf(FileCount(n), text).value;
    FilesWithinCount(|recs|, GrepCount(Lines(text)), per, n);
  }

  /** A quota whose `n` multiples cover the count covers the records. */
  lemma FilesWithinCount(records: nat, count: nat, per: int, n: int)
    requires n > 0 && per > 0 && per * n >= count >= records
    ensures FilesCreated(records, per) <= n
  {
    assert Quota(per) == per && n * per == per * n;
    CeilDivAtMost(records, per, n);
  }

  lemma CeilDivAtMost(a: nat, b: nat, n: nat)
    requires b > 0 && n * b >= a
    ensures CeilDiv(a, b) <= n
  {
    var r := CeilDiv(a, b);
    assert (r - 1) * b < n * b || r == 0;
    MulBounds(b, r - 1 - n);
  }

  /** Each record's header line holds a '>', so `grep -c` counts at least
      the header lines. */
  lemma {:induction false} GrepAtLeastHeaders(lines: seq<string>)
    ensures GrepCount(lines) >= |HeaderTexts(lines)|
    decreases |lines|
  {
    if lines != [] {
      GrepAtLeastHeaders(lines[..|lines| - 1]);
      var last := lines[|lines| - 1];
      if IsHeaderLine(last) {
        assert '>' == last[0];
      }
    }
  }

  lemma BySizeWritesAll(texts: seq<string>, size: int)
    ensures Concat(BySize(texts, size)) == Concat(texts)
  {
    BySizeShape(texts, size);
    TextRangeItems(texts, |texts|);
    assert texts[..|texts|] == texts;
  }

  /** The text of the first `n` items is the concatenated record texts. */
  lemma {:induction false} TextRangeItems(texts: seq<string>, n: nat)
    requires n <= |texts|
    ensures Sharding.TextRange(Items(texts), 0, n) == Concat(texts[..n])
    decreases n
  {
    if n > 0 {
      TextRangeItems(texts, n - 1);
      assert texts[..n] == texts[..n - 1] + [texts[n - 1]];
      ConcatAppend(texts[..n - 1], [texts[n - 1]]);
      ConcatSingle(texts[n - 1]);
    }
  }

  /** A run, driving a `Splitter` object. */
  method Run(fasta: string, output: string, p: string, text: string, mode: Mode) returns (r: Result<Outcome, Failure>)
    ensures r == Split(fasta, output, p, text, mode)
  {
    var ext := Extension(fasta);
    if ext.Err? {
      return Err(ext.error);
    }
    var s := new Splitter(Prefix(fasta, p), ext.value);
    if mode.ByteCount? {
      r := s.RunBySize(output, text, mode.b);
    } else {
      r := s.RunByCount(output, text, mode);
    }
  }

  /** A file that parses has at least one record. */
  lemma ParseNonEmpty(text: string)
    requires ParseText(text).Ok?
    ensures ParseText(text).value != []
  {
  }
}
