/** The running-size shard loop shared by split_nucl.py and split_prot.py:
    records are appended to shard file number `file` (1, 2, ...), and before
    each record the index moves on when the current shard already holds the
    byte target, the index is still below the thread count and, for
    proteins, the record starts a new group. A file's size is the number of
    characters appended to it. */
module Sharding {
  import opened Strings

  /** One record as it is appended to a shard, and the group it belongs to. */
  datatype Item = Item(text: string, group: string)

  /** The shard files in index order, and for each one the position of the
      record it starts with. */
  datatype Split = Split(shards: seq<string>, starts: seq<nat>)

  /** The texts of records `a` up to (not including) `b`, in order. */
  function TextRange(items: seq<Item>, a: nat, b: nat): string
    requires a <= b <= |items|
    decreases b
  {
    if a == b then [] else TextRange(items, a, b - 1) + items[b - 1].text
  }

  /** The group of the record before position `i`: `prev`, which starts as ''. */
  function PrevGroup(items: seq<Item>, i: nat): string
    requires i <= |items|
  {
    if i == 0 then "" else items[i - 1].group
  }

  /** The check made before appending `item`: the current shard exists and
      holds at least `target` characters, the group changes (when grouping),
      and the index is below `threads`. */
  predicate Advances(shards: seq<string>, prev: string, item: Item, target: int, threads: int, grouped: bool) {
    |shards| > 0 && |shards[|shards| - 1]| >= target && (!grouped || prev != item.group) && |shards| < threads
  }

  /** Appending record number `n` to the shard files: to a new shard when
      there is none yet or the index moves on, else to the current one. */
  function Place(s: Split, n: nat, prev: string, item: Item, target: int, threads: int, grouped: bool): Split {
    if s.shards == [] || Advances(s.shards, prev, item, target, threads, grouped) then
      Split(s.shards + [item.text], s.starts + [n])
    else
      Split(s.shards[|s.shards| - 1 := s.shards[|s.shards| - 1] + item.text], s.starts)
  }

  /** The shard files after appending the first `i` records, one at a time. */
  function Prefix(items: seq<Item>, i: nat, target: int, threads: int, grouped: bool): Split
    requires i <= |items|
  {
    if i == 0 then Split([], [])
    else Place(Prefix(items, i - 1, target, threads, grouped), i - 1, PrevGroup(items, i - 1), items[i - 1], target, threads, grouped)
  }

  /** The shard files after appending every record. */
  function Distribute(items: seq<Item>, target: int, threads: int, grouped: bool): Split {
    Prefix(items, |items|, target, threads, grouped)
  }

  /** Where shard `k` ends: the next shard's first record, or `n`. */
  function End(starts: seq<nat>, k: nat, n: nat): nat
    requires k < |starts|
  {
    if k + 1 < |starts| then starts[k + 1] else n
  }

  /** The shards of `n` records are consecutive non-empty blocks: one start
      per shard, the first at record 0, strictly increasing, all below `n`. */
  ghost predicate Blocks(n: nat, s: Split) {
    && |s.shards| == |s.starts|
    && (n == 0 <==> |s.shards| == 0)
    && (|s.starts| > 0 ==> s.starts[0] == 0)
    && (forall k :: 0 <= k < |s.starts| - 1 ==> s.starts[k] < s.starts[k + 1])
    && (forall k :: 0 <= k < |s.starts| ==> s.starts[k] < n)
  }

  lemma PlaceBlocks(i: nat, s: Split, prev: string, item: Item, target: int, threads: int, grouped: bool)
    requires 0 < i && Blocks(i - 1, s)
    ensures Blocks(i, Place(s, i - 1, prev, item, target, threads, grouped))
  {
  }


  lemma {:induction false} PrefixBlocks(items: seq<Item>, i: nat, target: int, threads: int, grouped: bool)
    requires i <= |items|
    ensures Blocks(i, Prefix(items, i, target, threads, grouped))
  {
    if i > 0 {
      PrefixBlocks(items, i - 1, target, threads, grouped);
      PrefixBlocksStep(items, i, target, threads, grouped);
    }
  }

  lemma PrefixBlocksStep(items: seq<Item>, i: nat, target: int, threads: int, grouped: bool)
    requires 0 < i <= |items| && Blocks(i - 1, Prefix(items, i - 1, target, threads, grouped))
    ensures Blocks(i, Prefix(items, i, target, threads, grouped))
  {
    PlaceBlocks(i, Prefix(items, i - 1, target, threads, grouped), PrevGroup(items, i - 1), items[i - 1], target, threads, grouped);
  }

  /** The shards of the first `n` records are blocks, and each holds
      exactly the texts of its block. */
  ghost predicate Contents(items: seq<Item>, n: nat, s: Split)
    requires n <= |items|
  {
    Blocks(n, s) &&
    forall k :: 0 <= k < |s.shards| ==> s.shards[k] == TextRange(items, s.starts[k], End(s.starts, k, n))
  }

  lemma PlaceContents(items: seq<Item>, i: nat, s: Split, prev: string, target: int, threads: int, grouped: bool)
    requires 0 < i <= |items|
    requires Contents(items, i - 1, s)
    ensures Contents(items, i, Place(s, i - 1, prev, items[i - 1], target, threads, grouped))
  {
    var n := i - 1;
    var r := Place(s, n, prev, items[n], target, threads, grouped);
    PlaceBlocks(i, s, prev, items[n], target, threads, grouped);
    forall k | 0 <= k < |r.shards|
      ensures r.shards[k] == TextRange(items, r.starts[k], End(r.starts, k, i))
    {
      if k < |s.shards| - 1 {
        assert r.shards[k] == s.shards[k] && r.starts[k] == s.starts[k];
        assert End(r.starts, k, i) == End(s.starts, k, n);
      } else if k == |s.shards| - 1 && |r.shards| > |s.shards| {
        assert r.shards[k] == s.shards[k] && End(r.starts, k, i) == n;
      }
    }
  }

  /** Each shard is one block of consecutive records, holding exactly their texts. */
  lemma {:induction false} PrefixContents(items: seq<Item>, i: nat, target: int, threads: int, grouped: bool)
    requires i <= |items|
    ensures Contents(items, i, Prefix(items, i, target, threads, grouped))
  {
    if i > 0 {
      PrefixContents(items, i - 1, target, threads, grouped);
      PrefixContentsStep(items, i, target, threads, grouped);
    }
  }

  lemma PrefixContentsStep(items: seq<Item>, i: nat, target: int, threads: int, grouped: bool)
    requires 0 < i <= |items|
    requires Contents(items, i - 1, Prefix(items, i - 1, target, threads, grouped))
    ensures Contents(items, i, Prefix(items, i, target, threads, grouped))
  {
    PlaceContents(items, i, Prefix(items, i - 1, target, threads, grouped), PrevGroup(items, i - 1), target, threads, grouped);
  }

  lemma PlaceConcat(s: Split, n: nat, prev: string, item: Item, target: int, threads: int, grouped: bool)
    ensures Concat(Place(s, n, prev, item, target, threads, grouped).shards) == Concat(s.shards) + item.text
  {
    var r := Place(s, n, prev, item, target, threads, grouped).shards;
    if |r| > |s.shards| {
      ConcatSnoc(s.shards, item.text);
    } else {
      var m := |s.shards| - 1;
      assert s.shards == s.shards[..m] + [s.shards[m]];
      assert r == s.shards[..m] + [s.shards[m] + item.text];
      ConcatSnoc(s.shards[..m], s.shards[m]);
      ConcatSnoc(s.shards[..m], s.shards[m] + item.text);
    }
  }

  lemma {:induction false} PrefixKeepsOrder(items: seq<Item>, i: nat, target: int, threads: int, grouped: bool)
    requires i <= |items|
    ensures Concat(Prefix(items, i, target, threads, grouped).shards) == TextRange(items, 0, i)
  {
    if i > 0 {
      PrefixKeepsOrder(items, i - 1, target, threads, grouped);
      PlaceConcat(Prefix(items, i - 1, target, threads, grouped), i - 1, PrevGroup(items, i - 1), items[i - 1], target, threads, grouped);
    }
  }

  /** The shard count: none without records, at least one with, and never
      more than `threads` (one when `threads` is below 1), since the index
      starts at 1 and only moves on while below `threads`. */
  lemma {:induction false} PrefixCount(items: seq<Item>, i: nat, target: int, threads: int, grouped: bool)
    requires i <= |items|
    ensures i == 0 <==> Prefix(items, i, target, threads, grouped).shards == []
    ensures |Prefix(items, i, target, threads, grouped).shards| <= (if threads < 1 then 1 else threads)
  {
    if i > 0 {
      PrefixCount(items, i - 1, target, threads, grouped);
    }
  }

  /** Every shard but the last holds at least the target. */
  ghost predicate ClosedFull(s: Split, target: int) {
    forall k :: 0 <= k < |s.shards| - 1 ==> |s.shards[k]| >= target
  }

  lemma PlaceClosedFull(s: Split, n: nat, prev: string, item: Item, target: int, threads: int, grouped: bool)
    requires ClosedFull(s, target)
    ensures ClosedFull(Place(s, n, prev, item, target, threads, grouped), target)
  {
  }

  lemma {:induction false} PrefixClosedFull(items: seq<Item>, i: nat, target: int, threads: int, grouped: bool)
    requires i <= |items|
    ensures ClosedFull(Prefix(items, i, target, threads, grouped), target)
  {
    if i > 0 {
      PrefixClosedFull(items, i - 1, target, threads, grouped);
      PlaceClosedFull(Prefix(items, i - 1, target, threads, grouped), i - 1, PrevGroup(items, i - 1), items[i - 1], target, threads, grouped);
    }
  }

  /** Each shard after the first starts with a record whose group differs
      from the record before it. */
  ghost predicate GroupChangesAtStarts(items: seq<Item>, s: Split) {
    forall k :: 0 <= k < |s.starts| && 0 < s.starts[k] < |items| ==>
      items[s.starts[k] - 1].group != items[s.starts[k]].group
  }

  lemma PlaceGroupBoundary(items: seq<Item>, i: nat, s: Split, target: int, threads: int)
    requires 0 < i <= |items| && Blocks(i - 1, s) && GroupChangesAtStarts(items, s)
    ensures Blocks(i, Place(s, i - 1, PrevGroup(items, i - 1), items[i - 1], target, threads, true))
    ensures GroupChangesAtStarts(items, Place(s, i - 1, PrevGroup(items, i - 1), items[i - 1], target, threads, true))
  {
    PlaceBlocks(i, s, PrevGroup(items, i - 1), items[i - 1], target, threads, true);
  }

  lemma {:induction false} PrefixGroupBoundary(items: seq<Item>, i: nat, target: int, threads: int)
    requires i <= |items|
    ensures Blocks(i, Prefix(items, i, target, threads, true))
    ensures GroupChangesAtStarts(items, Prefix(items, i, target, threads, true))
  {
    if i > 0 {
      PrefixGroupBoundary(items, i - 1, target, threads);
      PrefixGroupStep(items, i, target, threads);
    }
  }

  lemma PrefixGroupStep(items: seq<Item>, i: nat, target: int, threads: int)
    requires 0 < i <= |items|
    requires Blocks(i - 1, Prefix(items, i - 1, target, threads, true))
    requires GroupChangesAtStarts(items, Prefix(items, i - 1, target, threads, true))
    ensures Blocks(i, Prefix(items, i, target, threads, true))
    ensures GroupChangesAtStarts(items, Prefix(items, i, target, threads, true))
  {
    PlaceGroupBoundary(items, i, Prefix(items, i - 1, target, threads, true), target, threads);
  }

  /** Without grouping, a shard that was open while the index could still
      move holds less than the target before its last record; in particular
      every closed shard is below the target plus its final record. */
  ghost predicate Tight(items: seq<Item>, n: nat, s: Split, target: int, threads: int)
    requires n <= |items|
  {
    Blocks(n, s) &&
    forall k :: 0 <= k < |s.shards| && (k < |s.shards| - 1 || |s.shards| < threads) && 0 < End(s.starts, k, n) ==>
      |s.shards[k]| - |items[End(s.starts, k, n) - 1].text| < target
  }

  lemma PlaceTight(items: seq<Item>, i: nat, s: Split, target: int, threads: int)
    requires target > 0 && 0 < i <= |items|
    requires Tight(items, i - 1, s, target, threads)
    ensures Tight(items, i, Place(s, i - 1, PrevGroup(items, i - 1), items[i - 1], target, threads, false), target, threads)
  {
    var n := i - 1;
    var r := Place(s, n, PrevGroup(items, n), items[n], target, threads, false);
    PlaceBlocks(i, s, PrevGroup(items, n), items[n], target, threads, false);
    forall k | 0 <= k < |r.shards| && (k < |r.shards| - 1 || |r.shards| < threads) && 0 < End(r.starts, k, i)
      ensures |r.shards[k]| - |items[End(r.starts, k, i) - 1].text| < target
    {
      if k < |s.shards| - 1 {
        assert r.shards[k] == s.shards[k] && End(r.starts, k, i) == End(s.starts, k, n);
      } else if k == |s.shards| - 1 && |r.shards| > |s.shards| {
        assert r.shards[k] == s.shards[k] && End(r.starts, k, i) == n == End(s.starts, k, n);
      } else if k == |s.shards| - 1 {
        assert End(r.starts, k, i) == i;
        assert r.shards[k] == s.shards[k] + items[n].text;
      }
    }
  }

  lemma {:induction false} PrefixTight(items: seq<Item>, i: nat, target: int, threads: int)
    requires target > 0 && i <= |items|
    ensures Tight(items, i, Prefix(items, i, target, threads, false), target, threads)
  {
    if i > 0 {
      PrefixTight(items, i - 1, target, threads);
      PrefixTightStep(items, i, target, threads);
    }
  }

  lemma PrefixTightStep(items: seq<Item>, i: nat, target: int, threads: int)
    requires target > 0 && 0 < i <= |items|
    requires Tight(items, i - 1, Prefix(items, i - 1, target, threads, false), target, threads)
    ensures Tight(items, i, Prefix(items, i, target, threads, false), target, threads)
  {
    PlaceTight(items, i, Prefix(items, i - 1, target, threads, false), target, threads);
  }

  /** The properties of the finished split: every record written once, in
      order, into consecutive blocks; between one and `threads` shards; every
      closed shard at or over the target. */
  lemma DistributeShape(items: seq<Item>, target: int, threads: int, grouped: bool)
    ensures Blocks(|items|, Distribute(items, target, threads, grouped))
    ensures Contents(items, |items|, Distribute(items, target, threads, grouped))
    ensures Concat(Distribute(items, target, threads, grouped).shards) == TextRange(items, 0, |items|)
    ensures items == [] <==> Distribute(items, target, threads, grouped).shards == []
    ensures |Distribute(items, target, threads, grouped).shards| <= (if threads < 1 then 1 else threads)
    ensures ClosedFull(Distribute(items, target, threads, grouped), target)
  {
    PrefixContents(items, |items|, target, threads, grouped);
    PrefixKeepsOrder(items, |items|, target, threads, grouped);
    PrefixCount(items, |items|, target, threads, grouped);
    PrefixClosedFull(items, |items|, target, threads, grouped);
  }

  /** The shard loop: `file` starts at 1, moves on when `Advances` holds, and
      each record is appended to shard `file`. */
  method Shard(items: seq<Item>, target: int, threads: int, grouped: bool) returns (shards: seq<string>)
    ensures shards == Distribute(items, target, threads, grouped).shards
  {
    shards := [];
    var file := 1;
    var prev := "";
    var i := 0;
    while i < |items|
      invariant 0 <= i <= |items|
      invariant shards == Prefix(items, i, target, threads, grouped).shards
      invariant file == if shards == [] then 1 else |shards|
      invariant prev == PrevGroup(items, i)
    {
      var item := items[i];
      if file <= |shards| && |shards[file - 1]| >= target && (!grouped || prev != item.group) && file < threads {
        file := file + 1;
      }
      if file > |shards| {
        shards := shards + [item.text];
      } else {
        shards := shards[file - 1 := shards[file - 1] + item.text];
      }
      prev := item.group;
      i := i + 1;
    }
  }
}
