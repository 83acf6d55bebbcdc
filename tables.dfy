/** The pandas table operations the scripts use: `sort_values` on one
    numeric column and `drop_duplicates(subset=..., keep='first')`. pandas'
    default sort is not stable, so the properties below hold for EVERY
    sorted permutation of the rows; `SortBy` is one such permutation. */
module Tables {
  /** `a` may come before `b` in the requested direction. */
  predicate InOrder(a: real, b: real, ascending: bool) {
    if ascending then a <= b else b <= a
  }

  ghost predicate SortedBy<T>(xs: seq<T>, key: T -> real, ascending: bool) {
    forall i, j :: 0 <= i < j < |xs| ==> InOrder(key(xs[i]), key(xs[j]), ascending)
  }

  /** `x` placed after every element it does not strictly precede. */
  function Insert<T>(x: T, ys: seq<T>, key: T -> real, ascending: bool): (r: seq<T>)
    ensures multiset(r) == multiset(ys) + multiset{x}
  {
    if ys == [] then [x]
    else if InOrder(key(x), key(ys[0]), ascending) && key(x) != key(ys[0]) then [x] + ys
    else
      assert ys == [ys[0]] + ys[1..];
      [ys[0]] + Insert(x, ys[1..], key, ascending)
  }

  lemma {:induction false} InsertSorted<T>(x: T, ys: seq<T>, key: T -> real, ascending: bool)
    requires SortedBy(ys, key, ascending)
    ensures SortedBy(Insert(x, ys, key, ascending), key, ascending)
    decreases |ys|, 1
  {
    if ys == [] {
    } else if InOrder(key(x), key(ys[0]), ascending) && key(x) != key(ys[0]) {
      var r := [x] + ys;
      forall i, j | 0 <= i < j < |r| ensures InOrder(key(r[i]), key(r[j]), ascending) {
        if i == 0 {
          assert InOrder(key(ys[0]), key(ys[j - 1]), ascending) || j == 1;
        } else {
          assert r[i] == ys[i - 1] && r[j] == ys[j - 1];
        }
      }
    } else {
      InsertSortedAfter(x, ys, key, ascending);
    }
  }

  /** The case where `x` goes after the first element. */
  lemma {:induction false} InsertSortedAfter<T>(x: T, ys: seq<T>, key: T -> real, ascending: bool)
    requires SortedBy(ys, key, ascending)
    requires ys != [] && !(InOrder(key(x), key(ys[0]), ascending) && key(x) != key(ys[0]))
    ensures SortedBy(Insert(x, ys, key, ascending), key, ascending)
    decreases |ys|, 0
  {
    var tail := ys[1..];
    assert SortedBy(tail, key, ascending);
    InsertSorted(x, tail, key, ascending);
    var rest := Insert(x, tail, key, ascending);
    var r := [ys[0]] + rest;
    assert Insert(x, ys, key, ascending) == r;
    forall i, j | 0 <= i < j < |r| ensures InOrder(key(r[i]), key(r[j]), ascending) {
      if i == 0 {
        HeadFirst(x, ys, key, ascending, r[j]);
      } else {
        assert r[i] == rest[i - 1] && r[j] == rest[j - 1];
      }
    }
  }

  /** An element of `x` inserted into the tail of `ys` that is not `x`
      comes from that tail. */
  lemma FromTail<T>(x: T, ys: seq<T>, key: T -> real, ascending: bool, z: T) returns (m: nat)
    requires ys != [] && z in multiset(Insert(x, ys[1..], key, ascending)) && z != x
    ensures 1 <= m < |ys| && ys[m] == z
  {
    var tail := ys[1..];
    assert z in multiset(tail);
    var k :| 0 <= k < |tail| && tail[k] == z;
    m := k + 1;
  }

  /** The first element, when `x` does not go before it, may come before
      every element of the insertion into the tail. */
  lemma HeadFirst<T>(x: T, ys: seq<T>, key: T -> real, ascending: bool, z: T)
    requires SortedBy(ys, key, ascending)
    requires ys != [] && !(InOrder(key(x), key(ys[0]), ascending) && key(x) != key(ys[0]))
    requires z in Insert(x, ys[1..], key, ascending)
    ensures InOrder(key(ys[0]), key(z), ascending)
  {
    assert z in multiset(Insert(x, ys[1..], key, ascending));
    if z != x {
      var m := FromTail(x, ys, key, ascending, z);
    }
  }

  /** `df.sort_values(by=key, ascending=ascending)`, as an insertion sort. */
  function SortBy<T>(xs: seq<T>, key: T -> real, ascending: bool): (r: seq<T>)
    ensures multiset(r) == multiset(xs)
    ensures SortedBy(r, key, ascending)
  {
    if xs == [] then []
    else
      assert xs == xs[..|xs| - 1] + [xs[|xs| - 1]];
      var sorted := SortBy(xs[..|xs| - 1], key, ascending);
      InsertSorted(xs[|xs| - 1], sorted, key, ascending);
      Insert(xs[|xs| - 1], sorted, key, ascending)
  }

  /** `prec` holds between every element and each later one. */
  ghost predicate Ranked<T>(xs: seq<T>, prec: (T, T) -> bool) {
    forall i, j :: 0 <= i < j < |xs| ==> prec(xs[i], xs[j])
  }

  /** Elements with equal keys keep the order `prec` gives them. */
  ghost predicate StableBy<T>(xs: seq<T>, key: T -> real, prec: (T, T) -> bool) {
    forall i, j :: 0 <= i < j < |xs| && key(xs[i]) == key(xs[j]) ==> prec(xs[i], xs[j])
  }

  /** An element strictly before the first of a sorted sequence is
      strictly before all of it. */
  lemma FrontIsStrict<T>(x: T, ys: seq<T>, key: T -> real, ascending: bool, j: nat)
    requires SortedBy(ys, key, ascending) && 0 <= j < |ys|
    requires InOrder(key(x), key(ys[0]), ascending) && key(x) != key(ys[0])
    ensures key(x) != key(ys[j])
  {
    if j > 0 {
      assert InOrder(key(ys[0]), key(ys[j]), ascending);
    }
  }

  lemma {:induction false} InsertStable<T>(x: T, ys: seq<T>, key: T -> real, ascending: bool, prec: (T, T) -> bool)
    requires SortedBy(ys, key, ascending) && StableBy(ys, key, prec)
    requires forall y :: y in ys ==> prec(y, x)
    ensures StableBy(Insert(x, ys, key, ascending), key, prec)
    decreases |ys|, 1
  {
    if ys == [] {
    } else if InOrder(key(x), key(ys[0]), ascending) && key(x) != key(ys[0]) {
      var r := [x] + ys;
      forall j | 0 < j < |r| ensures key(r[0]) != key(r[j]) {
        FrontIsStrict(x, ys, key, ascending, j - 1);
      }
      forall i, j | 0 < i < j < |r| && key(r[i]) == key(r[j]) ensures prec(r[i], r[j]) {
        assert r[i] == ys[i - 1] && r[j] == ys[j - 1];
      }
    } else {
      InsertStableAfter(x, ys, key, ascending, prec);
    }
  }

  /** The case where `x` goes after the first element. */
  lemma {:induction false} InsertStableAfter<T>(x: T, ys: seq<T>, key: T -> real, ascending: bool, prec: (T, T) -> bool)
    requires SortedBy(ys, key, ascending) && StableBy(ys, key, prec)
    requires forall y :: y in ys ==> prec(y, x)
    requires ys != [] && !(InOrder(key(x), key(ys[0]), ascending) && key(x) != key(ys[0]))
    ensures StableBy(Insert(x, ys, key, ascending), key, prec)
    decreases |ys|, 0
  {
    var tail := ys[1..];
    assert SortedBy(tail, key, ascending) && StableBy(tail, key, prec);
    assert forall y :: y in tail ==> y in ys;
    InsertStable(x, tail, key, ascending, prec);
    var rest := Insert(x, tail, key, ascending);
    var r := [ys[0]] + rest;
    assert Insert(x, ys, key, ascending) == r;
    forall i, j | 0 <= i < j < |r| && key(r[i]) == key(r[j]) ensures prec(r[i], r[j]) {
      if i == 0 {
        HeadPrecedes(x, ys, key, ascending, prec, r[j]);
      } else {
        assert r[i] == rest[i - 1] && r[j] == rest[j - 1];
      }
    }
  }

  /** The first element precedes every element of equal key that the
      insertion into the tail holds. */
  lemma HeadPrecedes<T>(x: T, ys: seq<T>, key: T -> real, ascending: bool, prec: (T, T) -> bool, z: T)
    requires StableBy(ys, key, prec) && forall y :: y in ys ==> prec(y, x)
    requires ys != [] && z in Insert(x, ys[1..], key, ascending) && key(ys[0]) == key(z)
    ensures prec(ys[0], z)
  {
    assert z in multiset(Insert(x, ys[1..], key, ascending));
    if z != x {
      var m := FromTail(x, ys, key, ascending, z);
    }
  }

  /** `SortBy` is stable: elements with equal keys keep their input order.
      It is therefore the result of Python's `list.sort`, `reverse` or not. */
  lemma {:induction false} SortByStable<T>(xs: seq<T>, key: T -> real, ascending: bool, prec: (T, T) -> bool)
    requires Ranked(xs, prec)
    ensures StableBy(SortBy(xs, key, ascending), key, prec)
  {
    if xs != [] {
      var front := xs[..|xs| - 1];
      var x := xs[|xs| - 1];
      assert Ranked(front, prec);
      SortByStable(front, key, ascending, prec);
      var sorted := SortBy(front, key, ascending);
      forall y | y in sorted ensures prec(y, x) {
        assert y in multiset(front);
        var m :| 0 <= m < |front| && front[m] == y;
      }
      InsertStable(x, sorted, key, ascending, prec);
    }
  }

  /** The values of the key column. */
  function Keys<T, K(==)>(xs: seq<T>, key: T -> K): set<K> {
    set i | 0 <= i < |xs| :: key(xs[i])
  }

  ghost predicate DistinctKeys<T, K>(xs: seq<T>, key: T -> K) {
    forall i, j :: 0 <= i < j < |xs| ==> key(xs[i]) != key(xs[j])
  }

  /** `df.drop_duplicates(subset=key, keep='first')`. */
  function DropDuplicates<T, K(==)>(xs: seq<T>, key: T -> K): seq<T> {
    if xs == [] then []
    else
      var kept := DropDuplicates(xs[..|xs| - 1], key);
      if key(xs[|xs| - 1]) in Keys(kept, key) then kept else kept + [xs[|xs| - 1]]
  }

  lemma KeysSnoc<T, K>(xs: seq<T>, x: T, key: T -> K)
    ensures Keys(xs + [x], key) == Keys(xs, key) + {key(x)}
  {
    var ys := xs + [x];
    assert forall i :: 0 <= i < |xs| ==> ys[i] == xs[i];
    assert ys[|xs|] == x;
  }

  /** Drop-duplicates keeps one row per key value, and only input rows. */
  lemma {:induction false} DropDuplicatesKeys<T, K>(xs: seq<T>, key: T -> K)
    ensures Keys(DropDuplicates(xs, key), key) == Keys(xs, key)
    ensures DistinctKeys(DropDuplicates(xs, key), key)
    ensures forall i :: 0 <= i < |DropDuplicates(xs, key)| ==> DropDuplicates(xs, key)[i] in xs
  {
    if xs != [] {
      var n := |xs| - 1;
      var p := xs[..n];
      var kept := DropDuplicates(p, key);
      DropDuplicatesKeys(p, key);
      assert xs == p + [xs[n]];
      KeysSnoc(p, xs[n], key);
      if key(xs[n]) !in Keys(kept, key) {
        KeysSnoc(kept, xs[n], key);
        var r := kept + [xs[n]];
        forall i, j | 0 <= i < j < |r| ensures key(r[i]) != key(r[j]) {
          if j == |kept| {
            assert key(r[i]) in Keys(kept, key);
          }
        }
      }
    }
  }

  /** The first row of every key value is the one kept. */
  lemma {:induction false} DropDuplicatesFirst<T, K>(xs: seq<T>, key: T -> K)
    ensures forall j :: 0 <= j < |xs| && key(xs[j]) !in Keys(xs[..j], key) ==> xs[j] in DropDuplicates(xs, key)
  {
    if xs != [] {
      var n := |xs| - 1;
      var p := xs[..n];
      var kept := DropDuplicates(p, key);
      var r := DropDuplicates(xs, key);
      DropDuplicatesFirst(p, key);
      DropDuplicatesKeys(p, key);
      assert kept <= r;
      forall j | 0 <= j < |xs| && key(xs[j]) !in Keys(xs[..j], key) ensures xs[j] in r {
        if j < n {
          assert p[..j] == xs[..j] && p[j] == xs[j];
          assert xs[j] in kept;
        } else {
          assert xs[..j] == p;
          assert r == kept + [xs[n]];
        }
      }
    }
  }

  /** Drop-duplicates keeps the order of the rows it keeps. */
  lemma {:induction false} DropDuplicatesSorted<T, K>(xs: seq<T>, key: T -> K, val: T -> real, ascending: bool)
    requires SortedBy(xs, val, ascending)
    ensures SortedBy(DropDuplicates(xs, key), val, ascending)
    ensures forall i :: 0 <= i < |DropDuplicates(xs, key)| ==> DropDuplicates(xs, key)[i] in xs
  {
    if xs != [] {
      var n := |xs| - 1;
      var p := xs[..n];
      DropDuplicatesSorted(p, key, val, ascending);
      var kept := DropDuplicates(p, key);
      forall i | 0 <= i < |kept| ensures InOrder(val(kept[i]), val(xs[n]), ascending) {
        var j :| 0 <= j < n && p[j] == kept[i];
      }
    }
  }

  /** Every kept row is, among all rows with its key, first in the sort
      direction: the smallest value when ascending, the largest otherwise. */
  ghost predicate BestOfEachKey<T, K>(r: seq<T>, xs: seq<T>, key: T -> K, val: T -> real, ascending: bool) {
    forall i, j :: 0 <= i < |r| && 0 <= j < |xs| && key(xs[j]) == key(r[i]) ==> InOrder(val(r[i]), val(xs[j]), ascending)
  }

  lemma {:induction false} DropDuplicatesBest<T, K>(xs: seq<T>, key: T -> K, val: T -> real, ascending: bool)
    requires SortedBy(xs, val, ascending)
    ensures BestOfEachKey(DropDuplicates(xs, key), xs, key, val, ascending)
  {
    if xs != [] {
      var n := |xs| - 1;
      var p := xs[..n];
      DropDuplicatesBest(p, key, val, ascending);
      DropDuplicatesKeys(p, key);
      DropDuplicatesSorted(p, key, val, ascending);
      var kept := DropDuplicates(p, key);
      var r := DropDuplicates(xs, key);
      forall i, j | 0 <= i < |r| && 0 <= j < |xs| && key(xs[j]) == key(r[i])
        ensures InOrder(val(r[i]), val(xs[j]), ascending)
      {
        if i < |kept| {
          assert r[i] == kept[i];
          if j == n {
            var m :| 0 <= m < n && p[m] == kept[i];
          } else {
            assert xs[j] == p[j];
          }
        } else {
          // xs[n] was appended: no earlier row has its key
          assert r[i] == xs[n] && key(xs[n]) !in Keys(p, key);
          assert forall m :: 0 <= m < n ==> key(p[m]) in Keys(p, key);
          assert j == n;
        }
      }
    }
  }

  lemma KeysOfPermutation<T, K>(xs: seq<T>, ys: seq<T>, key: T -> K)
    requires multiset(xs) == multiset(ys)
    ensures Keys(xs, key) == Keys(ys, key)
  {
    forall k | k in Keys(xs, key) ensures k in Keys(ys, key) {
      var i :| 0 <= i < |xs| && key(xs[i]) == k;
      assert xs[i] in multiset(ys);
      var j :| 0 <= j < |ys| && ys[j] == xs[i];
    }
    forall k | k in Keys(ys, key) ensures k in Keys(xs, key) {
      var i :| 0 <= i < |ys| && key(ys[i]) == k;
      assert ys[i] in multiset(xs);
      var j :| 0 <= j < |xs| && xs[j] == ys[i];
    }
  }

  /** Sort, then drop duplicates, for any order pandas may pick among
      equal values: exactly one row per key value of the input, every kept
      row an input row that is best for its key, the result still sorted. */
  lemma BestPerKey<T, K>(xs: seq<T>, ys: seq<T>, key: T -> K, val: T -> real, ascending: bool)
    requires multiset(ys) == multiset(xs) && SortedBy(ys, val, ascending)
    ensures Keys(DropDuplicates(ys, key), key) == Keys(xs, key)
    ensures DistinctKeys(DropDuplicates(ys, key), key)
    ensures forall i :: 0 <= i < |DropDuplicates(ys, key)| ==> DropDuplicates(ys, key)[i] in xs
    ensures BestOfEachKey(DropDuplicates(ys, key), xs, key, val, ascending)
    ensures SortedBy(DropDuplicates(ys, key), val, ascending)
  {
    var r := DropDuplicates(ys, key);
    DropDuplicatesKeys(ys, key);
    DropDuplicatesSorted(ys, key, val, ascending);
    DropDuplicatesBest(ys, key, val, ascending);
    KeysOfPermutation(xs, ys, key);
    forall i | 0 <= i < |r| ensures r[i] in xs {
      assert r[i] in multiset(ys);
    }
    forall i, j | 0 <= i < |r| && 0 <= j < |xs| && key(xs[j]) == key(r[i])
      ensures InOrder(val(r[i]), val(xs[j]), ascending)
    {
      assert xs[j] in multiset(ys);
      var m :| 0 <= m < |ys| && ys[m] == xs[j];
    }
  }
}
