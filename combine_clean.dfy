/** combine_clean.py, `summarize_AMGs`: counts the KEGG accessions (KOs) of
    the AMG table, orders them by count, names them, and joins each with the
    KEGG pathways that list it. The AMG table is given as its KO column. */
module CombineClean {
  import opened Wrappers
  import opened Strings
  import opened Numbers
  import opened Tables
  import Annotations

  // ---------------------------------------------------------------------
  // KO names

  /** A KO accession: a cell whose first character is `K`. */
  predicate IsKo(cell: string) {
    cell != "" && cell[0] == 'K'
  }

  /** Key cell `i` cannot be read: `items[i][0]` fails on an empty cell, and
      a `K` cell with no cell after it has no name. */
  ghost predicate Unreadable(items: seq<string>, i: nat)
    requires i < |items|
  {
    items[i] == "" || (i + 1 == |items| && items[i][0] == 'K')
  }

  ghost predicate BadKey(items: seq<string>) {
    exists i :: 0 <= i < |items| && i % 2 == 0 && Unreadable(items, i)
  }

  /** The key cells that are KO accessions. */
  ghost function KoCells(items: seq<string>): set<string> {
    set i | 0 <= i < |items| && i % 2 == 0 && IsKo(items[i]) :: items[i]
  }

  /** `{items[i]: items[i+1] for i in range(0, len(items), 2) if items[i][0] == 'K'}`,
      evaluated from the left; a later pair overwrites an earlier one. */
  function KoNames(items: seq<string>): Result<map<string, string>, Failure>
    decreases |items|
  {
    if |items| == 0 then Ok(map[])
    else if items[0] == "" then Err(IndexError)
    else if items[0][0] != 'K' then (if |items| == 1 then Ok(map[]) else KoNames(items[2..]))
    else if |items| == 1 then Err(IndexError)
    else
      match KoNames(items[2..])
      case Err(e) => Err(e)
      case Ok(m) => Ok(map[items[0] := items[1]] + m)
  }

  lemma UnreadableShift(items: seq<string>, i: nat)
    requires |items| >= 2 && i + 2 < |items|
    ensures Unreadable(items, i + 2) == Unreadable(items[2..], i)
  {
    assert items[2..][i] == items[i + 2];
  }

  /** The names fail exactly when some key cell is empty or the file ends
      on a `K` key, and always with IndexError. A file whose last row ends
      in a newline has an empty last key cell when its cell count is odd. */
  lemma {:induction false} KoNamesFail(items: seq<string>)
    ensures KoNames(items).Err? <==> BadKey(items)
    ensures KoNames(items).Err? ==> KoNames(items).error == IndexError
    decreases |items|
  {
    if |items| == 0 {
    } else if items[0] == "" || |items| == 1 {
      assert Unreadable(items, 0) <==> KoNames(items).Err?;
      if BadKey(items) {
        var i :| 0 <= i < |items| && i % 2 == 0 && Unreadable(items, i);
      }
    } else {
      var rest := items[2..];
      KoNamesFail(rest);
      assert !Unreadable(items, 0);
      if BadKey(rest) {
        var i :| 0 <= i < |rest| && i % 2 == 0 && Unreadable(rest, i);
        UnreadableShift(items, i);
      }
      if BadKey(items) {
        var i :| 0 <= i < |items| && i % 2 == 0 && Unreadable(items, i);
        UnreadableShift(items, i - 2);
      }
    }
  }

  lemma KoCellsFront(items: seq<string>)
    requires |items| >= 2
    ensures KoCells(items) == (if IsKo(items[0]) then {items[0]} else {}) + KoCells(items[2..])
  {
    var rest := items[2..];
    forall x | x in KoCells(items) ensures x in (if IsKo(items[0]) then {items[0]} else {}) + KoCells(rest) {
      var i :| 0 <= i < |items| && i % 2 == 0 && IsKo(items[i]) && items[i] == x;
      if i >= 2 {
        assert rest[i - 2] == x;
      }
    }
    forall x | x in KoCells(rest) ensures x in KoCells(items) {
      var i :| 0 <= i < |rest| && i % 2 == 0 && IsKo(rest[i]) && rest[i] == x;
      assert items[i + 2] == x;
    }
  }

  /** The names map has exactly the KO key cells as keys. */
  lemma {:induction false} KoNamesKeys(items: seq<string>)
    requires KoNames(items).Ok?
    ensures KoNames(items).value.Keys == KoCells(items)
    decreases |items|
  {
    if |items| == 1 {
      assert !IsKo(items[0]);
      assert KoCells(items) == {};
    } else if |items| >= 2 {
      KoNamesKeys(items[2..]);
      KoCellsFront(items);
    }
  }

  /** A KO key cell that no later key cell repeats is named by the cell after it. */
  lemma {:induction false} KoNamesAt(items: seq<string>, i: nat)
    requires KoNames(items).Ok?
    requires i < |items| && i % 2 == 0 && IsKo(items[i]) && Annotations.LastKey(items, i)
    ensures i + 1 < |items|
    ensures items[i] in KoNames(items).value && KoNames(items).value[items[i]] == items[i + 1]
    decreases i
  {
    var rest := items[2..];
    if i == 0 {
      assert |items| >= 2;
      KoNamesKeys(rest);
      assert items[0] !in KoCells(rest) by {
        forall j | 0 <= j < |rest| && j % 2 == 0 ensures rest[j] != items[0] {
          assert rest[j] == items[j + 2];
        }
      }
    } else {
      assert Annotations.LastKey(rest, i - 2) by {
        forall j | i - 2 < j < |rest| && j % 2 == 0 ensures rest[j] != rest[i - 2] {
          assert rest[j] == items[j + 2];
        }
      }
      assert rest[i - 2] == items[i];
      KoNamesAt(rest, i - 2);
      assert rest[i - 1] == items[i + 1];
    }
  }

  /** `names.get(val, 'hypothetical protein')`. */
  function NameOf(names: map<string, string>, ko: string): string {
    if ko in names then names[ko] else "hypothetical protein"
  }

  // ---------------------------------------------------------------------
  // Pathways

  /** One pathway of the KEGG pathway summary. */
  datatype Pathway = Pathway(entry: string, metabolism: string, pathway: string)

  /** `entry, meta, path, kos = item.split('\t')`, then `kos.split('~')`:
      anything but four fields raises ValueError. */
  function PathwayLine(line: string): (r: Result<(Pathway, seq<string>), Failure>)
    ensures r.Err? <==> |Split(line, '\t')| != 4
    ensures r.Err? ==> r.error == ValueError
    ensures r.Ok? ==> |r.value.1| >= 1
  {
    var f := Split(line, '\t');
    if |f| != 4 then Err(ValueError) else Ok((Pathway(f[0], f[1], f[2]), Split(f[3], '~')))
  }

  function Listed(m: map<string, seq<Pathway>>, k: string): seq<Pathway> {
    if k in m then m[k] else []
  }

  /** `for k in kos: pathways.setdefault(k, []).append(p)`. */
  function AddPathway(m: map<string, seq<Pathway>>, p: Pathway, kos: seq<string>): map<string, seq<Pathway>>
    decreases |kos|
  {
    if kos == [] then m
    else
      var m' := AddPathway(m, p, kos[..|kos| - 1]);
      var k := kos[|kos| - 1];
      m'[k := Listed(m', k) + [p]]
  }

  /** `p` once for every time `k` is listed in `kos`. */
  function Repeat(p: Pathway, n: nat): (r: seq<Pathway>)
    ensures |r| == n && forall i :: 0 <= i < n ==> r[i] == p
  {
    seq(n, _ => p)
  }

  /** Adding a line appends its pathway to each KO it lists, once per
      listing, and adds no other key. */
  lemma {:induction false} AddPathwayListed(m: map<string, seq<Pathway>>, p: Pathway, kos: seq<string>, k: string)
    ensures Listed(AddPathway(m, p, kos), k) == Listed(m, k) + Repeat(p, multiset(kos)[k])
    ensures k in AddPathway(m, p, kos) <==> k in m || k in kos
    decreases |kos|
  {
    if kos != [] {
      AddPathwayListed(m, p, kos[..|kos| - 1], k);
      AddPathwayStep(m, p, kos, k);
    }
  }

  /** The step of `AddPathwayListed` for the last KO of the line. */
  lemma AddPathwayStep(m: map<string, seq<Pathway>>, p: Pathway, kos: seq<string>, k: string)
    requires kos != []
    requires Listed(AddPathway(m, p, kos[..|kos| - 1]), k) == Listed(m, k) + Repeat(p, multiset(kos[..|kos| - 1])[k])
    requires k in AddPathway(m, p, kos[..|kos| - 1]) <==> k in m || k in kos[..|kos| - 1]
    ensures Listed(AddPathway(m, p, kos), k) == Listed(m, k) + Repeat(p, multiset(kos)[k])
    ensures k in AddPathway(m, p, kos) <==> k in m || k in kos
  {
    var front := kos[..|kos| - 1];
    var last := kos[|kos| - 1];
    var m1 := AddPathway(m, p, front);
    var n := multiset(front)[k];
    FrontLast(kos);
    assert multiset(kos) == multiset(front) + multiset{last};
    assert k in kos <==> k in front || k == last;
    var r := AddPathway(m, p, kos);
    assert r == m1[last := Listed(m1, last) + [p]];
    if last == k {
      assert multiset(kos)[k] == n + 1;
      assert Listed(r, k) == Listed(m1, k) + [p];
      RepeatSnoc(p, n);
      AppendAssocPathways(Listed(m, k), Repeat(p, n), [p]);
    } else {
      assert multiset(kos)[k] == n;
      assert Listed(r, k) == Listed(m1, k);
    }
  }

  lemma RepeatSnoc(p: Pathway, n: nat)
    ensures Repeat(p, n + 1) == Repeat(p, n) + [p]
  {
  }

  lemma AppendAssocPathways(a: seq<Pathway>, b: seq<Pathway>, c: seq<Pathway>)
    ensures (a + b) + c == a + (b + c)
  {
  }

  /** The pathway map, line by line; the first malformed line stops it. */
  function PathwayMap(lines: seq<string>): Result<map<string, seq<Pathway>>, Failure>
    decreases |lines|
  {
    if lines == [] then Ok(map[])
    else
      match PathwayMap(lines[..|lines| - 1])
      case Err(e) => Err(e)
      case Ok(m) =>
        match PathwayLine(lines[|lines| - 1])
        case Err(e) => Err(e)
        case Ok(entry) => Ok(AddPathway(m, entry.0, entry.1))
  }

  /** Reference: the pathways listing `k`, in file order, once per listing. */
  function PathwaysOf(lines: seq<string>, k: string): seq<Pathway>
    decreases |lines|
  {
    if lines == [] then []
    else
      PathwaysOf(lines[..|lines| - 1], k) +
      match PathwayLine(lines[|lines| - 1])
      case Err(_) => []
      case Ok(entry) => Repeat(entry.0, multiset(entry.1)[k])
  }

  ghost predicate Malformed(lines: seq<string>) {
    exists i :: 0 <= i < |lines| && |Split(lines[i], '\t')| != 4
  }

  /** The map fails, with ValueError, exactly when some line does not have
      four fields. */
  lemma {:induction false} PathwayMapFails(lines: seq<string>)
    ensures PathwayMap(lines).Err? <==> Malformed(lines)
    ensures PathwayMap(lines).Err? ==> PathwayMap(lines).error == ValueError
    decreases |lines|
  {
    if lines != [] {
      var front := lines[..|lines| - 1];
      PathwayMapFails(front);
      if Malformed(front) {
        var i :| 0 <= i < |front| && |Split(front[i], '\t')| != 4;
        assert lines[i] == front[i];
      }
      if Malformed(lines) {
        var i :| 0 <= i < |lines| && |Split(lines[i], '\t')| != 4;
        if i < |front| {
          assert front[i] == lines[i];
        }
      }
    }
  }

  /** Every KO holds the pathways listing it, in file order, and a KO is a
      key exactly when some pathway lists it. */
  lemma {:induction false} PathwayMapListed(lines: seq<string>, k: string)
    requires PathwayMap(lines).Ok?
    ensures Listed(PathwayMap(lines).value, k) == PathwaysOf(lines, k)
    ensures k in PathwayMap(lines).value <==> PathwaysOf(lines, k) != []
    decreases |lines|
  {
    if lines != [] {
      var front := lines[..|lines| - 1];
      PathwayMapListed(front, k);
      var m := PathwayMap(front).value;
      var entry := PathwayLine(lines[|lines| - 1]).value;
      AddPathwayListed(m, entry.0, entry.1, k);
      assert k in entry.1 <==> multiset(entry.1)[k] > 0;
      assert PathwayMap(lines).value == AddPathway(m, entry.0, entry.1);
      assert PathwaysOf(lines, k) == PathwaysOf(front, k) + Repeat(entry.0, multiset(entry.1)[k]);
    }
  }

  /** `pathways` after `pathways.pop('', None)`. */
  function PathwaysTable(text: string): (r: Result<map<string, seq<Pathway>>, Failure>)
    ensures r.Ok? ==> "" !in r.value
  {
    match PathwayMap(Split(text, '\n'))
    case Err(e) => Err(e)
    case Ok(m) => Ok(m - {""})
  }

  // ---------------------------------------------------------------------
  // Counting and ordering

  /** One entry of `Counter(ko).items()`. */
  datatype KoCount = KoCount(ko: string, count: nat)

  function Kos(c: seq<KoCount>): (r: seq<string>)
    ensures |r| == |c| && forall i :: 0 <= i < |c| ==> r[i] == c[i].ko
  {
    seq(|c|, i requires 0 <= i < |c| => c[i].ko)
  }

  /** Counting one more `x`: its entry goes up by one, or a new entry is
      added at the end (a `Counter` keeps first-insertion order). */
  function Bump(c: seq<KoCount>, x: string): seq<KoCount>
    decreases |c|
  {
    if c == [] then [KoCount(x, 1)]
    else if c[0].ko == x then [KoCount(x, c[0].count + 1)] + c[1..]
    else [c[0]] + Bump(c[1..], x)
  }

  /** `list(Counter(ko).items())`. */
  function Tally(ko: seq<string>): seq<KoCount>
    decreases |ko|
  {
    if ko == [] then [] else Bump(Tally(ko[..|ko| - 1]), ko[|ko| - 1])
  }

  function SumCounts(c: seq<KoCount>): nat
    decreases |c|
  {
    if c == [] then 0 else SumCounts(c[..|c| - 1]) + c[|c| - 1].count
  }

  /** The total is the first count plus the total of the rest. */
  lemma {:induction false} SumCountsFront(c: seq<KoCount>)
    requires c != []
    ensures SumCounts(c) == c[0].count + SumCounts(c[1..])
    decreases |c|
  {
    if |c| > 1 {
      var front := c[..|c| - 1];
      SumCountsFront(front);
      assert front[1..] == c[1..][..|c[1..]| - 1];
    }
  }

  ghost predicate DistinctKos(c: seq<KoCount>) {
    forall i, j :: 0 <= i < j < |c| ==> c[i].ko != c[j].ko
  }

  /** Counting `x` raises the count of its entry alone, or appends it. */
  lemma {:induction false} BumpShape(c: seq<KoCount>, x: string)
    requires DistinctKos(c)
    ensures x in Kos(c) ==> (|Bump(c, x)| == |c| &&
      forall i :: 0 <= i < |c| ==> Bump(c, x)[i] == (if c[i].ko == x then KoCount(x, c[i].count + 1) else c[i]))
    ensures x !in Kos(c) ==> Bump(c, x) == c + [KoCount(x, 1)]
    ensures SumCounts(Bump(c, x)) == SumCounts(c) + 1
    decreases |c|
  {
    BumpSum(c, x);
    if c == [] {
      assert x !in Kos(c);
    } else if c[0].ko == x {
      BumpShapeFirst(c, x);
    } else {
      var tail := c[1..];
      assert DistinctKos(tail);
      BumpShape(tail, x);
      InKosTail(c, x);
      if x in Kos(c) {
        forall i | 0 <= i < |c| - 1
          ensures Bump(tail, x)[i] == (if c[i + 1].ko == x then KoCount(x, c[i + 1].count + 1) else c[i + 1])
        {
          assert tail[i] == c[i + 1];
        }
        BumpHitLater(c, x);
      } else {
        BumpMissLater(c, x);
      }
    }
  }

  /** The case of `BumpShape` where the first entry is `x`'s. */
  lemma BumpShapeFirst(c: seq<KoCount>, x: string)
    requires DistinctKos(c) && c != [] && c[0].ko == x
    ensures x in Kos(c) && |Bump(c, x)| == |c|
    ensures forall i :: 0 <= i < |c| ==> Bump(c, x)[i] == (if c[i].ko == x then KoCount(x, c[i].count + 1) else c[i])
  {
    var b := Bump(c, x);
    assert Kos(c)[0] == x;
    assert b[1..] == c[1..];
    forall i | 0 <= i < |c| ensures b[i] == (if c[i].ko == x then KoCount(x, c[i].count + 1) else c[i]) {
      if i > 0 {
        assert c[i].ko != x;
        assert b[i] == b[1..][i - 1];
      }
    }
  }

  /** The step of `BumpShape` past a first entry that is not `x`, when `x`
      has an entry further on. */
  lemma BumpHitLater(c: seq<KoCount>, x: string)
    requires c != [] && c[0].ko != x
    requires |Bump(c[1..], x)| == |c| - 1
    requires forall i :: 0 <= i < |c| - 1 ==> Bump(c[1..], x)[i] == (if c[i + 1].ko == x then KoCount(x, c[i + 1].count + 1) else c[i + 1])
    ensures |Bump(c, x)| == |c|
    ensures forall i :: 0 <= i < |c| ==> Bump(c, x)[i] == (if c[i].ko == x then KoCount(x, c[i].count + 1) else c[i])
  {
    var t := Bump(c[1..], x);
    var b := Bump(c, x);
    assert b == [c[0]] + t;
    forall i | 0 <= i < |c| ensures b[i] == (if c[i].ko == x then KoCount(x, c[i].count + 1) else c[i]) {
      if i > 0 {
        assert b[i] == t[i - 1];
      }
    }
  }

  /** The same step when `x` has no entry: it is appended. */
  lemma BumpMissLater(c: seq<KoCount>, x: string)
    requires c != [] && c[0].ko != x
    requires Bump(c[1..], x) == c[1..] + [KoCount(x, 1)]
    ensures Bump(c, x) == c + [KoCount(x, 1)]
  {
    assert Bump(c, x) == [c[0]] + (c[1..] + [KoCount(x, 1)]);
    assert c == [c[0]] + c[1..];
  }

  /** Counting adds one to the total. */
  lemma {:induction false} BumpSum(c: seq<KoCount>, x: string)
    ensures SumCounts(Bump(c, x)) == SumCounts(c) + 1
    decreases |c|
  {
    if c == [] {
      assert SumCounts([KoCount(x, 1)]) == SumCounts([]) + 1;
    } else {
      var b := Bump(c, x);
      SumCountsFront(c);
      SumCountsFront(b);
      if c[0].ko == x {
        assert b[1..] == c[1..];
      } else {
        BumpSum(c[1..], x);
        assert b[1..] == Bump(c[1..], x);
      }
    }
  }

  /** A KO other than the first entry's is among the KOs exactly when it is
      among the rest. */
  lemma InKosTail(c: seq<KoCount>, x: string)
    requires c != [] && c[0].ko != x
    ensures x in Kos(c) <==> x in Kos(c[1..])
  {
    var tail := c[1..];
    if x in Kos(c) {
      var i :| 0 <= i < |c| && Kos(c)[i] == x;
      assert Kos(tail)[i - 1] == x;
    }
    if x in Kos(tail) {
      var i :| 0 <= i < |tail| && Kos(tail)[i] == x;
      assert Kos(c)[i + 1] == x;
    }
  }

  /** `a` occurs before every occurrence of `b`. */
  predicate Before(ko: seq<string>, a: string, b: string) {
    forall p :: 0 <= p < |ko| && ko[p] == b ==> a in ko[..p]
  }

  lemma KosCons(a: KoCount, c: seq<KoCount>)
    ensures Kos([a] + c) == [a.ko] + Kos(c)
  {
  }

  /** Counting one more `x` leaves the KOs as they are, or appends `x`. */
  lemma {:induction false} BumpKos(c: seq<KoCount>, x: string)
    ensures x in Kos(c) ==> Kos(Bump(c, x)) == Kos(c)
    ensures x !in Kos(c) ==> Kos(Bump(c, x)) == Kos(c) + [x]
    decreases |c|
  {
    if c == [] {
      assert Kos(Bump(c, x)) == [x];
    } else if c[0].ko == x {
      var tail := c[1..];
      assert c == [c[0]] + tail;
      KosCons(c[0], tail);
      KosCons(KoCount(x, c[0].count + 1), tail);
    } else {
      BumpKos(c[1..], x);
      BumpKosLater(c, x);
    }
  }

  /** The step of `BumpKos` past a first entry that is not `x`. */
  lemma BumpKosLater(c: seq<KoCount>, x: string)
    requires c != [] && c[0].ko != x
    requires x in Kos(c[1..]) ==> Kos(Bump(c[1..], x)) == Kos(c[1..])
    requires x !in Kos(c[1..]) ==> Kos(Bump(c[1..], x)) == Kos(c[1..]) + [x]
    ensures x in Kos(c) ==> Kos(Bump(c, x)) == Kos(c)
    ensures x !in Kos(c) ==> Kos(Bump(c, x)) == Kos(c) + [x]
  {
    var tail := c[1..];
    assert c == [c[0]] + tail;
    KosCons(c[0], tail);
    InKosTail(c, x);
    assert Bump(c, x) == [c[0]] + Bump(tail, x);
    KosCons(c[0], Bump(tail, x));
    if x !in Kos(c) {
      assert [c[0].ko] + (Kos(tail) + [x]) == ([c[0].ko] + Kos(tail)) + [x];
    }
  }

  /** Counting keeps the KOs distinct. */
  lemma BumpDistinct(c: seq<KoCount>, x: string)
    requires DistinctKos(c)
    ensures DistinctKos(Bump(c, x))
  {
    BumpKos(c, x);
    var b := Bump(c, x);
    forall i, j | 0 <= i < j < |b| ensures b[i].ko != b[j].ko {
      assert Kos(b)[i] == b[i].ko && Kos(b)[j] == b[j].ko;
      assert Kos(c)[i] == c[i].ko;
      if j < |c| {
        assert Kos(c)[j] == c[j].ko;
      }
    }
  }

  /** `Counter(ko)` has one entry per distinct KO. */
  lemma {:induction false} TallyKeys(ko: seq<string>)
    ensures forall x :: x in ko <==> x in Kos(Tally(ko))
    ensures DistinctKos(Tally(ko))
    decreases |ko|
  {
    if ko != [] {
      var front := ko[..|ko| - 1];
      var x := ko[|ko| - 1];
      assert ko == front + [x];
      TallyKeys(front);
      BumpKos(Tally(front), x);
      BumpDistinct(Tally(front), x);
    }
  }

  /** The counts add up to the number of rows. */
  lemma {:induction false} TallySum(ko: seq<string>)
    ensures SumCounts(Tally(ko)) == |ko|
    decreases |ko|
  {
    if ko != [] {
      var front := ko[..|ko| - 1];
      TallyKeys(front);
      TallySum(front);
      BumpShape(Tally(front), ko[|ko| - 1]);
    }
  }

  /** Each entry counts the rows of its KO. */
  lemma {:induction false} TallyCounts(ko: seq<string>)
    ensures forall i :: 0 <= i < |Tally(ko)| ==> Tally(ko)[i].count == multiset(ko)[Tally(ko)[i].ko]
    decreases |ko|
  {
    if ko != [] {
      TallyCounts(ko[..|ko| - 1]);
      TallyCountsStep(ko);
    }
  }

  /** Every entry of the tally of `ko` holds the number of rows of its KO. */
  predicate TallyCounted(ko: seq<string>)
  {
    forall i :: 0 <= i < |Tally(ko)| ==> Tally(ko)[i].count == multiset(ko)[Tally(ko)[i].ko]
  }

  /** The step of `TallyCounts`: the added row counts once, for its own KO. */
  lemma TallyCountsStep(ko: seq<string>)
    requires ko != []
    requires TallyCounted(ko[..|ko| - 1])
    ensures TallyCounted(ko)
  {
    var front := ko[..|ko| - 1];
    var x := ko[|ko| - 1];
    assert ko == front + [x];
    assert multiset(ko) == multiset(front) + multiset{x};
    TallyKeys(front);
    var c := Tally(front);
    var t := Tally(ko);
    BumpShape(c, x);
    forall i | 0 <= i < |t| ensures t[i].count == multiset(ko)[t[i].ko] {
      if i < |c| {
        assert multiset(ko)[c[i].ko] == multiset(front)[c[i].ko] + (if c[i].ko == x then 1 else 0);
      } else {
        assert x !in front;
      }
    }
  }

  /** A KO that precedes another in the rows keeps preceding it when a row is added. */
  lemma BeforeSnoc(front: seq<string>, x: string, a: string, b: string)
    requires Before(front, a, b) && a in front
    ensures Before(front + [x], a, b)
  {
    var ko := front + [x];
    forall p | 0 <= p < |ko| && ko[p] == b ensures a in ko[..p] {
      if p < |front| {
        assert ko[..p] == front[..p];
      } else {
        assert ko[..p] == front;
      }
    }
  }

  /** A KO of the rows precedes a KO that first appears in the added row. */
  lemma BeforeNew(front: seq<string>, x: string, a: string)
    requires a in front && x !in front
    ensures Before(front + [x], a, x)
  {
    var ko := front + [x];
    forall p | 0 <= p < |ko| && ko[p] == x ensures a in ko[..p] {
      assert p == |front| by {
        assert forall q :: 0 <= q < |front| ==> ko[q] == front[q] && front[q] != x;
      }
      assert ko[..p] == front;
    }
  }

  /** The entries are in order of first appearance. */
  lemma {:induction false} TallyOrder(ko: seq<string>)
    ensures forall i, j :: 0 <= i < j < |Tally(ko)| ==> Before(ko, Kos(Tally(ko))[i], Kos(Tally(ko))[j])
    decreases |ko|
  {
    if ko != [] {
      var front := ko[..|ko| - 1];
      var x := ko[|ko| - 1];
      assert ko == front + [x];
      TallyKeys(front);
      TallyOrder(front);
      var ks := Kos(Tally(front));
      BumpKos(Tally(front), x);
      var ks' := Kos(Tally(ko));
      forall i, j | 0 <= i < j < |ks'| ensures Before(ko, ks'[i], ks'[j]) {
        assert ks'[i] == ks[i] && ks[i] in front;
        if j < |ks| {
          assert ks'[j] == ks[j];
          BeforeSnoc(front, x, ks[i], ks[j]);
        } else {
          BeforeNew(front, x, ks[i]);
        }
      }
    }
  }

  /** The sort key: the count. */
  function CountKey(c: KoCount): real {
    c.count as real
  }

  /** Inserting a KO adds its count to the total. */
  lemma {:induction false} SumInsert(x: KoCount, ys: seq<KoCount>)
    ensures SumCounts(Insert(x, ys, CountKey, false)) == SumCounts(ys) + x.count
    decreases |ys|
  {
    var r := Insert(x, ys, CountKey, false);
    SumCountsFront(r);
    if ys != [] {
      SumCountsFront(ys);
      if !(InOrder(CountKey(x), CountKey(ys[0]), false) && CountKey(x) != CountKey(ys[0])) {
        SumInsert(x, ys[1..]);
        assert r[1..] == Insert(x, ys[1..], CountKey, false);
      } else {
        assert r[1..] == ys;
      }
    }
  }

  /** Sorting keeps the total count. */
  lemma {:induction false} SumSortBy(c: seq<KoCount>)
    ensures SumCounts(SortBy(c, CountKey, false)) == SumCounts(c)
    decreases |c|
  {
    if c != [] {
      SumSortBy(c[..|c| - 1]);
      SumInsert(c[|c| - 1], SortBy(c[..|c| - 1], CountKey, false));
    }
  }

  /** `counts.sort(key=lambda x: x[1], reverse=True)`. */
  function Ordered(ko: seq<string>): seq<KoCount> {
    SortBy(Tally(ko), CountKey, false)
  }

  /** The ordered counts hold the same entries as the counter. */
  lemma OrderedEntries(ko: seq<string>)
    ensures |Ordered(ko)| == |Tally(ko)|
    ensures forall i :: 0 <= i < |Ordered(ko)| ==> Ordered(ko)[i] in Tally(ko)
    ensures forall i :: 0 <= i < |Tally(ko)| ==> Tally(ko)[i] in Ordered(ko)
  {
    var t := Tally(ko);
    var o := Ordered(ko);
    assert multiset(o) == multiset(t);
    assert |o| == |t| by {
      assert |multiset(o)| == |multiset(t)|;
    }
    forall i | 0 <= i < |o| ensures o[i] in t {
      assert o[i] in multiset(t);
    }
    forall i | 0 <= i < |t| ensures t[i] in o {
      assert t[i] in multiset(o);
    }
  }

  /** The ordered counts: one entry per distinct KO with its number of rows. */
  lemma OrderedCounts(ko: seq<string>)
    ensures forall x :: x in ko <==> x in Kos(Ordered(ko))
    ensures |Ordered(ko)| == |Tally(ko)|
    ensures forall i :: 0 <= i < |Ordered(ko)| ==> Ordered(ko)[i].count == multiset(ko)[Ordered(ko)[i].ko]
  {
    var t := Tally(ko);
    var o := Ordered(ko);
    TallyKeys(ko);
    TallyCounts(ko);
    OrderedEntries(ko);
    forall x | x in ko ensures x in Kos(o) {
      var i :| 0 <= i < |t| && Kos(t)[i] == x;
      var j :| 0 <= j < |o| && o[j] == t[i];
      assert Kos(o)[j] == x;
    }
    forall x | x in Kos(o) ensures x in ko {
      var j :| 0 <= j < |o| && Kos(o)[j] == x;
      var i :| 0 <= i < |t| && t[i] == o[j];
      assert Kos(t)[i] == x;
    }
  }

  /** The ordered counts run by count descending, and the counts add up to
      the number of rows. */
  lemma OrderedDescending(ko: seq<string>)
    ensures forall i, j :: 0 <= i < j < |Ordered(ko)| ==> Ordered(ko)[i].count >= Ordered(ko)[j].count
    ensures SumCounts(Ordered(ko)) == |ko|
  {
    var o := Ordered(ko);
    TallySum(ko);
    SumSortBy(Tally(ko));
    forall i, j | 0 <= i < j < |o| ensures o[i].count >= o[j].count {
      assert InOrder(CountKey(o[i]), CountKey(o[j]), false);
    }
  }

  /** Equal counts stay in order of first appearance: the sort is stable. */
  lemma OrderedStable(ko: seq<string>)
    ensures forall i, j :: 0 <= i < j < |Ordered(ko)| && Ordered(ko)[i].count == Ordered(ko)[j].count ==>
      Before(ko, Ordered(ko)[i].ko, Ordered(ko)[j].ko)
  {
    var t := Tally(ko);
    var prec := (a: KoCount, b: KoCount) => Before(ko, a.ko, b.ko);
    TallyOrder(ko);
    assert Ranked(t, prec) by {
      forall i, j | 0 <= i < j < |t| ensures prec(t[i], t[j]) {
        assert Kos(t)[i] == t[i].ko && Kos(t)[j] == t[j].ko;
      }
    }
    SortByStable(t, CountKey, false, prec);
  }

  /** No KO has two entries after the sort. */
  lemma OrderedDistinct(ko: seq<string>)
    ensures DistinctKos(Ordered(ko))
  {
    var t := Tally(ko);
    var o := Ordered(ko);
    OrderedCounts(ko);
    OrderedStable(ko);
    forall i, j | 0 <= i < j < |o| ensures o[i].ko != o[j].ko {
      assert Kos(o)[j] == o[j].ko;
      var p :| 0 <= p < |ko| && ko[p] == o[j].ko && o[j].ko !in ko[..p] by {
        FirstOccurrence(ko, o[j].ko);
      }
    }
  }

  /** A KO of the rows has a first occurrence. */
  lemma FirstOccurrence(ko: seq<string>, x: string)
    requires x in ko
    ensures exists p :: 0 <= p < |ko| && ko[p] == x && x !in ko[..p]
  {
    var p :| 0 <= p < |ko| && ko[p] == x;
    while x in ko[..p]
      invariant 0 <= p < |ko| && ko[p] == x
      decreases p
    {
      var q :| 0 <= q < p && ko[..p][q] == x;
      p := q;
    }
  }

  // ---------------------------------------------------------------------
  // Output rows

  const CountsHeader: string := "AMG count\tAMG KO\tAMG KO name\n"
  const PathwaysHeader: string := "KEGG Entry\tMetabolism\tPathway\tTotal AMGs\tAMG KO\n"

  /** The count row of one KO: count, KO, name. */
  function CountRow(c: KoCount, names: map<string, string>): seq<string> {
    [NatToString(c.count), c.ko, NameOf(names, c.ko)]
  }

  /** The pathway row of one KO and pathway; a KO without pathways has one
      row whose pathway fields hold Python's `None`. */
  function PathwayRow(p: Option<Pathway>, c: KoCount): seq<string> {
    match p
    case None => ["None", "None", "None", NatToString(c.count), c.ko]
    case Some(q) => [q.entry, q.metabolism, q.pathway, NatToString(c.count), c.ko]
  }

  function PathwayRows(c: KoCount, pathways: map<string, seq<Pathway>>): (r: seq<seq<string>>)
    ensures |r| >= 1
  {
    if c.ko in pathways && pathways[c.ko] != [] then
      seq(|pathways[c.ko]|, i requires 0 <= i < |pathways[c.ko]| => PathwayRow(Some(pathways[c.ko][i]), c))
    else [PathwayRow(None, c)]
  }

  /** The two summary tables, as rows of columns. */
  datatype Summary = Summary(counts: seq<seq<string>>, pathways: seq<seq<string>>)

  function SummaryRows(ordered: seq<KoCount>, names: map<string, string>, pathways: map<string, seq<Pathway>>)
    : (r: Summary)
    ensures |r.counts| == |ordered|
    ensures forall i :: 0 <= i < |r.counts| ==> |r.counts[i]| == 3
    decreases |ordered|
  {
    if ordered == [] then Summary([], [])
    else
      var s := SummaryRows(ordered[..|ordered| - 1], names, pathways);
      var c := ordered[|ordered| - 1];
      Summary(s.counts + [CountRow(c, names)], s.pathways + PathwayRows(c, pathways))
  }

  /** The written files: each starts with its header line. */
  function SummaryTexts(s: Summary): (string, string) {
    (CountsHeader + Concat(seq(|s.counts|, i requires 0 <= i < |s.counts| => Annotations.TsvLine(s.counts[i]))),
     PathwaysHeader + Concat(seq(|s.pathways|, i requires 0 <= i < |s.pathways| => Annotations.TsvLine(s.pathways[i]))))
  }

  /** `summarize_AMGs`: names, then pathways, then the counts. */
  function Summarize(namesText: string, pathwaysText: string, ko: seq<string>): Result<Summary, Failure> {
    match KoNames(Annotations.Cells(namesText))
    case Err(e) => Err(e)
    case Ok(names) =>
      match PathwaysTable(pathwaysText)
      case Err(e) => Err(e)
      case Ok(pathways) => Ok(SummaryRows(Ordered(ko), names, pathways))
  }

  /** Count row `i` is the `i`-th ordered KO with its count and its name. */
  lemma {:induction false} SummaryCountsAt(ordered: seq<KoCount>, names: map<string, string>,
                                           pathways: map<string, seq<Pathway>>, i: nat)
    requires i < |ordered|
    ensures SummaryRows(ordered, names, pathways).counts[i] == CountRow(ordered[i], names)
    decreases |ordered|
  {
    if i < |ordered| - 1 {
      SummaryCountsAt(ordered[..|ordered| - 1], names, pathways, i);
    }
  }

  /** The count rows are the ordered KOs, row by row. */
  lemma SummaryCountRows(ordered: seq<KoCount>, names: map<string, string>, pathways: map<string, seq<Pathway>>)
    ensures forall i :: 0 <= i < |ordered| ==> SummaryRows(ordered, names, pathways).counts[i] == CountRow(ordered[i], names)
  {
    forall i | 0 <= i < |ordered| ensures SummaryRows(ordered, names, pathways).counts[i] == CountRow(ordered[i], names) {
      SummaryCountsAt(ordered, names, pathways, i);
    }
  }

  /** The count table has one row per distinct KO of the AMG table: its
      number of rows, the KO, and its name from a `K` key of the names file
      or 'hypothetical protein'. */
  lemma SummaryCounts(namesText: string, pathwaysText: string, ko: seq<string>)
    requires Summarize(namesText, pathwaysText, ko).Ok?
    ensures forall i :: 0 <= i < |Summarize(namesText, pathwaysText, ko).value.counts| ==>
      var row := Summarize(namesText, pathwaysText, ko).value.counts[i];
      |row| == 3 && row[1] in ko && row[0] == NatToString(multiset(ko)[row[1]]) &&
      (row[2] == "hypothetical protein" || IsKo(row[1]))
    ensures forall x :: x in ko ==>
      exists i :: 0 <= i < |Summarize(namesText, pathwaysText, ko).value.counts| &&
        Summarize(namesText, pathwaysText, ko).value.counts[i][1] == x
  {
    var names := KoNames(Annotations.Cells(namesText)).value;
    var pathways := PathwaysTable(pathwaysText).value;
    var o := Ordered(ko);
    OrderedCounts(ko);
    KoNamesKeys(Annotations.Cells(namesText));
    SummaryCountRows(o, names, pathways);
    var rows := SummaryRows(o, names, pathways).counts;
    forall x | x in ko ensures exists i :: 0 <= i < |rows| && rows[i][1] == x {
      var i :| 0 <= i < |o| && Kos(o)[i] == x;
      assert rows[i][1] == x;
    }
    forall i | 0 <= i < |rows| ensures rows[i][2] == "hypothetical protein" || IsKo(rows[i][1]) {
      if o[i].ko in names {
        assert o[i].ko in KoCells(Annotations.Cells(namesText));
      }
    }
  }

  /** The count rows run by count descending, equal counts in order of first
      appearance, with no KO twice. */
  lemma SummaryOrder(namesText: string, pathwaysText: string, ko: seq<string>)
    requires Summarize(namesText, pathwaysText, ko).Ok?
    ensures forall i, j :: 0 <= i < j < |Summarize(namesText, pathwaysText, ko).value.counts| ==>
      var a := Summarize(namesText, pathwaysText, ko).value.counts[i][1];
      var b := Summarize(namesText, pathwaysText, ko).value.counts[j][1];
      a != b && multiset(ko)[a] >= multiset(ko)[b] && (multiset(ko)[a] == multiset(ko)[b] ==> Before(ko, a, b))
  {
    var names := KoNames(Annotations.Cells(namesText)).value;
    var pathways := PathwaysTable(pathwaysText).value;
    var o := Ordered(ko);
    OrderedCounts(ko);
    OrderedDescending(ko);
    OrderedStable(ko);
    OrderedDistinct(ko);
    SummaryCountRows(o, names, pathways);
  }

  /** The pathway rows of one KO: one per pathway that lists it, in file
      order, each ending in the KO's count and the KO; or a single `None`
      row when none does (the empty KO never matches, as its key is popped). */
  lemma PathwayRowsOf(pathwaysText: string, c: KoCount)
    requires PathwaysTable(pathwaysText).Ok?
    ensures var rows := PathwayRows(c, PathwaysTable(pathwaysText).value);
      var ps := PathwaysOf(Split(pathwaysText, '\n'), c.ko);
      if c.ko != "" && ps != [] then
        |rows| == |ps| && forall i :: 0 <= i < |ps| ==> rows[i] == PathwayRow(Some(ps[i]), c)
      else rows == [PathwayRow(None, c)]
  {
    var lines := Split(pathwaysText, '\n');
    PathwayMapListed(lines, c.ko);
    var m := PathwayMap(lines).value;
    var t := PathwaysTable(pathwaysText).value;
    assert t == m - {""};
    var ps := PathwaysOf(lines, c.ko);
    assert Listed(m, c.ko) == ps;
    assert c.ko != "" ==> Listed(t, c.ko) == ps;
  }

  /** The inner write loop: the pathway rows of one KO. */
  method WritePathwayRows(c: KoCount, pathways: map<string, seq<Pathway>>) returns (rows: seq<seq<string>>)
    ensures rows == PathwayRows(c, pathways)
  {
    var paths := if c.ko in pathways then pathways[c.ko] else [];
    if paths == [] {
      return [PathwayRow(None, c)];
    }
    rows := [];
    var j := 0;
    while j < |paths|
      invariant 0 <= j <= |paths|
      invariant rows == PathwayRows(c, pathways)[..j]
    {
      rows := rows + [PathwayRow(Some(paths[j]), c)];
      j := j + 1;
    }
  }

  /** The write loop: for each ordered KO, its count row, then its pathway rows. */
  method WriteSummary(ordered: seq<KoCount>, names: map<string, string>, pathways: map<string, seq<Pathway>>)
    returns (s: Summary)
    ensures s == SummaryRows(ordered, names, pathways)
  {
    s := Summary([], []);
    var i := 0;
    while i < |ordered|
      invariant 0 <= i <= |ordered|
      invariant s == SummaryRows(ordered[..i], names, pathways)
    {
      assert ordered[..i + 1][..i] == ordered[..i];
      var rows := WritePathwayRows(ordered[i], pathways);
      s := Summary(s.counts + [CountRow(ordered[i], names)], s.pathways + rows);
      i := i + 1;
    }
    assert ordered[..i] == ordered;
  }

  /** The pathway building loop of `summarize_AMGs`. */
  method BuildPathways(lines: seq<string>) returns (r: Result<map<string, seq<Pathway>>, Failure>)
    ensures r == PathwayMap(lines)
  {
    var m: map<string, seq<Pathway>> := map[];
    var i := 0;
    while i < |lines|
      invariant 0 <= i <= |lines|
      invariant PathwayMap(lines[..i]) == Ok(m)
    {
      assert lines[..i + 1][..i] == lines[..i];
      var entry := PathwayLine(lines[i]);
      if entry.Err? {
        assert PathwayMap(lines[..i + 1]).Err?;
        PathwayMapErr(lines, i + 1);
        return Err(entry.error);
      }
      var p := entry.value.0;
      var kos := entry.value.1;
      var m0 := m;
      var k := 0;
      while k < |kos|
        invariant 0 <= k <= |kos|
        invariant m == AddPathway(m0, p, kos[..k])
      {
        assert kos[..k + 1][..k] == kos[..k];
        m := m[kos[k] := Listed(m, kos[k]) + [p]];
        k := k + 1;
      }
      assert kos[..k] == kos;
      i := i + 1;
    }
    assert lines[..i] == lines;
    return Ok(m);
  }

  /** A failing prefix fails the whole file with the same error. */
  lemma {:induction false} PathwayMapErr(lines: seq<string>, n: nat)
    requires n <= |lines| && PathwayMap(lines[..n]).Err?
    ensures PathwayMap(lines) == PathwayMap(lines[..n])
    decreases |lines| - n
  {
    if n < |lines| {
      assert lines[..n + 1][..n] == lines[..n];
      PathwayMapErr(lines, n + 1);
    } else {
      assert lines[..n] == lines;
    }
  }

  /** `summarize_AMGs`: the names, the pathway loop, the counts, the write loop. */
  method SummarizeAmgs(namesText: string, pathwaysText: string, ko: seq<string>) returns (r: Result<Summary, Failure>)
    ensures r == Summarize(namesText, pathwaysText, ko)
  {
    var names := KoNames(Annotations.Cells(namesText));
    if names.Err? {
      return Err(names.error);
    }
    var pathways := BuildPathways(Split(pathwaysText, '\n'));
    if pathways.Err? {
      return Err(pathways.error);
    }
    var summary := WriteSummary(Ordered(ko), names.value, pathways.value - {""});
    return Ok(summary);
  }
}
