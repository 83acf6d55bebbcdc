/** The Python string operations the scripts rely on, as functions on
    `seq<char>`: `split` on one character, `join`, `split(sep, 1)`,
    `rsplit(sep, 1)`, `replace`, `strip`, `upper` and `count`. */
module Strings {
  import opened Wrappers

  /** `sep` occurs in `s` starting at index `i`. */
  predicate OccursAt(s: string, sep: string, i: nat) {
    i + |sep| <= |s| && s[i..i + |sep|] == sep
  }

  /** `sep` occurs somewhere in `s` (Python's `sep in s`). */
  predicate Contains(s: string, sep: string) {
    FindFrom(s, sep, 0).Some?
  }

  /** The first index at or after `from` where `sep` occurs (Python's `s.find(sep, from)`). */
  function FindFrom(s: string, sep: string, from: nat): (r: Option<nat>)
    decreases |s| - from
    ensures r.Some? ==> from <= r.value && OccursAt(s, sep, r.value)
    ensures forall j: nat :: from <= j && (r.None? || j < r.value) ==> !OccursAt(s, sep, j)
  {
    if from + |sep| > |s| then None
    else if OccursAt(s, sep, from) then Some(from)
    else FindFrom(s, sep, from + 1)
  }

  /** The last index below `bound` where `sep` occurs (Python's `s.rfind(sep)` for `bound = |s| + 1`). */
  function FindLastBefore(s: string, sep: string, bound: nat): (r: Option<nat>)
    decreases bound
    ensures r.Some? ==> r.value < bound && OccursAt(s, sep, r.value)
    ensures forall j: nat :: j < bound && (r.None? || r.value < j) ==> !OccursAt(s, sep, j)
  {
    if bound == 0 then None
    else if OccursAt(s, sep, bound - 1) then Some(bound - 1)
    else FindLastBefore(s, sep, bound - 1)
  }

  /** A text without the first character of `sep` has no occurrence of it. */
  lemma NoOccurrence(s: string, sep: string, i: nat)
    requires |sep| > 0 && sep[0] !in s
    ensures !OccursAt(s, sep, i)
  {
    if i + |sep| <= |s| {
      assert s[i..i + |sep|][0] == s[i];
    }
  }

  lemma ContainsIff(s: string, sep: string)
    ensures Contains(s, sep) <==> exists j: nat :: OccursAt(s, sep, j)
  {
  }

  /** Python's `s.split(sep)` for a separator of any length: the fields
      between non-overlapping occurrences, found from the left. */
  function SplitOn(s: string, sep: string): (r: seq<string>)
    requires |sep| > 0
    ensures |r| >= 1
    decreases |s|
  {
    var parts := SplitOnce(s, sep);
    if |parts| == 1 then [s] else [parts[0]] + SplitOn(parts[1], sep)
  }

  /** A first field without the separator's first character: `split`
      yields it, then the fields of the rest. */
  lemma SplitOnFront(a: string, sep: string, rest: string)
    requires |sep| > 0 && sep[0] !in a
    ensures SplitOn(a + sep + rest, sep) == [a] + SplitOn(rest, sep)
  {
    var s := a + sep + rest;
    assert OccursAt(s, sep, |a|) by {
      assert s[|a|..|a| + |sep|] == sep;
    }
    forall j: nat | j < |a| ensures !OccursAt(s, sep, j) {
      assert s[j] == a[j];
      if j + |sep| <= |s| {
        assert s[j..j + |sep|][0] == s[j];
      }
    }
    var parts := SplitOnce(s, sep);
    assert |parts[0]| == |a|;
    assert parts[0] == s[..|a|] == a;
    assert parts[1] == s[|a| + |sep|..] == rest;
  }

  /** Two non-empty leading fields, neither holding the separator's first
      character, come first among the non-empty fields of the split. */
  lemma NonEmptyLead(a: string, g: string, sep: string, rest: string)
    requires a != [] && g != [] && |sep| > 0 && sep[0] !in a && sep[0] !in g
    ensures NonEmpty(SplitOn(a + sep + g + sep + rest, sep)) == [a, g] + NonEmpty(SplitOn(rest, sep))
  {
    var tail := SplitOn(rest, sep);
    SplitOnFront(g, sep, rest);
    AppendAssoc(a + sep + g, sep, rest);
    AppendAssoc(a + sep, g, sep + rest);
    AppendAssoc(g, sep, rest);
    SplitOnFront(a, sep, g + sep + rest);
    NonEmptyCons(g, tail);
    NonEmptyCons(a, [g] + tail);
  }

  /** A non-empty first field is kept in front. */
  lemma NonEmptyCons(x: string, rest: seq<string>)
    requires x != []
    ensures NonEmpty([x] + rest) == [x] + NonEmpty(rest)
  {
    assert ([x] + rest)[1..] == rest;
  }

  /** Two fields around one separator, neither holding the separator's
      first character, split back into those fields. */
  lemma SplitOnPair(a: string, sep: string, b: string)
    requires |sep| > 0 && sep[0] !in a && sep[0] !in b
    ensures SplitOn(a + sep + b, sep) == [a, b]
  {
    var s := a + sep + b;
    assert OccursAt(s, sep, |a|) by {
      assert s[|a|..|a| + |sep|] == sep;
    }
    forall j: nat | j < |a| ensures !OccursAt(s, sep, j) {
      assert s[j] == a[j];
      if j + |sep| <= |s| {
        assert s[j..j + |sep|][0] == s[j];
      }
    }
    var parts := SplitOnce(s, sep);
    assert |parts[0]| == |a|;
    assert parts[0] == s[..|a|] == a;
    assert parts[1] == s[|a| + |sep|..] == b;
    forall j: nat ensures !OccursAt(b, sep, j) {
      NoOccurrence(b, sep, j);
    }
  }

  /** Python's `s.split(sep, 1)`: the text before and after the first `sep`,
      or `[s]` when `sep` does not occur. */
  function SplitOnce(s: string, sep: string): (r: seq<string>)
    requires |sep| > 0
    ensures |r| == 1 || |r| == 2
    ensures |r| == 1 <==> !Contains(s, sep)
    ensures |r| == 1 ==> r[0] == s
    ensures |r| == 2 ==> s == r[0] + sep + r[1] && OccursAt(s, sep, |r[0]|)
    ensures |r| == 2 ==> forall j: nat :: j < |r[0]| ==> !OccursAt(s, sep, j)
  {
    match FindFrom(s, sep, 0)
    case None => [s]
    case Some(i) =>
      assert s == s[..i] + sep + s[i + |sep|..];
      [s[..i], s[i + |sep|..]]
  }

  /** Python's `s.rsplit(sep, 1)`: the text before and after the last `sep`,
      or `[s]` when `sep` does not occur. */
  function RSplitOnce(s: string, sep: string): (r: seq<string>)
    requires |sep| > 0
    ensures |r| == 1 || |r| == 2
    ensures |r| == 1 <==> !Contains(s, sep)
    ensures |r| == 1 ==> r[0] == s
    ensures |r| == 2 ==> s == r[0] + sep + r[1] && OccursAt(s, sep, |r[0]|)
    ensures |r| == 2 ==> forall j: nat :: |r[0]| < j ==> !OccursAt(s, sep, j)
  {
    match FindLastBefore(s, sep, |s| + 1)
    case None =>
      assert forall j: nat :: !OccursAt(s, sep, j) by {
        forall j: nat ensures !OccursAt(s, sep, j) {
          if j > |s| { assert j + |sep| > |s|; }
        }
      }
      [s]
    case Some(i) =>
      assert s == s[..i] + sep + s[i + |sep|..];
      assert forall j: nat :: |s| < j ==> !OccursAt(s, sep, j);
      [s[..i], s[i + |sep|..]]
  }

  /** `s.rsplit(sep, 1)[-1]`: everything after the last `sep`, or all of `s`. */
  function AfterLast(s: string, sep: string): string
    requires |sep| > 0
  {
    var parts := RSplitOnce(s, sep);
    if |parts| == 2 then parts[1] else s
  }

  /** `s.split(sep, 1)[0]`: everything before the first `sep`. */
  function BeforeFirst(s: string, sep: string): string
    requires |sep| > 0
  {
    SplitOnce(s, sep)[0]
  }

  /** `s.rsplit(sep, 1)[0]`: everything before the last `sep`. */
  function BeforeLast(s: string, sep: string): string
    requires |sep| > 0
  {
    RSplitOnce(s, sep)[0]
  }

  /** What follows the last occurrence of a character holds no more of it. */
  lemma RSplitTailAvoids(s: string, c: char)
    requires |RSplitOnce(s, [c])| == 2
    ensures c !in RSplitOnce(s, [c])[1]
  {
    var r := RSplitOnce(s, [c]);
    var tail := r[1];
    forall j | 0 <= j < |tail| ensures tail[j] != c {
      var at := |r[0]| + 1 + j;
      assert s[at] == tail[j];
      assert !OccursAt(s, [c], at);
      assert s[at..at + 1] == [s[at]];
    }
  }

  lemma BeforeFirstIsPrefix(s: string, sep: string)
    requires |sep| > 0
    ensures BeforeFirst(s, sep) <= s
    ensures !Contains(s, sep) <==> BeforeFirst(s, sep) == s
  {
    var r := SplitOnce(s, sep);
    if |r| == 2 {
      assert s[..|r[0]|] == r[0];
    }
  }

  lemma BeforeLastIsPrefix(s: string, sep: string)
    requires |sep| > 0
    ensures BeforeLast(s, sep) <= s
    ensures !Contains(s, sep) <==> BeforeLast(s, sep) == s
  {
    var r := RSplitOnce(s, sep);
    if |r| == 2 {
      assert s[..|r[0]|] == r[0];
    }
  }

  /** `RSplitOnce` at a known last occurrence. */
  lemma RSplitAt(s: string, sep: string, i: nat)
    requires |sep| > 0 && OccursAt(s, sep, i)
    requires forall j: nat :: i < j ==> !OccursAt(s, sep, j)
    ensures RSplitOnce(s, sep) == [s[..i], s[i + |sep|..]]
  {
    var r := RSplitOnce(s, sep);
    assert |r| == 2 && |r[0]| == i;
    assert s[..i] == r[0];
    assert s[i + |sep|..] == r[1];
  }

  /** What follows the last occurrence of a character, or the whole text
      when there is none, holds no more of it. */
  lemma AfterLastAvoids(s: string, c: char)
    ensures c !in AfterLast(s, [c])
  {
    if |RSplitOnce(s, [c])| == 2 {
      RSplitTailAvoids(s, c);
    } else if c in s {
      var j :| 0 <= j < |s| && s[j] == c;
      assert s[j..j + 1] == [c];
      ContainsIff(s, [c]);
      assert OccursAt(s, [c], j);
    }
  }

  lemma NotContains(s: string, c: char)
    requires c !in s
    ensures !Contains(s, [c])
  {
    forall j: nat ensures !OccursAt(s, [c], j) {
      NoOccurrence(s, [c], j);
    }
  }

  /** Around the last `c` of `a + [c] + b`, where `b` holds no `c`, are
      `a` and `b`. */
  lemma RSplitChar(a: string, c: char, b: string)
    requires c !in b
    ensures RSplitOnce(a + [c] + b, [c]) == [a, b]
    ensures BeforeLast(a + [c] + b, [c]) == a
  {
    var s := a + [c] + b;
    assert OccursAt(s, [c], |a|) by {
      assert s[|a|..|a| + 1] == [c];
    }
    forall j: nat | |a| < j ensures !OccursAt(s, [c], j) {
      if j < |s| {
        assert s[j] == b[j - |a| - 1];
      }
    }
    RSplitAt(s, [c], |a|);
    assert s[..|a|] == a && s[|a| + 1..] == b;
  }

  /** Python's `s.split(c)` for a one-character separator: the fields
      between consecutive separators, possibly empty. */
  function Split(s: string, c: char): (r: seq<string>)
    ensures |r| >= 1
    ensures forall i :: 0 <= i < |r| ==> c !in r[i]
  {
    if s == [] then [[]]
    else
      var rest := Split(s[1..], c);
      if s[0] == c then [[]] + rest
      else [[s[0]] + rest[0]] + rest[1..]
  }

  /** Python's `sep.join(fields)`. */
  function Join(fields: seq<string>, sep: string): string {
    if |fields| == 0 then []
    else if |fields| == 1 then fields[0]
    else fields[0] + sep + Join(fields[1..], sep)
  }

  /** Joining the fields of a split gives back the original text. */
  lemma {:induction false} JoinSplit(s: string, c: char)
    ensures Join(Split(s, c), [c]) == s
  {
    if s != [] {
      JoinSplit(s[1..], c);
    }
  }

  lemma {:induction false} SplitNoSeparator(a: string, c: char)
    requires c !in a
    ensures Split(a, c) == [a]
  {
    if a != [] {
      assert a[0] in a && a == [a[0]] + a[1..];
      SplitNoSeparator(a[1..], c);
    }
  }

  lemma {:induction false} SplitAfterField(a: string, c: char, b: string)
    requires c !in a
    ensures Split(a + [c] + b, c) == [a] + Split(b, c)
  {
    if a == [] {
      assert a + [c] + b == [c] + b;
      assert ([c] + b)[1..] == b;
    } else {
      assert a[0] in a && a == [a[0]] + a[1..];
      assert (a + [c] + b)[0] == a[0];
      assert (a + [c] + b)[1..] == a[1..] + [c] + b;
      SplitAfterField(a[1..], c, b);
    }
  }

  /** Splitting around one separator splits each side. */
  lemma {:induction false} SplitAppend(a: string, c: char, b: string)
    ensures Split(a + [c] + b, c) == Split(a, c) + Split(b, c)
  {
    if a == [] {
      assert a + [c] + b == [c] + b;
      assert ([c] + b)[1..] == b;
    } else {
      assert (a + [c] + b)[0] == a[0];
      assert (a + [c] + b)[1..] == a[1..] + [c] + b;
      SplitAppend(a[1..], c, b);
    }
  }

  /** Splitting a join of separator-free fields gives back the fields. */
  lemma {:induction false} SplitJoin(fields: seq<string>, c: char)
    requires |fields| >= 1
    requires forall i :: 0 <= i < |fields| ==> c !in fields[i]
    ensures Split(Join(fields, [c]), c) == fields
  {
    if |fields| == 1 {
      SplitNoSeparator(fields[0], c);
    } else {
      SplitJoin(fields[1..], c);
      SplitAfterField(fields[0], c, Join(fields[1..], [c]));
    }
  }

  /** A character in neither the fields nor the separator is not in their join. */
  lemma {:induction false} JoinAvoids(fields: seq<string>, sep: string, c: char)
    requires c !in sep
    requires forall i :: 0 <= i < |fields| ==> c !in fields[i]
    ensures c !in Join(fields, sep)
  {
    if |fields| > 1 {
      JoinAvoids(fields[1..], sep, c);
    }
  }

  /** `filter(None, fields)`: the non-empty fields, in order. */
  function NonEmpty(fields: seq<string>): (r: seq<string>)
    ensures |r| <= |fields|
    ensures forall i :: 0 <= i < |r| ==> r[i] != [] && r[i] in fields
  {
    if fields == [] then []
    else if fields[0] == [] then NonEmpty(fields[1..])
    else [fields[0]] + NonEmpty(fields[1..])
  }

  /** `list(filter(None, line.split(' ')))`: the non-empty space-separated
      tokens of a line. */
  function Tokens(line: string): (r: seq<string>)
    ensures forall i :: 0 <= i < |r| ==> r[i] != [] && ' ' !in r[i]
  {
    NonEmpty(Split(line, ' '))
  }

  /** Python's `s.replace(pat, repl)`: every non-overlapping occurrence of
      `pat`, scanning from the left, is replaced by `repl`; an empty `pat`
      inserts `repl` before every character and at the end. */
  function Replace(s: string, pat: string, repl: string): string
    decreases |s|
  {
    if pat == [] then repl + (if s == [] then [] else [s[0]] + Replace(s[1..], pat, repl))
    else if s == [] then []
    else if pat <= s then repl + Replace(s[|pat|..], pat, repl)
    else [s[0]] + Replace(s[1..], pat, repl)
  }

  /** Number of occurrences of the character `c` in `s` (Python's `s.count(c)`). */
  function Count(s: string, c: char): nat {
    if s == [] then 0 else (if s[0] == c then 1 else 0) + Count(s[1..], c)
  }

  lemma {:induction false} CountAppend(a: string, b: string, c: char)
    ensures Count(a + b, c) == Count(a, c) + Count(b, c)
  {
    if a != [] {
      assert (a + b)[0] == a[0];
      assert (a + b)[1..] == a[1..] + b;
      CountAppend(a[1..], b, c);
    } else {
      assert a + b == b;
    }
  }

  /** Replacing a character that is absent changes nothing. */
  lemma {:induction false} ReplaceAbsentChar(s: string, c: char, repl: string)
    requires c !in s
    ensures Replace(s, [c], repl) == s
  {
    if s != [] {
      assert s[0] in s && s == [s[0]] + s[1..];
      assert !([c] <= s);
      ReplaceAbsentChar(s[1..], c, repl);
    }
  }

  /** Replacing a text that does not occur changes nothing. */
  lemma {:induction false} ReplaceAbsent(s: string, pat: string, repl: string)
    requires pat != [] && !Contains(s, pat)
    ensures Replace(s, pat, repl) == s
    decreases |s|
  {
    ContainsIff(s, pat);
    if s != [] {
      assert !OccursAt(s, pat, 0);
      forall j: nat ensures !OccursAt(s[1..], pat, j) {
        assert j + |pat| <= |s[1..]| ==> s[1..][j..j + |pat|] == s[j + 1..j + 1 + |pat|];
        assert !OccursAt(s, pat, j + 1);
      }
      ContainsIff(s[1..], pat);
      ReplaceAbsent(s[1..], pat, repl);
      assert s == [s[0]] + s[1..];
    }
  }

  /** Replacing a text by itself changes nothing. */
  lemma {:induction false} ReplaceSame(s: string, pat: string)
    requires pat != []
    ensures Replace(s, pat, pat) == s
    decreases |s|
  {
    if s != [] {
      if pat <= s {
        var rest := s[|pat|..];
        ReplaceSame(rest, pat);
        assert s[..|pat|] == pat;
        assert s == pat + rest;
        assert Replace(s, pat, pat) == pat + Replace(rest, pat, pat);
      } else {
        var rest := s[1..];
        ReplaceSame(rest, pat);
        assert s == [s[0]] + rest;
        assert Replace(s, pat, pat) == [s[0]] + Replace(rest, pat, pat);
      }
    }
  }

  /** `s.replace(c, '')` deletes exactly the occurrences of `c`. */
  lemma {:induction false} RemoveChar(s: string, c: char)
    ensures c !in Replace(s, [c], [])
    ensures |Replace(s, [c], [])| == |s| - Count(s, c)
  {
    if s != [] {
      RemoveChar(s[1..], c);
    }
  }

  lemma {:induction false} RemoveCharAppend(a: string, b: string, c: char)
    ensures Replace(a + b, [c], []) == Replace(a, [c], []) + Replace(b, [c], [])
  {
    if a != [] {
      assert (a + b)[1..] == a[1..] + b;
      RemoveCharAppend(a[1..], b, c);
    } else {
      assert a + b == b;
    }
  }

  /** `s.lstrip(chars)`: leading characters from `cs` removed. */
  function TrimLeft(s: string, cs: set<char>): string {
    if s != [] && s[0] in cs then TrimLeft(s[1..], cs) else s
  }

  lemma {:induction false} TrimLeftShape(s: string, cs: set<char>)
    ensures var r := TrimLeft(s, cs);
      |r| <= |s| && r == s[|s| - |r|..] && (r == [] || r[0] !in cs) &&
      forall i :: 0 <= i < |s| - |r| ==> s[i] in cs
  {
    if s != [] && s[0] in cs {
      var r := TrimLeft(s[1..], cs);
      assert TrimLeft(s, cs) == r;
      TrimLeftShape(s[1..], cs);
      assert s[1..][|s| - 1 - |r|..] == s[|s| - |r|..];
      forall i | 0 <= i < |s| - |r|
        ensures s[i] in cs
      {
        if i > 0 {
          assert s[i] == s[1..][i - 1];
        }
      }
    }
  }

  /** `s.rstrip(chars)`: trailing characters from `cs` removed. */
  function TrimRight(s: string, cs: set<char>): string {
    if s != [] && s[|s| - 1] in cs then TrimRight(s[..|s| - 1], cs) else s
  }

  lemma {:induction false} TrimRightShape(s: string, cs: set<char>)
    ensures var r := TrimRight(s, cs);
      |r| <= |s| && r == s[..|r|] && (r == [] || r[|r| - 1] !in cs) &&
      forall i :: |r| <= i < |s| ==> s[i] in cs
  {
    if s != [] && s[|s| - 1] in cs {
      TrimRightShape(s[..|s| - 1], cs);
    }
  }

  /** `s.strip(chars)`. */
  function Strip(s: string, cs: set<char>): string {
    TrimRight(TrimLeft(s, cs), cs)
  }

  /** The characters Python's argument-less `strip()` removes. */
  const Whitespace: set<char> := {
    ' ', '\t', '\n', '\r', '\U{B}', '\U{C}', '\U{1C}', '\U{1D}',
    '\U{1E}', '\U{1F}', '\U{85}', '\U{A0}', '\U{1680}', '\U{2000}', '\U{2001}', '\U{2002}',
    '\U{2003}', '\U{2004}', '\U{2005}', '\U{2006}', '\U{2007}', '\U{2008}', '\U{2009}', '\U{200A}',
    '\U{2028}', '\U{2029}', '\U{202F}', '\U{205F}', '\U{3000}'
  }

  /** Stripping characters that are not at either end changes nothing. */
  lemma StripUntouched(s: string, cs: set<char>)
    requires s == [] || (s[0] !in cs && s[|s| - 1] !in cs)
    ensures Strip(s, cs) == s
  {
  }

  /** A string that ends in `c` and has no other `c`, stripped of `c`, loses exactly its last character. */
  lemma StripOneTrailing(s: string, c: char)
    requires |s| > 0 && s[|s| - 1] == c && c !in s[..|s| - 1]
    ensures Strip(s, {c}) == s[..|s| - 1]
  {
    if |s| == 1 {
      assert TrimLeft(s, {c}) == [];
    } else {
      assert s[0] in s[..|s| - 1];
      assert TrimLeft(s, {c}) == s;
      var t := s[..|s| - 1];
      assert t[|t| - 1] in t;
      assert TrimRight(t, {c}) == t;
    }
  }

  /** ASCII upper case of one character (`str.upper` on ASCII letters). */
  function UpperChar(ch: char): char {
    if 'a' <= ch <= 'z' then (ch as int - 'a' as int + 'A' as int) as char else ch
  }

  function Upper(s: string): (r: string)
    ensures |r| == |s|
    ensures forall i :: 0 <= i < |s| ==> r[i] == UpperChar(s[i])
  {
    if s == [] then [] else [UpperChar(s[0])] + Upper(s[1..])
  }

  /** ASCII lower case of one character (`str.lower` on ASCII letters). */
  function LowerChar(ch: char): char {
    if 'A' <= ch <= 'Z' then (ch as int - 'A' as int + 'a' as int) as char else ch
  }

  function Lower(s: string): (r: string)
    ensures |r| == |s|
    ensures forall i :: 0 <= i < |s| ==> r[i] == LowerChar(s[i])
  {
    if s == [] then [] else [LowerChar(s[0])] + Lower(s[1..])
  }

  /** A non-empty sequence is its front and its last element. */
  lemma FrontLast<T>(s: seq<T>)
    requires s != []
    ensures s == s[..|s| - 1] + [s[|s| - 1]]
  {
  }

  /** Concatenation regroups; stated once so that callers need not prove
      it element by element. */
  lemma AppendAssoc(a: string, b: string, c: string)
    ensures (a + b) + c == a + (b + c)
  {
  }

  /** `''.join(parts)`, accumulated from the left as the scripts append. */
  function Concat(parts: seq<string>): string {
    if parts == [] then [] else Concat(parts[..|parts| - 1]) + parts[|parts| - 1]
  }

  lemma {:induction false} ConcatAppend(a: seq<string>, b: seq<string>)
    ensures Concat(a + b) == Concat(a) + Concat(b)
    decreases |b|
  {
    if b == [] {
      assert a + b == a;
    } else {
      var front, last := b[..|b| - 1], b[|b| - 1];
      assert (a + b)[..|a + b| - 1] == a + front;
      assert Concat(a + b) == Concat(a + front) + last;
      ConcatAppend(a, front);
      assert Concat(b) == Concat(front) + last;
      AppendAssoc(Concat(a), Concat(front), last);
    }
  }

  lemma ConcatSnoc(parts: seq<string>, p: string)
    ensures Concat(parts + [p]) == Concat(parts) + p
  {
    assert (parts + [p])[..|parts|] == parts;
  }

  lemma ConcatSingle(s: string)
    ensures Concat([s]) == s
  {
    assert [s][..0] == [];
  }

  /** Every character of `s` is in `alphabet`. */
  predicate AllIn(s: string, alphabet: set<char>) {
    forall i :: 0 <= i < |s| ==> s[i] in alphabet
  }
}
