/** The string handling of scripts/genbank_to_fasta.py: feature locations,
    reverse complements, 60-column wrapping, the ORIGIN block and the GFF
    rows. The readline loops that use them are in module GenBank. */
module GenBankFormat {
  import opened Wrappers
  import opened Strings
  import opened Numbers

  // ---------------------------------------------------------------------
  // Locations

  /** `self.loc`: the integers of a location followed by its orientation.
      `(0,0,0)`, the value before any feature, is `Loc([0, 0], "0")`. */
  datatype Loc = Loc(coords: seq<int>, orient: string)

  const NoLoc: Loc := Loc([0, 0], "0")

  /** `line.split(' ')[-1]`. */
  function LastToken(line: string): string {
    var f := Split(line, ' ');
    f[|f| - 1]
  }

  lemma LastTokenOf(lead: string, token: string)
    requires ' ' !in token
    ensures LastToken(lead + " " + token) == token
  {
    SplitAppend(lead, ' ', token);
    SplitNoSeparator(token, ' ');
  }

  /** `[int(i) for i in parts]`. */
  function Coords(parts: seq<string>): (r: Result<seq<int>, Failure>)
    ensures r.Ok? <==> forall i :: 0 <= i < |parts| ==> ParseInt(parts[i]).Ok?
    ensures r.Ok? ==> |r.value| == |parts| && forall i :: 0 <= i < |parts| ==> r.value[i] == ParseInt(parts[i]).value
    ensures r.Err? ==> r.error == ValueError
  {
    if parts == [] then Ok([])
    else
      match ParseInt(parts[0])
      case Err(_) => Err(ValueError)
      case Ok(v) =>
        match Coords(parts[1..])
        case Err(e) => Err(e)
        case Ok(vs) => Ok([v] + vs)
  }

  /** `token[:10] == 'complement'`. */
  predicate IsComplement(token: string) {
    "complement" <= token
  }

  /** The text left for the integers: `complement(` and `)` removed from a
      complement, and, on the second attempt, `>` and `<` removed too. */
  function Bare(token: string, partial: bool): string {
    var t := if IsComplement(token) then Replace(Replace(token, "complement(", ""), ")", "") else token;
    if partial then Replace(Replace(t, ">", ""), "<", "") else t
  }

  /** One attempt of `feature_line`. */
  function TryLocation(token: string, partial: bool): Result<Loc, Failure> {
    match Coords(SplitOn(Bare(token, partial), ".."))
    case Err(e) => Err(e)
    case Ok(c) => Ok(Loc(c, if IsComplement(token) then "-" else "+"))
  }

  /** `feature_line`: the last token of the stripped feature line, parsed
      as is, then with `<` and `>` removed; if both fail the run stops. */
  function FeatureLocation(line: string): (r: Result<Loc, Failure>)
    ensures r.Err? <==> TryLocation(LastToken(line), false).Err? && TryLocation(LastToken(line), true).Err?
    ensures r.Err? ==> r.error == Exit("failed to parse entry coordinates \"" + LastToken(line) + "\"")
    ensures r.Ok? ==> r.value.orient == (if IsComplement(LastToken(line)) then "-" else "+")
  {
    var token := LastToken(line);
    match TryLocation(token, false)
    case Ok(l) => Ok(l)
    case Err(_) =>
      match TryLocation(token, true)
      case Ok(l) => Ok(l)
      case Err(_) => Err(Exit("failed to parse entry coordinates \"" + token + "\""))
  }

  lemma ParseNat(n: nat)
    ensures ParseInt(NatToString(n)) == Ok(n)
  {
    ParseIntOfString(n);
  }

  /** Digits hold neither '.', '<', '>', ')' nor ' '. */
  lemma DigitsAvoid(n: nat, c: char)
    requires !IsDigit(c)
    ensures c !in NatToString(n)
  {
  }

  lemma CoordsPair(x: string, y: string)
    requires ParseInt(x).Ok? && ParseInt(y).Ok?
    ensures Coords([x, y]) == Ok([ParseInt(x).value, ParseInt(y).value])
  {
    var parts := [x, y];
    var r := Coords(parts);
    assert parts[0] == x && parts[1] == y;
    assert r.Ok?;
    assert r.value[0] == ParseInt(parts[0]).value && r.value[1] == ParseInt(parts[1]).value;
    assert r.value == [ParseInt(x).value, ParseInt(y).value];
  }

  lemma RangeCoords(a: nat, b: nat)
    ensures Coords(SplitOn(NatToString(a) + ".." + NatToString(b), "..")) == Ok([a, b])
  {
    DigitsAvoid(a, '.');
    DigitsAvoid(b, '.');
    SplitOnPair(NatToString(a), "..", NatToString(b));
    ParseNat(a);
    ParseNat(b);
    CoordsPair(NatToString(a), NatToString(b));
  }

  /** `a..b` reads as `(a, b, '+')`. */
  lemma LocationOfRange(lead: string, a: nat, b: nat)
    ensures FeatureLocation(lead + " " + NatToString(a) + ".." + NatToString(b)) == Ok(Loc([a, b], "+"))
  {
    var token := NatToString(a) + ".." + NatToString(b);
    DigitsAvoid(a, ' ');
    DigitsAvoid(b, ' ');
    assert lead + " " + NatToString(a) + ".." + NatToString(b) == lead + " " + token;
    LastTokenOf(lead, token);
    assert token[0] == NatToString(a)[0];
    RangeCoords(a, b);
  }

  /** Replacing a pattern whose first character is absent changes nothing. */
  lemma {:induction false} ReplaceAbsent(s: string, pat: string, repl: string)
    requires |pat| > 0 && pat[0] !in s
    ensures Replace(s, pat, repl) == s
  {
    if s != [] {
      assert s[0] in s;
      assert !(pat <= s);
      ReplaceAbsent(s[1..], pat, repl);
    }
  }

  lemma ReplaceLeading(p: string, s: string)
    requires |p| > 0 && p[0] !in s
    ensures Replace(p + s, p, "") == s
  {
    assert p <= p + s;
    assert (p + s)[|p|..] == s;
    ReplaceAbsent(s, p, "");
  }

  /** `complement(a..b)` reads as `(a, b, '-')`. */
  lemma LocationOfComplement(lead: string, a: nat, b: nat)
    ensures FeatureLocation(lead + " complement(" + NatToString(a) + ".." + NatToString(b) + ")") == Ok(Loc([a, b], "-"))
  {
    var token := "complement(" + NatToString(a) + ".." + NatToString(b) + ")";
    DigitsAvoid(a, ' ');
    DigitsAvoid(b, ' ');
    ComplementToken(lead, NatToString(a), NatToString(b));
    DigitsAvoid(a, 'c');
    DigitsAvoid(b, 'c');
    DigitsAvoid(a, ')');
    DigitsAvoid(b, ')');
    ComplementBare(NatToString(a), NatToString(b));
    RangeCoords(a, b);
    assert TryLocation(token, false) == Ok(Loc([a, b], "-"));
  }

  /** The last token of such a line is the whole `complement(x..y)`. */
  lemma ComplementToken(lead: string, x: string, y: string)
    requires ' ' !in x && ' ' !in y
    ensures LastToken(lead + " complement(" + x + ".." + y + ")") == "complement(" + x + ".." + y + ")"
  {
    var token := "complement(" + x + ".." + y + ")";
    assert ' ' !in token by {
      assert token == "complement(" + (x + (".." + (y + ")")));
    }
    assert lead + " complement(" + x + ".." + y + ")" == lead + " " + token;
    LastTokenOf(lead, token);
  }

  /** Unwrapping `complement(x..y)` leaves `x..y`. */
  lemma ComplementBare(x: string, y: string)
    requires 'c' !in x && ')' !in x && 'c' !in y && ')' !in y
    ensures IsComplement("complement(" + x + ".." + y + ")")
    ensures Bare("complement(" + x + ".." + y + ")", false) == x + ".." + y
  {
    var range := x + ".." + y;
    var token := "complement(" + x + ".." + y + ")";
    assert IsComplement(token) by {
      assert token[..10] == "complement";
    }
    assert token == "complement(" + (range + ")");
    assert 'c' !in range && ')' !in range;
    ReplaceLeading("complement(", range + ")");
    var inner := Replace(token, "complement(", "");
    assert inner == range + ")";
    RemoveCharAppend(range, ")", ')');
    ReplaceAbsentChar(range, ')', "");
    assert Replace(")", ")", "") == "";
    assert Replace(inner, ")", "") == range;
  }

  /** Text starting with a character that is no digit, sign or space is
      not an integer. */
  lemma NotAnInt(c: char, rest: string)
    requires !IsDigit(c) && c != '-' && c != '+' && c !in Whitespace
    requires rest != [] && IsDigit(rest[|rest| - 1])
    ensures ParseInt([c] + rest).Err?
  {
    var t := [c] + rest;
    assert t[|t| - 1] == rest[|rest| - 1];
    StripUntouched(t, Whitespace);
  }

  /** `<a..>b` splits at `..` into `<a` and `>b`. */
  lemma PartialSplit(a: nat, b: nat)
    ensures SplitOn("<" + NatToString(a) + "..>" + NatToString(b), "..") == ["<" + NatToString(a), ">" + NatToString(b)]
  {
    var A := NatToString(a);
    var B := NatToString(b);
    DigitsAvoid(a, '.');
    DigitsAvoid(b, '.');
    assert "<" + A + "..>" + B == ("<" + A) + ".." + (">" + B);
    SplitOnPair("<" + A, "..", ">" + B);
  }

  lemma PartialPlain(a: nat, b: nat)
    ensures !IsComplement("<" + NatToString(a) + "..>" + NatToString(b))
    ensures Bare("<" + NatToString(a) + "..>" + NatToString(b), false) == "<" + NatToString(a) + "..>" + NatToString(b)
  {
    var token := "<" + NatToString(a) + "..>" + NatToString(b);
    assert token[0] == '<';
  }

  lemma LeadNotInt(a: nat)
    ensures ParseInt("<" + NatToString(a)).Err?
  {
    var A := NatToString(a);
    assert IsDigit(A[|A| - 1]);
    NotAnInt('<', A);
    assert "<" + A == ['<'] + A;
  }

  /** `<a` is not an integer, so the first attempt on `<a..>b` fails. */
  lemma PartialFirstFails(a: nat, b: nat)
    ensures TryLocation("<" + NatToString(a) + "..>" + NatToString(b), false).Err?
  {
    PartialPlain(a, b);
    LeadNotInt(a);
    PartialSplit(a, b);
    FirstCoordFails(SplitOn("<" + NatToString(a) + "..>" + NatToString(b), ".."));
  }

  lemma FirstCoordFails(parts: seq<string>)
    requires parts != [] && ParseInt(parts[0]).Err?
    ensures Coords(parts).Err?
  {
  }

  /** Deleting a character that closes a text free of it. */
  lemma DropLastChar(x: string, c: char)
    requires c !in x
    ensures Replace(x + [c], [c], "") == x
  {
    RemoveCharAppend(x, [c], c);
    ReplaceAbsentChar(x, c, "");
    assert Replace([c], [c], "") == "";
  }

  /** Deleting a character that opens a text otherwise free of it. */
  lemma DropFirstChar(t: string, c: char, y: string)
    requires t == [c] + y && c !in y
    ensures Replace(t, [c], "") == y
  {
    assert [c] <= t && t[1..] == y;
    ReplaceAbsentChar(y, c, "");
  }

  /** Deleting the one occurrence of `c`. */
  lemma DropChar(t: string, x: string, c: char, y: string)
    requires t == x + [c] + y
    requires c !in x && c !in y
    ensures Replace(t, [c], "") == x + y
  {
    RemoveCharAppend(x + [c], y, c);
    DropLastChar(x, c);
    ReplaceAbsentChar(y, c, "");
  }

  /** A character absent from three texts is absent from their concatenation. */
  lemma AvoidsConcat3(c: char, x: string, y: string, z: string)
    requires c !in x && c !in y && c !in z
    ensures c !in x + y + z
  {
    assert forall i | 0 <= i < |x + y + z| :: (x + y + z)[i] in x || (x + y + z)[i] in y || (x + y + z)[i] in z;
  }

  /** Removing `>` from `<A..>B` leaves `<A..B`. */
  lemma DropGreater(A: string, B: string)
    requires '>' !in A && '>' !in B
    ensures Replace("<" + A + "..>" + B, ">", "") == "<" + A + ".." + B
  {
    AvoidsConcat3('>', "<", A, "..");
    DropChar("<" + A + "..>" + B, "<" + A + "..", '>', B);
  }

  /** Removing `<` from `<A..B` leaves `A..B`. */
  lemma DropLess(A: string, B: string)
    requires '<' !in A && '<' !in B
    ensures Replace("<" + A + ".." + B, "<", "") == A + ".." + B
  {
    AvoidsConcat3('<', A, "..", B);
    DropFirstChar("<" + A + ".." + B, '<', A + ".." + B);
  }

  /** Removing `>` then `<` from `<a..>b` leaves `a..b`. */
  lemma PartialBare(a: nat, b: nat)
    ensures Bare("<" + NatToString(a) + "..>" + NatToString(b), true) == NatToString(a) + ".." + NatToString(b)
  {
    var A := NatToString(a);
    var B := NatToString(b);
    var token := "<" + A + "..>" + B;
    assert !IsComplement(token) by {
      assert token[0] == '<';
    }
    DigitsAvoid(a, '>');
    DigitsAvoid(b, '>');
    DigitsAvoid(a, '<');
    DigitsAvoid(b, '<');
    DropGreater(A, B);
    DropLess(A, B);
  }

  /** A partial range `<a..>b` reads, on the second attempt, as `(a, b, '+')`. */
  lemma LocationOfPartial(lead: string, a: nat, b: nat)
    ensures FeatureLocation(lead + " <" + NatToString(a) + "..>" + NatToString(b)) == Ok(Loc([a, b], "+"))
  {
    var token := "<" + NatToString(a) + "..>" + NatToString(b);
    DigitsAvoid(a, ' ');
    DigitsAvoid(b, ' ');
    assert lead + " <" + NatToString(a) + "..>" + NatToString(b) == lead + " " + token;
    LastTokenOf(lead, token);
    assert !IsComplement(token) by {
      assert token[0] == '<';
    }
    PartialFirstFails(a, b);
    PartialBare(a, b);
    RangeCoords(a, b);
  }

  // ---------------------------------------------------------------------
  // Sequences

  /** `complement.get(base, 'X')`. */
  function Complement(c: char): char {
    match c
    case 'A' => 'T'
    case 'C' => 'G'
    case 'G' => 'C'
    case 'T' => 'A'
    case _ => 'X'
  }

  /** `''.join([complement.get(base, 'X') for base in s[::-1]])`. */
  function ReverseComplement(s: string): (r: string)
    ensures |r| == |s|
    ensures forall i :: 0 <= i < |s| ==> r[i] == Complement(s[|s| - 1 - i])
  {
    if s == [] then [] else [Complement(s[|s| - 1])] + ReverseComplement(s[..|s| - 1])
  }

  const Bases: set<char> := {'A', 'C', 'G', 'T'}

  /** The reverse complement holds only A, C, G, T and X; on a sequence of
      A, C, G and T it is undone by applying it again. */
  lemma ReverseComplementInvolution(s: string)
    ensures AllIn(ReverseComplement(s), Bases + {'X'})
    ensures AllIn(s, Bases) ==> AllIn(ReverseComplement(s), Bases) && ReverseComplement(ReverseComplement(s)) == s
  {
    var r := ReverseComplement(s);
    forall i | 0 <= i < |s| ensures r[i] in Bases + {'X'} {
      ComplementOf(s[|s| - 1 - i]);
    }
    if AllIn(s, Bases) {
      var rr := ReverseComplement(r);
      forall i | 0 <= i < |s| ensures r[i] in Bases && rr[i] == s[i] {
        var j := |s| - 1 - i;
        ComplementOf(s[j]);
        ComplementOf(s[i]);
        assert rr[i] == Complement(r[j]);
        assert r[j] == Complement(s[i]);
      }
    }
  }

  /** The complement of any character is a base or 'X', and on a base it
      undoes itself. */
  lemma ComplementOf(c: char)
    ensures Complement(c) in Bases + {'X'}
    ensures c in Bases ==> Complement(c) in Bases && Complement(Complement(c)) == c
  {
  }

  /** `seq[start-1:stop]`, reverse-complemented for '-'; a location that
      does not unpack into `start, stop, orient` raises ValueError. */
  function Extract(genome: string, loc: Loc): (r: Result<string, Failure>)
    ensures r.Ok? <==> |loc.coords| == 2
    ensures r.Err? ==> r.error == ValueError
  {
    if |loc.coords| != 2 then Err(ValueError)
    else
      var piece := Slice(genome, loc.coords[0] - 1, loc.coords[1]);
      Ok(if loc.orient == "-" then ReverseComplement(piece) else piece)
  }

  /** For a location inside the genome, '+' gives bases `start..stop` and
      '-' their reverse complement, `stop - start + 1` bases either way. */
  lemma ExtractInside(genome: string, start: int, stop: int, orient: string)
    requires 1 <= start <= stop <= |genome|
    ensures Extract(genome, Loc([start, stop], orient)).Ok?
    ensures |Extract(genome, Loc([start, stop], orient)).value| == stop - start + 1
    ensures orient != "-" ==> Extract(genome, Loc([start, stop], orient)).value == genome[start - 1..stop]
    ensures orient == "-" ==> Extract(genome, Loc([start, stop], orient)).value == ReverseComplement(genome[start - 1..stop])
  {
    SliceOneBased(genome, start, stop);
  }

  // ---------------------------------------------------------------------
  // 60-column wrapping

  /** `[s[i:i+w] for i in range(0, len(s), w)]`. */
  function Pieces(s: string, w: nat): (r: seq<string>)
    requires w > 0
    ensures s == [] <==> r == []
    decreases |s|
  {
    if s == [] then []
    else if |s| <= w then [s]
    else [s[..w]] + Pieces(s[w..], w)
  }

  /** `'\n'.join(pieces of 60)`. */
  function Wrap(s: string): string {
    Join(Pieces(s, 60), "\n")
  }

  /** Every piece but the last has `w` characters, the last between 1 and
      `w`; together they are `s`; none holds a character `s` lacks. */
  lemma {:induction false} PiecesShape(s: string, w: nat, c: char)
    requires w > 0
    ensures Join(Pieces(s, w), "") == s
    ensures forall i :: 0 <= i < |Pieces(s, w)| - 1 ==> |Pieces(s, w)[i]| == w
    ensures s != [] ==> 0 < |Pieces(s, w)[|Pieces(s, w)| - 1]| <= w
    ensures c !in s ==> forall i :: 0 <= i < |Pieces(s, w)| ==> c !in Pieces(s, w)[i]
    decreases |s|
  {
    if |s| > w {
      PiecesShape(s[w..], w, c);
      assert s == s[..w] + s[w..];
      if c !in s {
        assert forall x :: x in s[..w] ==> x in s;
        assert forall x :: x in s[w..] ==> x in s;
      }
    }
  }

  /** Removing the newlines of a wrapped sequence gives it back. */
  lemma {:induction false} WrapUnwrap(s: string)
    requires '\n' !in s
    ensures Replace(Wrap(s), "\n", "") == s
    decreases |s|
  {
    if |s| > 60 {
      WrapUnwrap(s[60..]);
      assert '\n' !in s[..60] by {
        assert forall x :: x in s[..60] ==> x in s;
      }
      assert '\n' !in s[60..] by {
        assert forall x :: x in s[60..] ==> x in s;
      }
      var rest := Wrap(s[60..]);
      assert Wrap(s) == s[..60] + "\n" + rest;
      RemoveCharAppend(s[..60] + "\n", rest, '\n');
      RemoveCharAppend(s[..60], "\n", '\n');
      ReplaceAbsentChar(s[..60], '\n', "");
      assert Replace("\n", "\n", "") == "";
      assert s == s[..60] + s[60..];
    } else if s != [] {
      ReplaceAbsentChar(s, '\n', "");
    }
  }

  /** Read back line by line, a wrapped sequence is its pieces: lines of 60
      characters and a last line of 1 to 60. */
  lemma WrapLines(s: string)
    requires '\n' !in s && s != []
    ensures Split(Wrap(s), '\n') == Pieces(s, 60)
  {
    PiecesShape(s, 60, '\n');
    SplitJoin(Pieces(s, 60), '\n');
  }

  // ---------------------------------------------------------------------
  // The ORIGIN block

  /** What one stripped ORIGIN line adds: its tokens after the first (the
      position), joined, then a newline. */
  function OriginPiece(line: string): string {
    var f := Split(line, ' ');
    Concat(f[1..]) + "\n"
  }

  /** The residues of one ORIGIN line. */
  function Residues(line: string): string {
    var f := Split(line, ' ');
    Concat(f[1..])
  }

  /** `seq` after the ORIGIN lines `ls`. */
  function OriginText(ls: seq<string>): string {
    if ls == [] then [] else OriginText(ls[..|ls| - 1]) + OriginPiece(ls[|ls| - 1])
  }

  /** The genome: the residues of the ORIGIN lines, in order. */
  function Genome(ls: seq<string>): string {
    if ls == [] then [] else Genome(ls[..|ls| - 1]) + Residues(ls[|ls| - 1])
  }

  /** `OriginText` read from the front: the first line's piece, then the rest. */
  lemma {:induction false} OriginTextFront(l: string, ls: seq<string>)
    ensures OriginText([l] + ls) == OriginPiece(l) + OriginText(ls)
    decreases |ls|
  {
    if ls == [] {
      assert [l] + ls == [l];
      assert [l][..0] == [];
      assert OriginText([l]) == OriginText([]) + OriginPiece(l);
    } else {
      var xs := [l] + ls;
      var init := ls[..|ls| - 1];
      assert xs[..|xs| - 1] == [l] + init;
      assert xs[|xs| - 1] == ls[|ls| - 1];
      OriginTextFront(l, init);
      assert OriginText(xs) == OriginText([l] + init) + OriginPiece(ls[|ls| - 1]);
      assert OriginText(ls) == OriginText(init) + OriginPiece(ls[|ls| - 1]);
    }
  }

  lemma UpperAppend(a: string, b: string)
    ensures Upper(a + b) == Upper(a) + Upper(b)
  {
    assert forall i :: 0 <= i < |a + b| ==> Upper(a + b)[i] == (Upper(a) + Upper(b))[i];
  }

  lemma {:induction false} ConcatAvoids(parts: seq<string>, c: char)
    requires forall i :: 0 <= i < |parts| ==> c !in parts[i]
    ensures c !in Concat(parts)
  {
    if parts != [] {
      ConcatAvoids(parts[..|parts| - 1], c);
    }
  }

  /** At `//` the genome is upper-cased and its newlines removed: what is
      left is the upper-cased residues, with no space or newline. */
  lemma {:induction false} OriginGenome(ls: seq<string>)
    requires forall i :: 0 <= i < |ls| ==> '\n' !in ls[i]
    ensures Replace(Upper(OriginText(ls)), "\n", "") == Upper(Genome(ls))
    ensures ' ' !in Genome(ls) && '\n' !in Genome(ls)
  {
    if ls != [] {
      var front := ls[..|ls| - 1];
      var last := ls[|ls| - 1];
      assert forall i :: 0 <= i < |front| ==> front[i] == ls[i];
      OriginGenome(front);
      ResiduesAvoid(last);
      OriginStep(ls);
    }
  }

  /** The residues of a line without a newline hold no space and no newline. */
  lemma ResiduesAvoid(last: string)
    requires '\n' !in last
    ensures ' ' !in Residues(last) && '\n' !in Residues(last)
  {
    var f := Split(last, ' ');
    assert forall i :: 0 <= i < |f[1..]| ==> f[1..][i] == f[i + 1];
    ConcatAvoids(f[1..], ' ');
    forall i | 0 <= i < |f[1..]| ensures '\n' !in f[1..][i] {
      JoinSplit(last, ' ');
      SplitPieceAvoids(last, ' ', '\n', i + 1);
    }
    ConcatAvoids(f[1..], '\n');
  }

  /** One more ORIGIN line keeps the upper-cased text without newlines equal
      to the upper-cased genome. */
  lemma OriginStep(ls: seq<string>)
    requires ls != []
    requires Replace(Upper(OriginText(ls[..|ls| - 1])), "\n", "") == Upper(Genome(ls[..|ls| - 1]))
    requires ' ' !in Genome(ls[..|ls| - 1]) && '\n' !in Genome(ls[..|ls| - 1])
    requires ' ' !in Residues(ls[|ls| - 1]) && '\n' !in Residues(ls[|ls| - 1])
    ensures Replace(Upper(OriginText(ls)), "\n", "") == Upper(Genome(ls))
    ensures ' ' !in Genome(ls) && '\n' !in Genome(ls)
  {
    var r := Residues(ls[|ls| - 1]);
    assert OriginText(ls) == OriginText(ls[..|ls| - 1]) + (r + "\n");
    UpperStep(OriginText(ls[..|ls| - 1]), Genome(ls[..|ls| - 1]), r);
  }

  /** Appending a line's residues and a newline to the text, and the
      residues alone to the genome, keeps the two equal once newlines are
      removed and both are upper-cased. */
  lemma UpperStep(a: string, g: string, r: string)
    requires Replace(Upper(a), "\n", "") == Upper(g) && '\n' !in r
    ensures Replace(Upper(a + (r + "\n")), "\n", "") == Upper(g + r)
  {
    UpperAppend(a, r + "\n");
    UpperAppend(r, "\n");
    UpperAppend(g, r);
    assert Upper("\n") == "\n";
    var u := Upper(r);
    assert '\n' !in u;
    RemoveCharAppend(Upper(a), u + "\n", '\n');
    RemoveCharAppend(u, "\n", '\n');
    ReplaceAbsentChar(u, '\n', "");
    assert Replace("\n", "\n", "") == "";
  }

  /** A field of a split holds no character the text lacks. */
  lemma {:induction false} SplitPieceAvoids(s: string, c: char, d: char, i: nat)
    requires d !in s && i < |Split(s, c)|
    ensures d !in Split(s, c)[i]
  {
    if s != [] {
      assert forall x :: x in s[1..] ==> x in s;
      var rest := Split(s[1..], c);
      if s[0] == c {
        if i > 0 {
          SplitPieceAvoids(s[1..], c, d, i - 1);
        }
      } else if i == 0 {
        SplitPieceAvoids(s[1..], c, d, 0);
      } else {
        SplitPieceAvoids(s[1..], c, d, i);
      }
    }
  }

  // ---------------------------------------------------------------------
  // GFF rows

  /** The nine fields of a GFF row as the script writes them: '.' in the
      score and strand columns and the orientation in the phase column. */
  function GffFieldsWritten(genome: string, kind: string, start: int, stop: int, orient: string,
                            name: string, product: string): seq<string> {
    [genome, ".", kind, IntToString(start), IntToString(stop), ".", ".", orient, name + "; " + product]
  }

  /** The fields of section "Column 7: strand" of the GFF3 specification:
      the orientation in column 7 and '.' (no phase) in column 8. */
  function GffFields(genome: string, kind: string, start: int, stop: int, orient: string,
                     name: string, product: string): seq<string> {
    [genome, ".", kind, IntToString(start), IntToString(stop), ".", orient, ".", name + "; " + product]
  }

  function TabLine(fields: seq<string>): string {
    Join(fields, "\t") + "\n"
  }

  /** A field free of tabs and newlines. */
  predicate CleanText(s: string) {
    '\t' !in s && '\n' !in s
  }

  predicate Clean(fields: seq<string>) {
    forall i :: 0 <= i < |fields| ==> CleanText(fields[i])
  }

  lemma IntTextClean(i: int)
    ensures '\t' !in IntToString(i) && '\n' !in IntToString(i)
  {
    if i < 0 {
      DigitsAvoid(-i, '\t');
      DigitsAvoid(-i, '\n');
    } else {
      DigitsAvoid(i, '\t');
      DigitsAvoid(i, '\n');
    }
  }

  /** A row of clean fields is one line that splits back into the fields. */
  lemma TabLineFields(fields: seq<string>)
    requires |fields| >= 1 && Clean(fields)
    ensures '\n' !in Join(fields, "\t")
    ensures Split(TabLine(fields)[..|TabLine(fields)| - 1], '\t') == fields
  {
    JoinAvoids(fields, "\t", '\n');
    assert TabLine(fields)[..|TabLine(fields)| - 1] == Join(fields, "\t");
    SplitJoin(fields, '\t');
  }

  /** As written, a row has nine columns with '.' in column 7 (strand)
      and the orientation in column 8 (phase). */
  lemma WrittenStrandInPhaseColumn(genome: string, kind: string, start: int, stop: int, orient: string,
                                   name: string, product: string)
    requires CleanText(genome) && CleanText(kind) && CleanText(orient) && CleanText(name) && CleanText(product)
    ensures var f := Split(TabLine(GffFieldsWritten(genome, kind, start, stop, orient, name, product))[..|TabLine(GffFieldsWritten(genome, kind, start, stop, orient, name, product))| - 1], '\t');
      |f| == 9 && f[6] == "." && f[7] == orient
  {
    IntTextClean(start);
    IntTextClean(stop);
    var f := GffFieldsWritten(genome, kind, start, stop, orient, name, product);
    assert CleanText(name + "; " + product);
    TabLineFields(f);
  }

  /** The row the model writes has the orientation in column 7 and reads
      back as its nine fields. */
  lemma StrandColumn(genome: string, kind: string, start: int, stop: int, orient: string,
                     name: string, product: string)
    requires CleanText(genome) && CleanText(kind) && CleanText(orient) && CleanText(name) && CleanText(product)
    ensures Split(TabLine(GffFields(genome, kind, start, stop, orient, name, product))[..|TabLine(GffFields(genome, kind, start, stop, orient, name, product))| - 1], '\t')
      == [genome, ".", kind, IntToString(start), IntToString(stop), ".", orient, ".", name + "; " + product]
  {
    IntTextClean(start);
    IntTextClean(stop);
    var f := GffFields(genome, kind, start, stop, orient, name, product);
    assert CleanText(name + "; " + product);
    TabLineFields(f);
  }
}
