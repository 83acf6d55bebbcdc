/** scripts/Extract_Seqs.py: writes the records of a FASTA file chosen by a
    list of names. Method 1 keeps the listed headers (each name once),
    method 2 the proteins of listed genomes, method 3 the genomes of
    listed proteins, method 4 everything that is not listed. The list file
    and the FASTA file are given as text; the output file is the text
    written to it. */
module ExtractSeqs {
  import opened Wrappers
  import opened Strings
  import opened Fasta

  // ---------------------------------------------------------------------
  // The name list

  /** `get_names`: the distinct non-empty lines of the list file. */
  function Names(text: string): (r: set<string>)
    ensures "" !in r
  {
    set x | x in Split(text, '\n') && x != ""
  }

  /** A list written one name per line gives back exactly its non-empty
      names, each once. */
  lemma NamesOfList(ns: seq<string>)
    requires |ns| >= 1 && forall i :: 0 <= i < |ns| ==> '\n' !in ns[i]
    ensures Names(Join(ns, "\n")) == set x | x in ns && x != ""
  {
    SplitJoin(ns, '\n');
  }

  // ---------------------------------------------------------------------
  // Header splitting (`--split`, `--reverse`)

  /** The `--split` choices. */
  datatype Delimiter = Space | Comma | Tab | Prodigal | Underscore | Dunder | Tilde

  /** The text each `--split` choice stands for. */
  function DelimiterText(d: Delimiter): (r: string)
    ensures r != ""
  {
    match d
    case Space => " "
    case Comma => ","
    case Tab => "\t"
    case Prodigal => " # "
    case Underscore => "_"
    case Dunder => "__"
    case Tilde => "~"
  }

  /** The header kept with `--split`: the part before the first delimiter,
      or before the last one with `--reverse`. */
  function SplitHeader(header: string, d: Delimiter, reverse: bool): (r: string)
    ensures r <= header
    ensures !Contains(header, DelimiterText(d)) ==> r == header
  {
    var sep := DelimiterText(d);
    BeforeFirstIsPrefix(header, sep);
    BeforeLastIsPrefix(header, sep);
    if reverse then BeforeLast(header, sep) else BeforeFirst(header, sep)
  }

  /** `fasta_parse` of this script: the shared parse, with every header
      split when `--split` is given. */
  function Renamed(recs: seq<Record>, split: Option<Delimiter>, reverse: bool): (r: seq<Record>)
    ensures |r| == |recs|
    ensures forall i :: 0 <= i < |r| ==> r[i].sequence == recs[i].sequence && r[i].header <= recs[i].header
    ensures split.None? ==> r == recs
  {
    if split.None? then recs
    else seq(|recs|, i requires 0 <= i < |recs| => Record(SplitHeader(recs[i].header, split.value, reverse), recs[i].sequence))
  }

  // ---------------------------------------------------------------------
  // The four methods, record by record

  /** What a method leaves: the records written and the names not used up. */
  datatype Pick = Pick(kept: seq<Record>, left: set<string>)

  /** `method_1` from record `i` on: a listed header is written and its
      name removed; the loop stops when no name is left. */
  function Exact(recs: seq<Record>, i: nat, kept: seq<Record>, names: set<string>): (r: Pick)
    requires i <= |recs|
    ensures r.left <= names
    decreases |recs| - i
  {
    if i == |recs| then Pick(kept, names)
    else
      var h := recs[i].header;
      if h in names then
        var left := names - {h};
        if left == {} then Pick(kept + [recs[i]], {})
        else Exact(recs, i + 1, kept + [recs[i]], left)
      else Exact(recs, i + 1, kept, names)
  }

  /** The written records come from the file, carry distinct listed
      headers, and each used up exactly one name. */
  ghost predicate Accounted(recs: seq<Record>, kept: seq<Record>, names: set<string>, names0: set<string>) {
    names <= names0 &&
    (forall k :: 0 <= k < |kept| ==> kept[k] in recs && kept[k].header in names0 && kept[k].header !in names) &&
    (forall j, k :: 0 <= j < k < |kept| ==> kept[j].header != kept[k].header) &&
    |kept| + |names| == |names0|
  }

  /** From any record on, the exact-match pass keeps the written records
      accounted for: each used up one listed name, and no name twice. */
  lemma {:induction false} ExactAccounted(recs: seq<Record>, i: nat, kept: seq<Record>, names: set<string>, names0: set<string>)
    requires i <= |recs| && Accounted(recs, kept, names, names0)
    ensures Accounted(recs, Exact(recs, i, kept, names).kept, Exact(recs, i, kept, names).left, names0)
    decreases |recs| - i
  {
    if i < |recs| {
      var h := recs[i].header;
      if h in names {
        var left := names - {h};
        assert |left| == |names| - 1;
        if left != {} {
          ExactAccounted(recs, i + 1, kept + [recs[i]], left, names0);
        }
      } else {
        ExactAccounted(recs, i + 1, kept, names, names0);
      }
    }
  }

  /** Method 1 writes each listed name at most once, only listed names,
      and as many records as names it used up. */
  lemma ExactWritesListed(recs: seq<Record>, names: set<string>)
    ensures var p := Exact(recs, 0, [], names);
      (forall k :: 0 <= k < |p.kept| ==> p.kept[k] in recs && p.kept[k].header in names) &&
      (forall j, k :: 0 <= j < k < |p.kept| ==> p.kept[j].header != p.kept[k].header) &&
      |p.kept| == |names| - |p.left|
  {
    ExactAccounted(recs, 0, [], names, names);
  }

  /** When every listed name is the header of some record, method 1 finds
      them all. */
  lemma {:induction false} ExactFindsAll(recs: seq<Record>, i: nat, kept: seq<Record>, names: set<string>)
    requires i <= |recs|
    requires forall n :: n in names ==> exists j :: i <= j < |recs| && recs[j].header == n
    ensures Exact(recs, i, kept, names).left == {}
    decreases |recs| - i
  {
    if i < |recs| {
      var h := recs[i].header;
      var rest := if h in names then names - {h} else names;
      forall n | n in rest ensures exists j :: i + 1 <= j < |recs| && recs[j].header == n {
        var j :| i <= j < |recs| && recs[j].header == n;
        assert j != i;
      }
      if !(h in names && rest == {}) {
        ExactFindsAll(recs, i + 1, if h in names then kept + [recs[i]] else kept, rest);
      }
    }
  }

  /** The headers of a run of records. */
  function Headers(recs: seq<Record>): set<string> {
    set r | r in recs :: r.header
  }

  lemma HeadersSnoc(front: seq<Record>, last: Record)
    ensures Headers(front + [last]) == Headers(front) + {last.header}
  {
    var recs := front + [last];
    forall h | h in Headers(recs) ensures h in Headers(front) + {last.header} {
      var r :| r in recs && r.header == h;
      if r != last { assert r in front; }
    }
  }

  lemma HeadersCons(first: Record, rest: seq<Record>)
    ensures Headers([first] + rest) == {first.header} + Headers(rest)
  {
    var recs := [first] + rest;
    forall h | h in Headers(recs) ensures h in {first.header} + Headers(rest) {
      var r :| r in recs && r.header == h;
      if r != first { assert r in rest; }
    }
    forall h | h in Headers(rest) ensures h in Headers(recs) {
      var r :| r in rest && r.header == h;
      assert r in recs;
    }
  }

  lemma HeadersPrefix(recs: seq<Record>, j: nat)
    requires j <= |recs|
    ensures Headers(recs[..j]) <= Headers(recs)
  {
    forall h | h in Headers(recs[..j]) ensures h in Headers(recs) {
      var r :| r in recs[..j] && r.header == h;
      assert r in recs;
    }
  }

  /** The records a list picks out of a file: those whose header is
      listed and heads no earlier record, in file order. */
  function FirstListed(recs: seq<Record>, names: set<string>): seq<Record> {
    if recs == [] then []
    else
      var front := recs[..|recs| - 1];
      var last := recs[|recs| - 1];
      FirstListed(front, names) + (if last.header in names && last.header !in Headers(front) then [last] else [])
  }

  /** The picked records carry exactly the listed names that head some
      record, each once. */
  lemma {:induction false} FirstListedShape(recs: seq<Record>, names: set<string>)
    ensures Headers(FirstListed(recs, names)) == names * Headers(recs)
    ensures forall j, k :: 0 <= j < k < |FirstListed(recs, names)| ==>
      FirstListed(recs, names)[j].header != FirstListed(recs, names)[k].header
  {
    if recs != [] {
      var front := recs[..|recs| - 1];
      var last := recs[|recs| - 1];
      FirstListedShape(front, names);
      assert recs == front + [last];
      HeadersSnoc(front, last);
      var f := FirstListed(front, names);
      if last.header in names && last.header !in Headers(front) {
        assert FirstListed(recs, names) == f + [last];
        HeadersSnoc(f, last);
        forall j | 0 <= j < |f| ensures f[j].header != last.header {
          assert f[j] in f;
        }
      } else {
        assert FirstListed(recs, names) == f;
      }
    }
  }

  /** Once every name heads one of the first `j` records, the later
      records add nothing to the pick, and no name is left. */
  lemma {:induction false} FirstListedSaturated(recs: seq<Record>, j: nat, names: set<string>)
    requires j <= |recs| && names <= Headers(recs[..j])
    ensures FirstListed(recs, names) == FirstListed(recs[..j], names)
    ensures names - Headers(recs) == {}
    decreases |recs|
  {
    HeadersPrefix(recs, j);
    if |recs| > j {
      var front := recs[..|recs| - 1];
      var last := recs[|recs| - 1];
      assert front[..j] == recs[..j];
      FirstListedSaturated(front, j, names);
      HeadersPrefix(front, j);
      assert last.header in names ==> last.header in Headers(front);
    } else {
      assert recs[..j] == recs;
    }
  }

  /** One more record: its header joins the headers seen, and it is picked
      exactly when its name is still unused. */
  lemma FirstListedStep(recs: seq<Record>, i: nat, names0: set<string>)
    requires i < |recs|
    ensures Headers(recs[..i + 1]) == Headers(recs[..i]) + {recs[i].header}
    ensures FirstListed(recs[..i + 1], names0) == FirstListed(recs[..i], names0) +
      (if recs[i].header in names0 - Headers(recs[..i]) then [recs[i]] else [])
  {
    var next := recs[..i + 1];
    assert next[..i] == recs[..i] && next[i] == recs[i];
    assert next == recs[..i] + [recs[i]];
    HeadersSnoc(recs[..i], recs[i]);
  }

  /** From record `i` on, the exact-match pass ends with the records
      picked from the whole file and the names that head none of them,
      when it starts with those of the first `i` records. */
  lemma {:induction false} ExactFollows(recs: seq<Record>, i: nat, kept: seq<Record>, names: set<string>, names0: set<string>)
    requires i <= |recs|
    requires kept == FirstListed(recs[..i], names0) && names == names0 - Headers(recs[..i])
    ensures Exact(recs, i, kept, names) == Pick(FirstListed(recs, names0), names0 - Headers(recs))
    decreases |recs| - i
  {
    if i == |recs| {
      assert recs[..i] == recs;
    } else {
      var h := recs[i].header;
      FirstListedStep(recs, i, names0);
      var kept' := if h in names then kept + [recs[i]] else kept;
      assert kept' == FirstListed(recs[..i + 1], names0);
      assert names - {h} == names0 - Headers(recs[..i + 1]);
      if h !in names {
        assert names - {h} == names;
        ExactFollows(recs, i + 1, kept, names, names0);
      } else if names - {h} == {} {
        FirstListedSaturated(recs, i + 1, names0);
      } else {
        ExactFollows(recs, i + 1, kept', names - {h}, names0);
      }
    }
  }

  /** Method 1 writes, in file order, the first record headed by each
      listed name, and leaves exactly the names that head no record. */
  lemma ExactPicksFirstListed(recs: seq<Record>, names: set<string>)
    ensures Exact(recs, 0, [], names) == Pick(FirstListed(recs, names), names - Headers(recs))
  {
    assert recs[..0] == [];
    ExactFollows(recs, 0, [], names, names);
  }

  /** The part of a protein name before its last '_': its genome, in the
      Prodigal naming. */
  function Genome(name: string): string {
    BeforeLast(name, "_")
  }

  /** `method_2`: every record whose genome is listed, in file order. */
  function Prefixed(recs: seq<Record>, names: set<string>): seq<Record> {
    if recs == [] then []
    else
      var last := recs[|recs| - 1];
      Prefixed(recs[..|recs| - 1], names) + (if Genome(last.header) in names then [last] else [])
  }

  /** Method 2 writes a record exactly when its genome is listed. */
  lemma {:induction false} PrefixedExactly(recs: seq<Record>, names: set<string>)
    ensures forall r :: r in Prefixed(recs, names) <==> r in recs && Genome(r.header) in names
  {
    if recs != [] {
      PrefixedExactly(recs[..|recs| - 1], names);
      assert recs == recs[..|recs| - 1] + [recs[|recs| - 1]];
    }
  }

  /** The genomes of the listed proteins (`new` in `method_3`). */
  function Genomes(names: set<string>): set<string> {
    set n | n in names :: Genome(n)
  }

  /** `method_3` as written: a header found in the genome set is written,
      then removed from the protein list, which raises KeyError unless the
      genome name is itself listed. */
  function GenomesAsWritten(recs: seq<Record>, i: nat, kept: seq<Record>, genomes: set<string>, names: set<string>): (r: Result<Pick, Failure>)
    requires i <= |recs|
    ensures r.Err? ==> r.error == KeyError
    decreases |recs| - i
  {
    if i == |recs| then Ok(Pick(kept, names))
    else
      var h := recs[i].header;
      if h in genomes then
        if h !in names then Err(KeyError)
        else
          var left := names - {h};
          if left == {} then Ok(Pick(kept + [recs[i]], {}))
          else GenomesAsWritten(recs, i + 1, kept + [recs[i]], genomes, left)
      else GenomesAsWritten(recs, i + 1, kept, genomes, names)
  }

  /** As written, method 3 on its documented use (a list of Prodigal
      protein names, a file of genomes) fails at the first genome it
      matches: a genome `g` with a listed protein `g_p` raises KeyError. */
  lemma GenomesAsWrittenFails(g: string, p: string, sequence: string, more: seq<Record>)
    requires '_' !in p
    ensures GenomesAsWritten([Record(g, sequence)] + more, 0, [], Genomes({g + "_" + p}), {g + "_" + p}) == Err(KeyError)
  {
    RSplitChar(g, '_', p);
    assert Genome(g + "_" + p) == g;
    assert g in Genomes({g + "_" + p});
    assert g != g + "_" + p by {
      assert |g + "_" + p| > |g|;
    }
  }

  /** Method 3 as the script means it: the genomes of the listed proteins
      are matched exactly as in method 1, so it never fails, writes each
      such genome at most once, and ends when all have been written. */
  function GenomesOf(recs: seq<Record>, names: set<string>): (r: Pick)
    ensures (forall k :: 0 <= k < |r.kept| ==> r.kept[k] in recs && r.kept[k].header in Genomes(names))
    ensures forall j, k :: 0 <= j < k < |r.kept| ==> r.kept[j].header != r.kept[k].header
    ensures |r.kept| == |Genomes(names)| - |r.left|
    ensures r == Pick(FirstListed(recs, Genomes(names)), Genomes(names) - Headers(recs))
  {
    ExactWritesListed(recs, Genomes(names));
    ExactPicksFirstListed(recs, Genomes(names));
    Exact(recs, 0, [], Genomes(names))
  }

  /** `method_4` from record `i` on: an unlisted header is written, a
      listed one is skipped and its name removed. */
  function Exclude(recs: seq<Record>, i: nat, kept: seq<Record>, names: set<string>): (r: Pick)
    requires i <= |recs|
    decreases |recs| - i
  {
    if i == |recs| then Pick(kept, names)
    else if recs[i].header !in names then Exclude(recs, i + 1, kept + [recs[i]], names)
    else Exclude(recs, i + 1, kept, names - {recs[i].header})
  }

  /** The exclusion pass removes from the names exactly the headers it
      meets. */
  lemma {:induction false} ExcludeLeft(recs: seq<Record>, i: nat, kept: seq<Record>, names: set<string>)
    requires i <= |recs|
    ensures Exclude(recs, i, kept, names).left == names - Headers(recs[i..])
    decreases |recs| - i
  {
    if i < |recs| {
      var h := recs[i].header;
      assert recs[i..] == [recs[i]] + recs[i + 1..];
      HeadersCons(recs[i], recs[i + 1..]);
      if h !in names {
        ExcludeLeft(recs, i + 1, kept + [recs[i]], names);
      } else {
        ExcludeLeft(recs, i + 1, kept, names - {h});
      }
    }
  }

  /** Every record the exclusion pass sees is kept or uses up one name. */
  lemma {:induction false} ExcludeCounts(recs: seq<Record>, i: nat, kept: seq<Record>, names: set<string>)
    requires i <= |recs|
    ensures var p := Exclude(recs, i, kept, names);
      |p.kept| - |kept| + (|names| - |p.left|) == |recs| - i
    decreases |recs| - i
  {
    if i < |recs| {
      var h := recs[i].header;
      if h !in names {
        ExcludeCounts(recs, i + 1, kept + [recs[i]], names);
      } else {
        ExcludeCounts(recs, i + 1, kept, names - {h});
        assert |names - {h}| == |names| - 1;
      }
    }
  }

  /** Method 4 leaves exactly the names that head no record, and every
      record is either written or used up one name. */
  lemma ExcludeSplits(recs: seq<Record>, names: set<string>)
    ensures var p := Exclude(recs, 0, [], names);
      p.left == names - Headers(recs) && |p.kept| + (|names| - |p.left|) == |recs|
  {
    ExcludeLeft(recs, 0, [], names);
    ExcludeCounts(recs, 0, [], names);
    assert recs[0..] == recs;
  }

  /** An unlisted record is always written by method 4. */
  lemma {:induction false} ExcludeKeepsUnlisted(recs: seq<Record>, i: nat, kept: seq<Record>, names: set<string>, j: nat)
    requires i <= j < |recs| && recs[j].header !in names
    ensures recs[j] in Exclude(recs, i, kept, names).kept
    decreases |recs| - i
  {
    if i < j {
      var h := recs[i].header;
      if h !in names {
        ExcludeKeepsUnlisted(recs, i + 1, kept + [recs[i]], names, j);
      } else {
        ExcludeKeepsUnlisted(recs, i + 1, kept, names - {h}, j);
      }
    } else {
      ExcludeKeepsKept(recs, i + 1, kept + [recs[i]], names);
    }
  }

  /** What method 4 has written stays written. */
  lemma {:induction false} ExcludeKeepsKept(recs: seq<Record>, i: nat, kept: seq<Record>, names: set<string>)
    requires i <= |recs|
    ensures kept <= Exclude(recs, i, kept, names).kept
    decreases |recs| - i
  {
    if i < |recs| {
      var h := recs[i].header;
      if h !in names {
        ExcludeKeepsKept(recs, i + 1, kept + [recs[i]], names);
      } else {
        ExcludeKeepsKept(recs, i + 1, kept, names - {h});
      }
    }
  }

  // ---------------------------------------------------------------------
  // The run

  /** The `-m` choices. */
  datatype Mode = One | Two | Three | Four

  /** The verbose summary: the names found, the records reported as
      written, and the names unused (not printed by method 2). */
  datatype Report = Report(found: int, written: int, unused: Option<int>)

  /** The summary as printed: except for method 2, the written count is
      the number of names at the start minus the names left. */
  function Summary(mode: Mode, lenNames: int, total: int, left: set<string>): (r: Report)
    ensures r.found == lenNames
    ensures mode != Two <==> r.unused.Some?
    ensures mode != Two ==> r.written + r.unused.value == total && r.unused.value == |left|
    ensures mode == Two ==> r.written == total
  {
    if mode != Two then Report(lenNames, total - |left|, Some(|left|))
    else Report(lenNames, total, None)
  }

  /** What a run leaves: the records written, the output file and the
      summary. */
  datatype Outcome = Outcome(written: seq<Record>, text: string, report: Report)

  /** The chosen method run over the renamed records with the listed
      names, and its summary; method 3 is the corrected one. */
  function Chosen(recs: seq<Record>, names: set<string>, mode: Mode): (o: Outcome)
    ensures o.text == Unparse(o.written)
    ensures mode != Four ==> o.report.written == |o.written|
    ensures mode == Four ==> o.report.written == |recs| - |o.written|
  {
    match mode
    case One =>
      ExactWritesListed(recs, names);
      var p := Exact(recs, 0, [], names);
      Outcome(p.kept, Unparse(p.kept), Summary(One, |names|, |names|, p.left))
    case Two =>
      var k := Prefixed(recs, names);
      Outcome(k, Unparse(k), Summary(Two, |names|, |k|, names))
    case Three =>
      var p := GenomesOf(recs, names);
      Outcome(p.kept, Unparse(p.kept), Summary(Three, |names|, |Genomes(names)|, p.left))
    case Four =>
      ExcludeSplits(recs, names);
      var p := Exclude(recs, 0, [], names);
      Outcome(p.kept, Unparse(p.kept), Summary(Four, |names|, |names|, p.left))
  }

  /** The whole script on the list file `list` and the FASTA file `fasta`;
      method 3 is the corrected one. */
  function Extraction(list: string, fasta: string, mode: Mode, split: Option<Delimiter>, reverse: bool): (r: Result<Outcome, Failure>)
    ensures r.Err? <==> fasta == [] || fasta[0] != '>'
    ensures r.Err? ==> r.error == NameError
    ensures r.Ok? ==> r.value.text == Unparse(r.value.written)
    ensures r.Ok? && mode in {One, Three} ==> r.value.report.written == |r.value.written|
    ensures r.Ok? && mode == Two ==> r.value.report.written == |r.value.written|
    ensures r.Ok? ==> ParseText(fasta).Ok?
    ensures r.Ok? && mode == Four ==> r.value.report.written == |ParseText(fasta).value| - |r.value.written|
  {
    ParseTextFailsIff(fasta);
    match ParseText(fasta)
    case Err(e) => Err(e)
    case Ok(parsed) => Ok(Chosen(Renamed(parsed, split, reverse), Names(list), mode))
  }

  /** The state of a `Methods` object. */
  class Extractor {
    /** `self.names`, shrinking as names are used up. */
    var names: set<string>
    /** `self.total`. */
    var total: int
    /** `self.len_names`. */
    var lenNames: int
    /** The output file. */
    var out: string
    /** The records written to it, in order. */
    var written: seq<Record>

    /** `__init__` up to `get_names`. */
    constructor (list: string)
      ensures names == Names(list) && total == |names| && lenNames == total
      ensures out == "" && written == []
    {
      var listed := Names(list);
      names := listed;
      total := |listed|;
      lenNames := |listed|;
      out := "";
      written := [];
    }

    /** `method_1`. */
    method ExactNames(recs: seq<Record>)
      modifies this`names, this`out, this`written
      ensures var p := Exact(recs, 0, [], old(names));
        written == p.kept && out == Unparse(p.kept) && names == p.left
    {
      out, written := "", [];
      var i := 0;
      while i < |recs|
        invariant 0 <= i <= |recs|
        invariant out == Unparse(written)
        invariant Exact(recs, i, written, names) == Exact(recs, 0, [], old(names))
      {
        var r := recs[i];
        if r.header in names {
          UnparseSnoc(written, r);
          out, written := out + Render(r), written + [r];
          names := names - {r.header};
          if names == {} {
            return;
          }
        }
        i := i + 1;
      }
    }

    /** `method_2`. */
    method GenomeNames(recs: seq<Record>)
      modifies this`total, this`out, this`written
      ensures written == Prefixed(recs, names) && out == Unparse(written) && total == |written|
    {
      out, written, total := "", [], 0;
      var i := 0;
      while i < |recs|
        invariant 0 <= i <= |recs|
        invariant written == Prefixed(recs[..i], names)
        invariant out == Unparse(written) && total == |written|
      {
        assert recs[..i + 1][..i] == recs[..i];
        var r := recs[i];
        if Genome(r.header) in names {
          UnparseSnoc(written, r);
          out, written, total := out + Render(r), written + [r], total + 1;
        }
        i := i + 1;
      }
      assert recs[..i] == recs;
    }

    /** `method_3`, corrected: the genome set is what is used up. */
    method ProteinNames(recs: seq<Record>)
      modifies this`names, this`total, this`out, this`written
      ensures var p := GenomesOf(recs, old(names));
        written == p.kept && out == Unparse(p.kept) && names == p.left && total == |Genomes(old(names))|
    {
      names := Genomes(names);
      total := |names|;
      ExactNames(recs);
    }

    /** `method_4`. */
    method Unlisted(recs: seq<Record>)
      modifies this`names, this`out, this`written
      ensures var p := Exclude(recs, 0, [], old(names));
        written == p.kept && out == Unparse(p.kept) && names == p.left
    {
      out, written := "", [];
      var i := 0;
      while i < |recs|
        invariant 0 <= i <= |recs|
        invariant out == Unparse(written)
        invariant Exclude(recs, i, written, names) == Exclude(recs, 0, [], old(names))
      {
        var r := recs[i];
        if r.header !in names {
          UnparseSnoc(written, r);
          out, written := out + Render(r), written + [r];
        } else {
          names := names - {r.header};
        }
        i := i + 1;
      }
    }

    /** The dispatch on `-m`, from a fresh object: the records written, the
        output and the summary are those of `Chosen`. */
    method Apply(recs: seq<Record>, mode: Mode)
      requires lenNames == |names| && total == |names|
      modifies this`names, this`total, this`out, this`written
      ensures Outcome(written, out, Summary(mode, lenNames, total, names)) == Chosen(recs, old(names), mode)
    {
      match mode {
        case One => ExactNames(recs);
        case Two => GenomeNames(recs);
        case Three => ProteinNames(recs);
        case Four => Unlisted(recs);
      }
    }
  }

  /** The script's main path: read the names, parse the FASTA file, run the
      chosen method and report. */
  method Run(list: string, fasta: string, mode: Mode, split: Option<Delimiter>, reverse: bool) returns (r: Result<Outcome, Failure>)
    ensures r == Extraction(list, fasta, mode, split, reverse)
  {
    var e := new Extractor(list);
    var parsed := ParseFasta(Lines(fasta));
    if parsed.Err? {
      return Err(parsed.error);
    }
    var recs := Renamed(parsed.value, split, reverse);
    e.Apply(recs, mode);
    r := Ok(Outcome(e.written, e.out, Summary(mode, e.lenNames, e.total, e.names)));
  }
}
