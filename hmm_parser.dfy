/** scripts/hmm_parser.py: the stand-alone tblout parser. It names its two
    output files, writes the unparsed table (a header row, then one row per
    data line of the hmmsearch table), and keeps the best row per protein
    by score (descending) or by e-value (ascending). Whether a file exists
    is the parameter `present`; float parsing is the parameter `num`. */
module HmmParser {
  import opened Wrappers
  import opened Strings
  import opened Fasta
  import opened Tables
  import HmmParse

  /** `-m`, which the argument parser limits to `score` and `evalue`. */
  datatype Mode = Score | Evalue

  function ModeName(m: Mode): string {
    match m
    case Score => "score"
    case Evalue => "evalue"
  }

  /** `self.asc`: scores sort descending, e-values ascending. */
  function Ascending(m: Mode): bool {
    m == Evalue
  }

  /** The column the mode sorts on, as pandas reads it. */
  function SortKey(m: Mode, num: string -> real): HmmParse.Hit -> real {
    match m
    case Score => (h: HmmParse.Hit) => num(h.score)
    case Evalue => (h: HmmParse.Hit) => num(h.evalue)
  }

  /** The parsed output and the unparsed full table. */
  datatype Paths = Paths(output: string, full: string)

  const FullSuffix: string := ".unparsed-full.tsv"

  /** The output names of `__init__`. Without `-o` the default output must
      not exist; with `-o` the derived full table must not exist. */
  function Naming(input: string, o: string, m: Mode, present: string -> bool): (r: Result<Paths, Failure>)
    ensures o == "" ==> (r.Err? <==> present(BeforeLast(input, ".") + ".parsed-" + ModeName(m) + ".tsv"))
    ensures o != "" ==> (r.Err? <==> present(BeforeLast(o, ".") + FullSuffix))
    ensures r.Err? ==> r.error.Exit?
    ensures r.Ok? && o == "" ==>
      r.value.output == BeforeLast(input, ".") + ".parsed-" + ModeName(m) + ".tsv" &&
      r.value.full == BeforeLast(input, ".") + FullSuffix
    ensures r.Ok? && o != "" ==> r.value == Paths(o, BeforeLast(o, ".") + FullSuffix)
  {
    if o == "" then
      var stem := BeforeLast(input, ".");
      var output := stem + ".parsed-" + ModeName(m) + ".tsv";
      if present(output) then Err(Exit("Error: output file already exists. Exiting."))
      else Ok(Paths(output, stem + FullSuffix))
    else
      var full := BeforeLast(o, ".") + FullSuffix;
      if present(full) then Err(Exit("Error: output temp file file already exists. Try a different -o. Exiting."))
      else Ok(Paths(o, full))
  }

  /** The unparsed table never overwrites the output: the derived name
      differs from the default output at the character after the stem, and
      from a given `-o`, whose part after its last `.` holds no `.`. */
  lemma NamingDistinct(input: string, o: string, m: Mode, present: string -> bool)
    requires Naming(input, o, m, present).Ok?
    ensures Naming(input, o, m, present).value.output != Naming(input, o, m, present).value.full
  {
    if o == "" {
      DefaultNamesDiffer(BeforeLast(input, "."), ModeName(m));
    } else {
      GivenNameDiffers(o);
    }
  }

  /** The default names part at the character after the stem: 'p' against 'u'. */
  lemma DefaultNamesDiffer(stem: string, mode: string)
    ensures stem + ".parsed-" + mode + ".tsv" != stem + FullSuffix
  {
    var output := stem + ".parsed-" + mode + ".tsv";
    var full := stem + FullSuffix;
    assert output[|stem| + 1] == 'p';
    assert full[|stem| + 1] == 'u';
  }

  /** The full table derived from `-o` is never `-o` itself. */
  lemma GivenNameDiffers(o: string)
    ensures BeforeLast(o, ".") + FullSuffix != o
  {
    var full := BeforeLast(o, ".") + FullSuffix;
    var r := RSplitOnce(o, ".");
    if |r| == 2 {
      var at := |r[0]| + 1 + 13;
      if |full| == |o| {
        assert full[at] == '.';
        assert !OccursAt(o, ".", at);
        assert o[at..at + 1] == [o[at]];
      }
    }
  }

  const Header: string := "protein\taccession\tevalue\tscore\n"

  function RowTexts(hits: seq<HmmParse.Hit>): seq<string> {
    seq(|hits|, i requires 0 <= i < |hits| => HmmParse.RowText(hits[i]))
  }

  /** The unparsed table as written: the header row, then one row per hit. */
  function FullText(hits: seq<HmmParse.Hit>): string {
    Header + Concat(RowTexts(hits))
  }

  /** Hits whose fields hold no tab or newline. */
  ghost predicate CleanHits(hits: seq<HmmParse.Hit>) {
    forall i, f :: 0 <= i < |hits| && f in [hits[i].protein, hits[i].accession, hits[i].evalue, hits[i].score] ==>
      '\t' !in f && '\n' !in f
  }

  /** Read back line by line, the unparsed table is its header row followed
      by one row per hit, in order, and each row splits into the hit's four
      fields. */
  lemma FullTextLines(hits: seq<HmmParse.Hit>)
    requires CleanHits(hits)
    ensures Lines(FullText(hits)) == [Header] + RowTexts(hits)
    ensures forall i :: 0 <= i < |hits| ==>
      Split(RowTexts(hits)[i][..|RowTexts(hits)[i]| - 1], '\t') ==
        [hits[i].protein, hits[i].accession, hits[i].evalue, hits[i].score]
  {
    var rows := RowTexts(hits);
    forall i | 0 <= i < |hits|
      ensures IsLine(rows[i]) && EndsInNewline(rows[i])
      ensures Split(rows[i][..|rows[i]| - 1], '\t') == [hits[i].protein, hits[i].accession, hits[i].evalue, hits[i].score]
    {
      var h := hits[i];
      var fields := [h.protein, h.accession, h.evalue, h.score];
      assert rows[i][..|rows[i]| - 1] == Join(fields, "\t");
      JoinAvoids(fields, "\t", '\n');
      HmmParse.RowFields(h);
    }
    var ls := [Header] + rows;
    assert IsLine(Header);
    assert FileLines(ls);
    LinesOfConcat(ls);
    ConcatFront(Header, rows);
  }

  /** The accession is token 3 with `--pfam` and token 2 otherwise. */
  function Field(pfam: bool): (f: nat)
    ensures f <= 5
  {
    if pfam then 3 else 2
  }

  /** The kept rows for one input, with `SortBy` standing for the order pandas chose. */
  function Parsed(text: string, pfam: bool, m: Mode, num: string -> real): Result<seq<HmmParse.Hit>, Failure> {
    match HmmParse.Table(text, Field(pfam))
    case Err(e) => Err(e)
    case Ok(hits) => Ok(DropDuplicates(SortBy(hits, SortKey(m, num), Ascending(m)), HmmParse.Protein))
  }

  /** For any order pandas may choose, the output keeps exactly one row per
      protein of the table, and that row has the highest score (mode
      `score`) or the lowest e-value (mode `evalue`) among the protein's rows. */
  lemma BestRows(hits: seq<HmmParse.Hit>, sorted: seq<HmmParse.Hit>, m: Mode, num: string -> real)
    requires multiset(sorted) == multiset(hits) && SortedBy(sorted, SortKey(m, num), Ascending(m))
    ensures Keys(DropDuplicates(sorted, HmmParse.Protein), HmmParse.Protein) == Keys(hits, HmmParse.Protein)
    ensures DistinctKeys(DropDuplicates(sorted, HmmParse.Protein), HmmParse.Protein)
    ensures forall i :: 0 <= i < |DropDuplicates(sorted, HmmParse.Protein)| ==>
      DropDuplicates(sorted, HmmParse.Protein)[i] in hits
    ensures forall i, j ::
      (0 <= i < |DropDuplicates(sorted, HmmParse.Protein)| && 0 <= j < |hits| &&
       hits[j].protein == DropDuplicates(sorted, HmmParse.Protein)[i].protein) ==>
        (m == Score ==> num(hits[j].score) <= num(DropDuplicates(sorted, HmmParse.Protein)[i].score)) &&
        (m == Evalue ==> num(DropDuplicates(sorted, HmmParse.Protein)[i].evalue) <= num(hits[j].evalue))
  {
    BestPerKey(hits, sorted, HmmParse.Protein, SortKey(m, num), Ascending(m));
  }

  /** The write loop of `main`/`pfam`: the header row, then one row per hit. */
  method WriteFull(hits: seq<HmmParse.Hit>) returns (text: string)
    ensures text == FullText(hits)
  {
    text := Header;
    var i := 0;
    while i < |hits|
      invariant 0 <= i <= |hits|
      invariant text == FullText(hits[..i])
    {
      assert RowTexts(hits[..i + 1])[..i] == RowTexts(hits[..i]);
      text := text + HmmParse.RowText(hits[i]);
      i := i + 1;
    }
    assert hits[..i] == hits;
  }

  /** What one run produces: the file names, the unparsed table and the kept rows. */
  datatype Outputs = Outputs(paths: Paths, full: string, parsed: seq<HmmParse.Hit>)

  /** `HMMparse(i, o, m, pfam)`: naming first, then the table. */
  function Outcome(input: string, o: string, m: Mode, pfam: bool, text: string,
                   present: string -> bool, num: string -> real): Result<Outputs, Failure>
  {
    match Naming(input, o, m, present)
    case Err(e) => Err(e)
    case Ok(paths) =>
      match HmmParse.Table(text, Field(pfam))
      case Err(e) => Err(e)
      case Ok(hits) => Ok(Outputs(paths, FullText(hits), Parsed(text, pfam, m, num).value))
  }

  method Run(input: string, o: string, m: Mode, pfam: bool, text: string,
             present: string -> bool, num: string -> real) returns (r: Result<Outputs, Failure>)
    ensures r == Outcome(input, o, m, pfam, text, present, num)
  {
    var paths := Naming(input, o, m, present);
    if paths.Err? {
      return Err(paths.error);
    }
    var hits := HmmParse.Tabulate(text, Field(pfam));
    if hits.Err? {
      return Err(hits.error);
    }
    var full := WriteFull(hits.value);
    var kept := DropDuplicates(SortBy(hits.value, SortKey(m, num), Ascending(m)), HmmParse.Protein);
    return Ok(Outputs(paths.value, full, kept));
  }
}
