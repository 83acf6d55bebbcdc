/** hmm_parse.py: turns hmmsearch `--tblout` output for the KEGG, Pfam and
    VOG databases into a table with the best (lowest e-value) hit per
    protein. The three methods `kegg`, `pfam` and `vog` differ only in the
    database name and in which token holds the accession, so they are one
    operation here, parameterised by the database. */
module HmmParse {
  import opened Wrappers
  import opened Strings
  import opened Fasta
  import opened Tables

  datatype Database = KEGG | Pfam | VOG

  /** One row of the intermediate `.hmmtbl` file, as text. */
  datatype Hit = Hit(protein: string, accession: string, evalue: string, score: string)

  /** The accession is token 3 in Pfam's table layout and token 2 otherwise. */
  function AccessionField(db: Database): (field: nat)
    ensures field <= 5
  {
    if db == Pfam then 3 else 2
  }

  /** A line whose first character is '#' ends the data. */
  predicate IsComment(line: string) {
    |line| > 0 && line[0] == '#'
  }

  /** The lines the loop handles: from the start of `body` up to the first comment line. */
  function DataLines(body: seq<string>): seq<string> {
    if body == [] || IsComment(body[0]) then [] else [body[0]] + DataLines(body[1..])
  }

  /** The data lines are exactly the longest comment-free prefix. */
  lemma {:induction false} DataLinesIsPrefix(body: seq<string>, k: nat)
    requires k <= |body|
    requires forall j :: 0 <= j < k ==> !IsComment(body[j])
    requires k == |body| || IsComment(body[k])
    ensures DataLines(body) == body[..k]
  {
    if k > 0 {
      DataLinesIsPrefix(body[1..], k - 1);
      assert body[..k] == [body[0]] + body[1..][..k - 1];
    }
  }

  /** A non-empty piece of a line without spaces. */
  predicate IsToken(f: string) {
    f != [] && ' ' !in f
  }

  /** One data line: protein, accession (token `field`), e-value and score
      tokens, or IndexError when the line has fewer than six tokens. */
  function ParseLine(line: string, field: nat): (r: Result<Hit, Failure>)
    requires field <= 5
    ensures r.Err? <==> |Tokens(line)| < 6
    ensures r.Err? ==> r.error == IndexError
  {
    var t := Tokens(line);
    if |t| < 6 then Err(IndexError)
    else Ok(Hit(t[0], t[field], t[4], t[5]))
  }

  /** Every field of a parsed row is one space-free token of the line. */
  lemma ParseLineTokens(line: string, field: nat)
    requires field <= 5 && ParseLine(line, field).Ok?
    ensures IsToken(ParseLine(line, field).value.protein) && IsToken(ParseLine(line, field).value.accession)
    ensures IsToken(ParseLine(line, field).value.evalue) && IsToken(ParseLine(line, field).value.score)
  {
    var t := Tokens(line);
    assert t[0] != [] && ' ' !in t[0];
    assert t[field] != [] && ' ' !in t[field];
  }

  /** The rows written for `lines`, in order, or the first line's error. */
  function ParseLines(lines: seq<string>, field: nat): Result<seq<Hit>, Failure>
    requires field <= 5
  {
    if lines == [] then Ok([])
    else
      match ParseLines(lines[..|lines| - 1], field)
      case Err(e) => Err(e)
      case Ok(hits) =>
        match ParseLine(lines[|lines| - 1], field)
        case Err(e) => Err(e)
        case Ok(h) => Ok(hits + [h])
  }

  /** The rows are written exactly when every data line has six tokens;
      otherwise IndexError. */
  lemma {:induction false} ParseLinesFails(lines: seq<string>, field: nat)
    requires field <= 5
    ensures ParseLines(lines, field).Ok? <==> forall i :: 0 <= i < |lines| ==> |Tokens(lines[i])| >= 6
    ensures ParseLines(lines, field).Err? ==> ParseLines(lines, field).error == IndexError
  {
    if lines != [] {
      var p := lines[..|lines| - 1];
      ParseLinesFails(p, field);
      AllSnoc(lines);
    }
  }

  /** Every line has at least six tokens. */
  predicate AllSix(lines: seq<string>) {
    forall i :: 0 <= i < |lines| ==> |Tokens(lines[i])| >= 6
  }

  /** Every line has six tokens when the lines before the last do and the
      last does. */
  lemma AllSnoc(lines: seq<string>)
    requires lines != []
    ensures AllSix(lines) <==> AllSix(lines[..|lines| - 1]) && |Tokens(lines[|lines| - 1])| >= 6
  {
    assert forall i :: 0 <= i < |lines| - 1 ==> lines[..|lines| - 1][i] == lines[i];
  }

  /** One row per data line, in input order. */
  lemma {:induction false} ParseLinesRows(lines: seq<string>, field: nat)
    requires field <= 5 && ParseLines(lines, field).Ok?
    ensures |ParseLines(lines, field).value| == |lines|
    ensures forall i :: 0 <= i < |lines| ==> ParseLine(lines[i], field) == Ok(ParseLines(lines, field).value[i])
  {
    if lines != [] {
      var p := lines[..|lines| - 1];
      ParseLinesRows(p, field);
      var hits := ParseLines(p, field).value;
      var r := ParseLines(lines, field).value;
      assert r == hits + [ParseLine(lines[|lines| - 1], field).value];
      forall i | 0 <= i < |lines| ensures ParseLine(lines[i], field) == Ok(r[i]) {
        if i < |p| {
          assert p[i] == lines[i];
        }
      }
    }
  }

  /** Once a prefix fails, every longer run of lines fails the same way. */
  lemma {:induction false} ParseLinesFailsOn(p: seq<string>, lines: seq<string>, field: nat)
    requires field <= 5 && p <= lines && ParseLines(p, field).Err?
    ensures ParseLines(lines, field) == ParseLines(p, field)
    decreases |lines|
  {
    if |lines| > |p| {
      assert p <= lines[..|lines| - 1];
      ParseLinesFailsOn(p, lines[..|lines| - 1], field);
    } else {
      assert p == lines;
    }
  }

  /** The `.hmmtbl` rows of a raw table: StopIteration when the file has
      fewer than three lines, the rows of its data lines otherwise. */
  function Table(text: string, field: nat): Result<seq<Hit>, Failure>
    requires field <= 5
  {
    var lines := Lines(text);
    if |lines| < 3 then Err(StopIteration) else ParseLines(DataLines(lines[3..]), field)
  }

  /** The loop of `kegg`/`pfam`/`vog`: skip three lines, then write one
      row per line until a comment line. */
  method Tabulate(text: string, field: nat) returns (r: Result<seq<Hit>, Failure>)
    requires field <= 5
    ensures r == Table(text, field)
  {
    var lines := Lines(text);
    if |lines| < 3 {
      return Err(StopIteration);
    }
    r := TabulateBody(lines[3..], field);
  }

  /** `for line in f: if line[0] == '#': break ...` over the lines after the preamble. */
  method TabulateBody(body: seq<string>, field: nat) returns (r: Result<seq<Hit>, Failure>)
    requires field <= 5
    ensures r == ParseLines(DataLines(body), field)
  {
    var hits: seq<Hit> := [];
    var i := 0;
    while i < |body|
      invariant i <= |body|
      invariant forall j :: 0 <= j < i ==> !IsComment(body[j])
      invariant ParseLines(body[..i], field) == Ok(hits)
    {
      if IsComment(body[i]) {
        break;
      }
      var h := ParseLine(body[i], field);
      ReadLine(body, i, field, hits);
      if h.Err? {
        return Err(h.error);
      }
      hits := hits + [h.value];
      i := i + 1;
    }
    DataLinesIsPrefix(body, i);
    r := Ok(hits);
  }

  /** One data line read after the rows `hits` of the lines before it: its
      error is the table's, else its row follows. */
  lemma ReadLine(body: seq<string>, i: nat, field: nat, hits: seq<Hit>)
    requires field <= 5 && i < |body| && !IsComment(body[i])
    requires forall j :: 0 <= j < i ==> !IsComment(body[j])
    requires ParseLines(body[..i], field) == Ok(hits)
    ensures forall j :: 0 <= j < i + 1 ==> !IsComment(body[j])
    ensures ParseLine(body[i], field).Err? ==> ParseLines(DataLines(body), field) == Err(ParseLine(body[i], field).error)
    ensures ParseLine(body[i], field).Ok? ==> ParseLines(body[..i + 1], field) == Ok(hits + [ParseLine(body[i], field).value])
  {
    Extend(body, i, field);
    forall j | 0 <= j < i + 1 ensures !IsComment(body[j]) {
      if j < i {
        assert !IsComment(body[j]);
      }
    }
    if ParseLine(body[i], field).Err? {
      FailsAt(body, i + 1, field);
    }
  }

  /** A failing line among the first data lines fails the whole table. */
  lemma FailsAt(body: seq<string>, k: nat, field: nat)
    requires field <= 5 && k <= |body|
    requires forall j :: 0 <= j < k ==> !IsComment(body[j])
    requires ParseLines(body[..k], field).Err?
    ensures ParseLines(DataLines(body), field) == ParseLines(body[..k], field)
  {
    DataLinesIsPrefixOrLonger(body, k);
    ParseLinesFailsOn(body[..k], DataLines(body), field);
  }

  /** One more line read: its row follows the rows before it, or its error stops them. */
  lemma Extend(body: seq<string>, i: nat, field: nat)
    requires field <= 5 && i < |body| && ParseLines(body[..i], field).Ok?
    ensures ParseLine(body[i], field).Err? ==> ParseLines(body[..i + 1], field) == Err(ParseLine(body[i], field).error)
    ensures ParseLine(body[i], field).Ok? ==>
      ParseLines(body[..i + 1], field) == Ok(ParseLines(body[..i], field).value + [ParseLine(body[i], field).value])
  {
    assert body[..i + 1][..i] == body[..i];
  }

  /** When the first `k` lines are not comments, they begin the data lines. */
  lemma {:induction false} DataLinesIsPrefixOrLonger(body: seq<string>, k: nat)
    requires k <= |body|
    requires forall j :: 0 <= j < k ==> !IsComment(body[j])
    ensures body[..k] <= DataLines(body)
  {
    if k > 0 {
      DataLinesIsPrefixOrLonger(body[1..], k - 1);
      assert body[..k] == [body[0]] + body[1..][..k - 1];
    }
  }

  /** A row of the `.hmmtbl` file: four tab-separated fields, no header row. */
  function RowText(h: Hit): string {
    Join([h.protein, h.accession, h.evalue, h.score], "\t") + "\n"
  }

  /** Splitting a written row on tabs gives back its four fields when they
      hold no tab. */
  lemma RowFields(h: Hit)
    requires forall f :: f in [h.protein, h.accession, h.evalue, h.score] ==> '\t' !in f
    ensures Split(RowText(h)[..|RowText(h)| - 1], '\t') == [h.protein, h.accession, h.evalue, h.score]
  {
    var fields := [h.protein, h.accession, h.evalue, h.score];
    assert RowText(h)[..|RowText(h)| - 1] == Join(fields, "\t");
    SplitJoin(fields, '\t');
  }

  function Protein(h: Hit): string {
    h.protein
  }

  /** The e-value column as pandas reads it; `num` stands for float parsing. */
  function Evalue(num: string -> real): Hit -> real {
    (h: Hit) => num(h.evalue)
  }

  /** `sort_values(by='evalue', ascending=True)` then
      `drop_duplicates(subset='protein', keep='first')`, with the sort order
      `sorted` pandas chose among equal e-values. */
  lemma BestHits(hits: seq<Hit>, sorted: seq<Hit>, num: string -> real)
    requires multiset(sorted) == multiset(hits) && SortedBy(sorted, Evalue(num), true)
    ensures Keys(DropDuplicates(sorted, Protein), Protein) == Keys(hits, Protein)
    ensures DistinctKeys(DropDuplicates(sorted, Protein), Protein)
    ensures forall i :: 0 <= i < |DropDuplicates(sorted, Protein)| ==> DropDuplicates(sorted, Protein)[i] in hits
    ensures forall i, j ::
      (0 <= i < |DropDuplicates(sorted, Protein)| && 0 <= j < |hits| &&
       hits[j].protein == DropDuplicates(sorted, Protein)[i].protein) ==>
        num(DropDuplicates(sorted, Protein)[i].evalue) <= num(hits[j].evalue)
    ensures SortedBy(DropDuplicates(sorted, Protein), Evalue(num), true)
  {
    BestPerKey(hits, sorted, Protein, Evalue(num), true);
  }

  /** The parsed table for one database, with the insertion sort standing
      for pandas' order. */
  function Parsed(text: string, db: Database, num: string -> real): Result<seq<Hit>, Failure> {
    match Table(text, AccessionField(db))
    case Err(e) => Err(e)
    case Ok(hits) => Ok(DropDuplicates(SortBy(hits, Evalue(num), true), Protein))
  }

  /** `HMMparse(base, folder)`: the three databases in turn; the first
      exception stops the rest. */
  method Run(kegg: string, pfam: string, vog: string, num: string -> real)
    returns (r: Result<(seq<Hit>, seq<Hit>, seq<Hit>), Failure>)
    ensures Parsed(kegg, KEGG, num).Err? ==> r == Err(Parsed(kegg, KEGG, num).error)
    ensures Parsed(kegg, KEGG, num).Ok? && Parsed(pfam, Pfam, num).Err? ==> r == Err(Parsed(pfam, Pfam, num).error)
    ensures Parsed(kegg, KEGG, num).Ok? && Parsed(pfam, Pfam, num).Ok? && Parsed(vog, VOG, num).Err? ==>
      r == Err(Parsed(vog, VOG, num).error)
    ensures r.Ok? <==> Parsed(kegg, KEGG, num).Ok? && Parsed(pfam, Pfam, num).Ok? && Parsed(vog, VOG, num).Ok?
    ensures r.Ok? ==> r.value == (Parsed(kegg, KEGG, num).value, Parsed(pfam, Pfam, num).value, Parsed(vog, VOG, num).value)
  {
    var k := Tabulate(kegg, AccessionField(KEGG));
    if k.Err? {
      return Err(k.error);
    }
    var kp := DropDuplicates(SortBy(k.value, Evalue(num), true), Protein);
    var p := Tabulate(pfam, AccessionField(Pfam));
    if p.Err? {
      return Err(p.error);
    }
    var pp := DropDuplicates(SortBy(p.value, Evalue(num), true), Protein);
    var v := Tabulate(vog, AccessionField(VOG));
    if v.Err? {
      return Err(v.error);
    }
    var vp := DropDuplicates(SortBy(v.value, Evalue(num), true), Protein);
    return Ok((kp, pp, vp));
  }
}
