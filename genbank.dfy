/** scripts/genbank_to_fasta.py: the `Convert` class, which reads a GenBank
    file one `readline` at a time and writes the genomes (.fasta), proteins
    (.faa), genes (.ffn), tRNAs (.trna), rRNAs (.rrna), a GFF table (.gff)
    and the genome lengths (.len).

    The file is the sequence of its lines; the cursor `pos` is the number of
    lines already read, and `readline` past the end yields "". Each loop of
    the script is specified by a recursive function over the cursor and
    implemented by a method of `Converter` whose `while` loop is proved
    against it. Every 1000-iteration guard of the script is a bound on a
    counter here, and a run that would never end (end of file inside the
    feature table) is the outcome `Loops`. */
module GenBank {
  import opened Wrappers
  import opened Strings
  import opened Numbers
  import Fasta
  import opened GenBankFormat

  // ---------------------------------------------------------------------
  // Reading lines

  /** `self.f.readline()` at cursor `pos`: the line, or "" past the end. */
  function Line(lines: seq<string>, pos: nat): string {
    if pos < |lines| then lines[pos] else ""
  }

  /** The cursor after one `readline`. */
  function After(lines: seq<string>, pos: nat): (p: nat)
    ensures p >= pos
    ensures pos < |lines| ==> p == pos + 1
  {
    if pos < |lines| then pos + 1 else pos
  }

  /** The file as `self.f.readline().strip()` reads it: every line stripped
      of surrounding whitespace (and "" past the end, as `"".strip()`). The
      loops over qualifiers, features and the ORIGIN block read this view. */
  function StripAll(lines: seq<string>): (view: seq<string>)
    ensures |view| == |lines|
    ensures forall i :: 0 <= i < |lines| ==> view[i] == Strip(lines[i], Whitespace)
  {
    if lines == [] then [] else [Strip(lines[0], Whitespace)] + StripAll(lines[1..])
  }

  /** A qualifier value read so far, the cursor after it and the loop's counter. */
  datatype Read = Read(value: string, pos: nat, buffer: nat)

  /** The continuation loop of a quoted qualifier: each stripped line is
      appended until one ends in '"', whose text before the quote closes the
      value. An empty line fails at `line[-1]`; more than 1000 lines stop
      with `msg`. */
  function Continue(view: seq<string>, pos: nat, acc: string, buffer: nat, msg: string): (r: Result<Read, Failure>)
    ensures r.Ok? ==> r.value.pos > pos
    ensures r.Err? ==> r.error == IndexError || r.error == Exit(msg)
    decreases 1001 - buffer
  {
    var l := Line(view, pos);
    var p := After(view, pos);
    if l == [] then Err(IndexError)
    else if l[|l| - 1] == '"' then Ok(Read(acc + l[..|l| - 1], p, buffer + 1))
    else if buffer + 1 > 1000 then Err(Exit(msg))
    else Continue(view, p, acc + l, buffer + 1, msg)
  }

  /** Whether a quoted qualifier closes on its own line: `line[skip:][-1] == '"'`. */
  predicate ClosesAt(line: string, skip: nat) {
    var temp := Slice(line, skip, |line|);
    temp != [] && temp[|temp| - 1] == '"'
  }

  /** A quoted qualifier whose value starts at `line[skip:]`: closed on that
      line, or continued on the following ones. */
  function Quoted(view: seq<string>, pos: nat, line: string, skip: nat, acc: string, buffer: nat, msg: string): (r: Result<Read, Failure>)
    ensures r.Ok? ==> r.value.pos >= pos
    ensures ClosesAt(line, skip) ==> r == Ok(Read(acc + Slice(line, skip, -1), pos, buffer))
  {
    var temp := Slice(line, skip, |line|);
    if temp == [] then Err(IndexError)
    else if temp[|temp| - 1] == '"' then Ok(Read(acc + Slice(line, skip, -1), pos, buffer))
    else Continue(view, pos, acc + temp, buffer, msg)
  }

  /** A stripped line that does not close a quoted value. */
  predicate Unclosed(l: string) {
    l != [] && l[|l| - 1] != '"'
  }

  /** A qualifier continued over the lines `pos .. pos + k`, with its quote
      at the end of the last of them, reads as the concatenation of those
      stripped lines without the quote: line breaks are not kept. */
  lemma {:induction false} ContinueJoins(view: seq<string>, pos: nat, acc: string, k: nat, buffer: nat, msg: string)
    requires pos + k < |view| && buffer + k <= 1000
    requires forall j :: pos <= j < pos + k ==> Unclosed(view[j])
    requires view[pos + k] != [] && !Unclosed(view[pos + k])
    ensures Continue(view, pos, acc, buffer, msg) ==
      Ok(Read(acc + Concat(view[pos..pos + k]) + view[pos + k][..|view[pos + k]| - 1], pos + k + 1, buffer + k + 1))
    decreases k
  {
    if k == 0 {
      ContinueCloses(view, pos, acc, buffer, msg);
      assert view[pos..pos] == [];
      assert acc + Concat(view[pos..pos]) == acc;
    } else {
      var last := view[pos + k][..|view[pos + k]| - 1];
      var c1 := acc + view[pos];
      var rest := Concat(view[pos + 1..pos + k]);
      ContinueStep(view, pos, acc, buffer, msg);
      var p, n := pos + 1, k - 1;
      assert p + n == pos + k;
      assert forall j :: p <= j < p + n ==> Unclosed(view[j]);
      ContinueJoins(view, p, c1, n, buffer + 1, msg);
      assert Continue(view, pos + 1, c1, buffer + 1, msg) == Ok(Read(c1 + rest + last, pos + k + 1, buffer + k + 1));
      ConcatSlice(view, pos, k, acc);
    }
  }

  /** A line that closes the quote ends the continuation with its text minus the quote. */
  lemma ContinueCloses(view: seq<string>, pos: nat, acc: string, buffer: nat, msg: string)
    requires pos < |view| && view[pos] != [] && !Unclosed(view[pos])
    ensures Continue(view, pos, acc, buffer, msg) == Ok(Read(acc + view[pos][..|view[pos]| - 1], pos + 1, buffer + 1))
  {
  }

  /** A line that does not close the quote is added whole and the loop goes on. */
  lemma ContinueStep(view: seq<string>, pos: nat, acc: string, buffer: nat, msg: string)
    requires pos < |view| && Unclosed(view[pos]) && buffer + 1 <= 1000
    ensures Continue(view, pos, acc, buffer, msg) == Continue(view, pos + 1, acc + view[pos], buffer + 1, msg)
  {
  }

  /** Adding the first line of a run of lines, then the rest, adds the run. */
  lemma ConcatSlice(view: seq<string>, pos: nat, k: nat, acc: string)
    requires 0 < k && pos + k <= |view|
    ensures acc + view[pos] + Concat(view[pos + 1..pos + k]) == acc + Concat(view[pos..pos + k])
  {
    assert view[pos..pos + k] == [view[pos]] + view[pos + 1..pos + k];
    Fasta.ConcatFront(view[pos], view[pos + 1..pos + k]);
  }

  /** A qualifier line `key + v + '"'` closes on its own line with value `v`. */
  lemma QualifierValue(key: string, v: string)
    ensures Slice(key + v + "\"", |key|, |key + v + "\""|) == v + "\""
    ensures Slice(key + v + "\"", |key|, -1) == v
    ensures ClosesAt(key + v + "\"", |key|)
  {
    var l := key + v + "\"";
    assert l[|key|..] == v + "\"";
    assert l[|key|..|l| - 1] == v;
  }

  // ---------------------------------------------------------------------
  // Features

  /** A feature as the script keeps it: `(name, product, loc)`. */
  datatype Feature = Feature(name: string, product: string, loc: Loc)

  datatype Kind = TRna | RRna

  function KindName(kind: Kind): string {
    match kind
    case TRna => "tRNA"
    case RRna => "rRNA"
  }

  /** The name of an RNA without `/locus_tag`: `{genome}_tRNA_{n}` or `{genome}_rRNA_{n}`. */
  function RnaName(genome: string, kind: Kind, count: int): string {
    genome + "_" + KindName(kind) + "_" + IntToString(count)
  }

  /** A feature and the cursor after it. */
  datatype Found = Found(feature: Feature, pos: nat)

  /** The loop of `tRNA_line`/`rRNA_line`: `/locus_tag` names the feature,
      `/product` completes it; more than 1000 lines without a product stop. */
  function RnaLoop(view: seq<string>, pos: nat, kind: Kind, genome: string, count: int, loc: Loc,
                   name: Option<string>, buffer: nat): (r: Result<Found, Failure>)
    ensures r.Ok? ==> r.value.pos > pos && r.value.feature.loc == loc
    decreases 1001 - buffer
  {
    var l := Line(view, pos);
    var p := After(view, pos);
    if "/locus_tag" <= l then
      if buffer + 1 > 1000 then Err(Exit("failed to parse " + KindName(kind) + " entry"))
      else RnaLoop(view, p, kind, genome, count, loc, Some(Slice(l, 12, -1)), buffer + 1)
    else if "/product" <= l then
      match Quoted(view, p, l, 10, "", 0, "failed to parse " + KindName(kind) + " product name")
      case Err(e) => Err(e)
      case Ok(rd) =>
        var nm := if name.Some? then name.value else RnaName(genome, kind, count);
        Ok(Found(Feature(nm, Replace(rd.value, "\n", ""), loc), rd.pos))
    else if buffer + 1 > 1000 then Err(Exit("failed to parse " + KindName(kind) + " entry"))
    else RnaLoop(view, p, kind, genome, count, loc, name, buffer + 1)
  }

  /** A one-line `/product` completes the RNA, named by the `/locus_tag`
      read before it or else by the generated name. */
  lemma RnaProduct(view: seq<string>, pos: nat, kind: Kind, genome: string, count: int, loc: Loc,
                   name: Option<string>, buffer: nat, v: string)
    requires Line(view, pos) == "/product=\"" + v + "\""
    requires '\n' !in v
    ensures RnaLoop(view, pos, kind, genome, count, loc, name, buffer) ==
      Ok(Found(Feature(if name.Some? then name.value else RnaName(genome, kind, count), v, loc), After(view, pos)))
  {
    var l := Line(view, pos);
    QualifierValue("/product=\"", v);
    assert "/product" <= l;
    assert !("/locus_tag" <= l) by { assert l[1] != "/locus_tag"[1]; }
    assert "" + v == v;
    ReplaceAbsentChar(v, '\n', "");
  }

  /** A `/locus_tag="t"` line right before the product names the RNA `t`. */
  lemma RnaTagged(view: seq<string>, pos: nat, kind: Kind, genome: string, count: int, loc: Loc, t: string, v: string)
    requires pos + 1 < |view|
    requires Line(view, pos) == "/locus_tag=\"" + t + "\""
    requires Line(view, pos + 1) == "/product=\"" + v + "\""
    requires '\n' !in v
    ensures RnaLoop(view, pos, kind, genome, count, loc, None, 0) == Ok(Found(Feature(t, v, loc), pos + 2))
  {
    var l := Line(view, pos);
    QualifierValue("/locus_tag=\"", t);
    assert "/locus_tag" <= l;
    RnaProduct(view, pos + 1, kind, genome, count, loc, Some(t), 1, v);
  }

  /** The name of a CDS without `/locus_tag`: `{genome}_{n}`. */
  function CdsName(genome: string, total: int): string {
    genome + "_" + IntToString(total)
  }

  /** The protein record of the .faa file. */
  function ProteinRecord(name: string, product: string, aminos: string): string {
    ">" + name + " | " + product + "\n" + Wrap(aminos) + "\n"
  }

  /** A CDS, its .faa record and the cursor after it. */
  datatype Cds = Cds(feature: Feature, record: string, pos: nat)

  /** The loop of `aminos_line`: `/locus_tag` names the CDS, each `/product`
      is appended to the product (line breaks removed only when it spans
      lines), `/translation` completes the CDS; more than 1000 lines without
      a translation stop. */
  function AminosLoop(view: seq<string>, pos: nat, genome: string, total: int, loc: Loc,
                      name: Option<string>, product: string, bLines: nat, bProduct: nat): (r: Result<Cds, Failure>)
    ensures r.Ok? ==> r.value.pos > pos && r.value.feature.loc == loc
    decreases 1001 - bLines
  {
    var l := Line(view, pos);
    var p := After(view, pos);
    if "/locus_tag" <= l then
      if bLines + 1 > 1000 then Err(Exit("failed to parse CDS information"))
      else AminosLoop(view, p, genome, total, loc, Some(Slice(l, 12, -1)), product, bLines + 1, bProduct)
    else if "/product" <= l then
      match Quoted(view, p, l, 10, product, bProduct, "failed to parse CDS product name")
      case Err(e) => Err(e)
      case Ok(rd) =>
        var product' := if ClosesAt(l, 10) then rd.value else Replace(rd.value, "\n", "");
        if bLines + 1 > 1000 then Err(Exit("failed to parse CDS information"))
        else AminosLoop(view, rd.pos, genome, total, loc, name, product', bLines + 1, rd.buffer)
    else if "/translation" <= l then
      match Quoted(view, p, l, 14, "", 0, "failed to parse CDS amino acids")
      case Err(e) => Err(e)
      case Ok(rd) =>
        var nm := if name.Some? then name.value else CdsName(genome, total);
        Ok(Cds(Feature(nm, product, loc), ProteinRecord(nm, product, rd.value), rd.pos))
    else if bLines + 1 > 1000 then Err(Exit("failed to parse CDS information"))
    else AminosLoop(view, p, genome, total, loc, name, product, bLines + 1, bProduct)
  }

  /** A one-line `/translation` completes the CDS with the product read so far. */
  lemma CdsTranslation(view: seq<string>, pos: nat, genome: string, total: int, loc: Loc,
                       name: Option<string>, product: string, bLines: nat, bProduct: nat, aa: string)
    requires Line(view, pos) == "/translation=\"" + aa + "\""
    ensures var nm := if name.Some? then name.value else CdsName(genome, total);
      AminosLoop(view, pos, genome, total, loc, name, product, bLines, bProduct) ==
      Ok(Cds(Feature(nm, product, loc), ProteinRecord(nm, product, aa), After(view, pos)))
  {
    var m := Line(view, pos);
    QualifierValue("/translation=\"", aa);
    assert "/translation" <= m;
    assert !("/locus_tag" <= m) && !("/product" <= m) by {
      assert m[1] != "/locus_tag"[1] && m[1] != "/product"[1];
    }
    assert "" + aa == aa;
  }

  /** A one-line `/product` as the first qualifier read sets the product. */
  lemma CdsProduct(view: seq<string>, pos: nat, genome: string, total: int, loc: Loc, v: string)
    requires pos < |view|
    requires Line(view, pos) == "/product=\"" + v + "\""
    ensures AminosLoop(view, pos, genome, total, loc, None, "", 0, 0) ==
      AminosLoop(view, pos + 1, genome, total, loc, None, v, 1, 0)
  {
    var l := Line(view, pos);
    assert "/product" <= l && !("/locus_tag" <= l) by {
      assert l[1] != "/locus_tag"[1];
    }
    QualifierValue("/product=\"", v);
    assert "" + v == v;
    assert Quoted(view, pos + 1, l, 10, "", 0, "failed to parse CDS product name") == Ok(Read(v, pos + 1, 0));
  }

  /** `aminos_line` skips the line after the CDS line unread, so a
      `/product` there is lost: with one-line `/product` and
      `/translation` qualifiers on the two lines after it, the CDS takes
      the generated name and its record holds the amino acids wrapped at 60. */
  lemma CdsRecord(view: seq<string>, pos: nat, genome: string, total: int, loc: Loc, v: string, aa: string)
    requires pos + 2 < |view|
    requires Line(view, pos + 1) == "/product=\"" + v + "\""
    requires Line(view, pos + 2) == "/translation=\"" + aa + "\""
    ensures AminosLoop(view, pos + 1, genome, total, loc, None, "", 0, 0) ==
      Ok(Cds(Feature(CdsName(genome, total), v, loc), ProteinRecord(CdsName(genome, total), v, aa), pos + 3))
  {
    CdsProduct(view, pos + 1, genome, total, loc, v);
    CdsTranslation(view, pos + 2, genome, total, loc, None, v, 1, 0, aa);
  }

  // ---------------------------------------------------------------------
  // ORIGIN

  /** The ORIGIN text read so far and the cursor after the `//` line. */
  datatype Origin = Origin(text: string, pos: nat)

  /** The loop of `origin_line`: every line up to `//` adds its residues
      and a newline; more than 2000000 lines stop. */
  function OriginLoop(view: seq<string>, pos: nat, acc: string, buffer: nat): (r: Result<Origin, Failure>)
    ensures r.Ok? ==> r.value.pos >= pos
    decreases 2000001 - buffer
  {
    var l := Line(view, pos);
    var p := After(view, pos);
    if l == "//" then Ok(Origin(acc, p))
    else if buffer + 1 > 2000000 then Err(Exit("failed to parse ORIGIN information"))
    else OriginLoop(view, p, acc + OriginPiece(l), buffer + 1)
  }

  /** The ORIGIN block `pos .. pos + k - 1` closed by `//` reads as
      `OriginText` of its stripped lines, whose residues, upper-cased and
      without line breaks, are the genome (`OriginGenome`). */
  lemma {:induction false} OriginCollects(view: seq<string>, pos: nat, acc: string, k: nat, buffer: nat)
    requires pos + k < |view| && buffer + k <= 2000000
    requires forall j :: pos <= j < pos + k ==> view[j] != "//"
    requires view[pos + k] == "//"
    ensures OriginLoop(view, pos, acc, buffer) == Ok(Origin(acc + OriginText(view[pos..pos + k]), pos + k + 1))
    decreases k
  {
    if k == 0 {
      OriginEnds(view, pos, acc, buffer);
      assert view[pos..pos] == [];
      assert acc + OriginText(view[pos..pos]) == acc;
    } else {
      OriginCollects(view, pos + 1, acc + OriginPiece(view[pos]), k - 1, buffer + 1);
      OriginCollectsStep(view, pos, acc, k, buffer);
    }
  }

  /** One more line in front of an ORIGIN block read to its end. */
  lemma OriginCollectsStep(view: seq<string>, pos: nat, acc: string, k: nat, buffer: nat)
    requires 0 < k && pos + k < |view| && buffer + k <= 2000000 && view[pos] != "//"
    requires OriginLoop(view, pos + 1, acc + OriginPiece(view[pos]), buffer + 1) ==
      Ok(Origin(acc + OriginPiece(view[pos]) + OriginText(view[pos + 1..pos + k]), pos + k + 1))
    ensures OriginLoop(view, pos, acc, buffer) == Ok(Origin(acc + OriginText(view[pos..pos + k]), pos + k + 1))
  {
    OriginStep(view, pos, acc, buffer);
    OriginTextSlice(view, pos, k, acc);
  }

  /** The `//` line ends the ORIGIN block. */
  lemma OriginEnds(view: seq<string>, pos: nat, acc: string, buffer: nat)
    requires pos < |view| && view[pos] == "//"
    ensures OriginLoop(view, pos, acc, buffer) == Ok(Origin(acc, pos + 1))
  {
  }

  /** Any other line adds its residues and reads on. */
  lemma OriginStep(view: seq<string>, pos: nat, acc: string, buffer: nat)
    requires pos < |view| && view[pos] != "//" && buffer + 1 <= 2000000
    ensures OriginLoop(view, pos, acc, buffer) == OriginLoop(view, pos + 1, acc + OriginPiece(view[pos]), buffer + 1)
  {
  }

  /** Adding the piece of the first ORIGIN line, then the rest, adds the run. */
  lemma OriginTextSlice(view: seq<string>, pos: nat, k: nat, acc: string)
    requires 0 < k && pos + k <= |view|
    ensures acc + OriginPiece(view[pos]) + OriginText(view[pos + 1..pos + k]) == acc + OriginText(view[pos..pos + k])
  {
    assert view[pos..pos + k] == [view[pos]] + view[pos + 1..pos + k];
    OriginTextFront(view[pos], view[pos + 1..pos + k]);
  }

  // ---------------------------------------------------------------------
  // Gene, tRNA and rRNA records

  /** A gene or RNA record of the .ffn, .trna or .rrna file. */
  function FeatureRecord(f: Feature, piece: string): string {
    ">" + f.name + " | " + f.product + "\n" + Wrap(piece) + "\n"
  }

  /** The GFF row of a feature with two coordinates, strand in column 7. */
  function GffRow(genome: string, kind: string, f: Feature): (r: string)
    requires |f.loc.coords| == 2
    ensures |r| > 0 && r[|r| - 1] == '\n'
    ensures CleanText(genome) && CleanText(kind) && CleanText(f.loc.orient) && CleanText(f.name) && CleanText(f.product) ==>
      Split(r[..|r| - 1], '\t') == [genome, ".", kind, IntToString(f.loc.coords[0]), IntToString(f.loc.coords[1]),
                                    ".", f.loc.orient, ".", f.name + "; " + f.product]
  {
    var start, stop := f.loc.coords[0], f.loc.coords[1];
    if CleanText(genome) && CleanText(kind) && CleanText(f.loc.orient) && CleanText(f.name) && CleanText(f.product) then
      StrandColumn(genome, kind, start, stop, f.loc.orient, f.name, f.product);
      TabLine(GffFields(genome, kind, start, stop, f.loc.orient, f.name, f.product))
    else
      TabLine(GffFields(genome, kind, start, stop, f.loc.orient, f.name, f.product))
  }

  /** The records and GFF rows written for a list of features. */
  datatype Rows = Rows(records: string, gff: string)

  /** Every feature carries a `(start, stop)` pair. */
  predicate Pairs(fs: seq<Feature>) {
    forall i :: 0 <= i < |fs| ==> |fs[i].loc.coords| == 2
  }

  /** The loop of `genes`/`tRNAs`/`rRNAs`: one record and one GFF row per
      feature; a location that is not a `(start, stop, orient)` triple
      fails to unpack. */
  function FeatureRows(fs: seq<Feature>, genome: string, kind: string, genes: string): (r: Result<Rows, Failure>)
    ensures r.Err? ==> r.error == ValueError
  {
    if fs == [] then Ok(Rows("", ""))
    else
      match FeatureRows(fs[..|fs| - 1], genome, kind, genes)
      case Err(e) => Err(e)
      case Ok(rows) =>
        var f := fs[|fs| - 1];
        match Extract(genes, f.loc)
        case Err(e) => Err(e)
        case Ok(piece) => Ok(Rows(rows.records + FeatureRecord(f, piece), rows.gff + GffRow(genome, kind, f)))
  }

  /** The records are written exactly when every location is a pair. */
  lemma {:induction false} FeatureRowsOk(fs: seq<Feature>, genome: string, kind: string, genes: string)
    ensures FeatureRows(fs, genome, kind, genes).Ok? <==> Pairs(fs)
    decreases |fs|
  {
    if fs != [] {
      var init := fs[..|fs| - 1];
      FeatureRowsOk(init, genome, kind, genes);
      assert Pairs(fs) <==> Pairs(init) && |fs[|fs| - 1].loc.coords| == 2 by {
        if Pairs(init) && |fs[|fs| - 1].loc.coords| == 2 {
          forall i | 0 <= i < |fs| ensures |fs[i].loc.coords| == 2 {
            if i < |fs| - 1 { assert fs[i] == init[i]; }
          }
        }
        if Pairs(fs) {
          forall i | 0 <= i < |init| ensures |init[i].loc.coords| == 2 {
            assert init[i] == fs[i];
          }
        }
      }
    }
  }

  /** A leading feature named "" is dropped before writing. */
  function DropBlank(fs: seq<Feature>): (r: seq<Feature>)
    ensures fs != [] && fs[0].name == "" ==> r == fs[1..]
    ensures !(fs != [] && fs[0].name == "") ==> r == fs
  {
    if fs != [] && fs[0].name == "" then fs[1..] else fs
  }

  // ---------------------------------------------------------------------
  // The LOCUS line

  /** The genome name and the .len rows of a LOCUS line. */
  datatype Locus = Locus(genome: string, rows: string)

  /** The .len row of one field of the LOCUS line: fields holding "bp"
      give `{genome}\t{length}`. */
  function LengthRow(field: string, genome: string): string {
    if Contains(field, "bp") then genome + "\t" + BeforeFirst(Strip(field, Whitespace), " bp") + "\n" else ""
  }

  function LengthRows(fields: seq<string>, genome: string): string {
    if fields == [] then ""
    else LengthRows(fields[..|fields| - 1], genome) + LengthRow(fields[|fields| - 1], genome)
  }

  /** `locus_line`: the non-empty fields between double spaces; the second
      is the genome name. A line with fewer than two fields fails. */
  function ParseLocus(line: string): (r: Result<Locus, Failure>)
    ensures r.Err? <==> |NonEmpty(SplitOn(line, "  "))| < 2
    ensures r.Err? ==> r.error == IndexError
    ensures r.Ok? ==> r.value.genome == Strip(NonEmpty(SplitOn(line, "  "))[1], {' '})
  {
    var fields := NonEmpty(SplitOn(line, "  "));
    if |fields| < 2 then Err(IndexError)
    else
      var genome := Strip(fields[1], {' '});
      Ok(Locus(genome, LengthRows(fields, genome)))
  }

  /** A LOCUS line whose first two fields hold no space and are separated
      by a double space names the genome by its second field. */
  lemma LocusFields(a: string, g: string, rest: string)
    requires a != [] && g != [] && ' ' !in a && ' ' !in g
    ensures var r := ParseLocus(a + "  " + g + "  " + rest);
      r.Ok? && r.value.genome == g && NonEmpty(SplitOn(a + "  " + g + "  " + rest, "  "))[..2] == [a, g]
  {
    var fields := NonEmpty(SplitOn(a + "  " + g + "  " + rest, "  "));
    NonEmptyLead(a, g, "  ", rest);
    assert fields[1] == g && fields[..2] == [a, g];
    StripUntouched(g, {' '});
  }

  // ---------------------------------------------------------------------
  // The whole conversion

  /** The seven output files, as text. */
  datatype Out = Out(faa: string, fasta: string, ffn: string, gff: string, trna: string, rrna: string, len: string)

  /** The state of a `Convert` object: the cursor and its attributes. */
  datatype Snap = Snap(pos: nat, genome: string, loc: Loc, total: int, totalT: int, totalR: int,
                       proteins: seq<Feature>, trna: seq<Feature>, rrna: seq<Feature>, out: Out)

  /** The outcome of a run: finished, stopped by an error or `exit`, or
      stuck in the feature loop forever. */
  datatype Run<T> = Ran(value: T) | Stopped(error: Failure) | Loops

  /** `locus_line` applied to the state. */
  function WithLocus(s: Snap, line: string): (r: Result<Snap, Failure>)
    ensures r.Ok? ==> r.value.pos == s.pos
  {
    match ParseLocus(line)
    case Err(e) => Err(e)
    case Ok(lc) => Ok(Named(s, lc))
  }

  /** The state after a LOCUS line: its genome name and .len rows. */
  function Named(s: Snap, lc: Locus): Snap {
    s.(genome := lc.genome, out := s.out.(len := s.out.len + lc.rows))
  }

  /** `feature_line`: the location of the feature line. */
  function WithLoc(s: Snap, line: string): (r: Result<Snap, Failure>)
    ensures r.Ok? ==> r.value.pos == s.pos
  {
    match FeatureLocation(line)
    case Err(e) => Err(e)
    case Ok(l) => Ok(s.(loc := l))
  }

  /** `aminos_line`: the line after the CDS line is skipped, then the CDS
      is read, its protein written and the CDS appended. */
  function WithCds(view: seq<string>, s: Snap): (r: Result<Snap, Failure>)
    ensures r.Ok? ==> r.value.pos > s.pos
  {
    match AminosLoop(view, After(view, s.pos), s.genome, s.total, s.loc, None, "", 0, 0)
    case Err(e) => Err(e)
    case Ok(c) => Ok(AddCds(s, c))
  }

  /** The state after a CDS: its protein written and its feature kept. */
  function AddCds(s: Snap, c: Cds): Snap {
    s.(pos := c.pos, proteins := s.proteins + [c.feature], out := s.out.(faa := s.out.faa + c.record))
  }

  /** `tRNA_line`/`rRNA_line`: count the RNA, read it and append it. */
  function WithRna(view: seq<string>, s: Snap, kind: Kind): (r: Result<Snap, Failure>)
    ensures r.Ok? ==> r.value.pos > s.pos
  {
    var count := (if kind == TRna then s.totalT else s.totalR) + 1;
    KeptRna(s, kind, count, RnaLoop(view, s.pos, kind, s.genome, count, s.loc, None, 0))
  }

  /** The end of an RNA: a failed qualifier loop fails it, a completed one
      is counted and kept. */
  function KeptRna(s: Snap, kind: Kind, count: int, f: Result<Found, Failure>): (r: Result<Snap, Failure>)
    ensures f.Ok? && f.value.pos > s.pos ==> r.Ok? && r.value.pos > s.pos
    ensures f.Err? ==> r == Err(f.error)
  {
    match f
    case Err(e) => Err(e)
    case Ok(x) => Ok(AddRna(s, kind, count, x))
  }

  /** The state after an RNA: counted and kept. */
  function AddRna(s: Snap, kind: Kind, count: int, f: Found): Snap {
    if kind == TRna then s.(pos := f.pos, totalT := count, trna := s.trna + [f.feature])
    else s.(pos := f.pos, totalR := count, rrna := s.rrna + [f.feature])
  }

  /** `genes`: the first protein is looked at unconditionally, so a record
      without a CDS fails; then one gene per CDS. */
  function WithGenes(s: Snap, genes: string): (r: Result<Snap, Failure>)
    ensures r.Ok? ==> r.value.pos == s.pos
    ensures s.proteins == [] ==> r == Err(IndexError)
  {
    if s.proteins == [] then Err(IndexError)
    else
      var fs := DropBlank(s.proteins);
      match FeatureRows(fs, s.genome, "CDS", genes)
      case Err(e) => Err(e)
      case Ok(rows) => Ok(GenesWritten(s, fs, rows))
  }

  /** `tRNAs`/`rRNAs`: an empty list is allowed. */
  function WithRnas(s: Snap, kind: Kind, genes: string): (r: Result<Snap, Failure>)
    ensures r.Ok? ==> r.value.pos == s.pos
  {
    var fs := DropBlank(if kind == TRna then s.trna else s.rrna);
    match FeatureRows(fs, s.genome, KindName(kind), genes)
    case Err(e) => Err(e)
    case Ok(rows) =>
      Ok(RnasWritten(s, kind, fs, rows))
  }

  /** The state after `genes`: the kept CDS features and their rows. */
  function GenesWritten(s: Snap, fs: seq<Feature>, rows: Rows): Snap {
    s.(proteins := fs, out := s.out.(ffn := s.out.ffn + rows.records, gff := s.out.gff + rows.gff))
  }

  /** The state after `tRNAs` or `rRNAs`: the kept features and their rows. */
  function RnasWritten(s: Snap, kind: Kind, fs: seq<Feature>, rows: Rows): Snap {
    if kind == TRna then s.(trna := fs, out := s.out.(trna := s.out.trna + rows.records, gff := s.out.gff + rows.gff))
    else s.(rrna := fs, out := s.out.(rrna := s.out.rrna + rows.records, gff := s.out.gff + rows.gff))
  }

  /** A record without CDS features fails, one without RNAs does not. */
  lemma GenesNeedCds(s: Snap, genes: string)
    ensures s.proteins == [] ==> WithGenes(s, genes) == Err(IndexError)
    ensures s.trna == [] ==> WithRnas(s, TRna, genes) == Ok(s)
    ensures s.rrna == [] ==> WithRnas(s, RRna, genes) == Ok(s)
  {
    if s.trna == [] {
      assert WithRnas(s, TRna, genes) == Ok(RnasWritten(s, TRna, [], Rows("", "")));
      assert s.out.trna + "" == s.out.trna && s.out.gff + "" == s.out.gff;
    }
    if s.rrna == [] {
      assert WithRnas(s, RRna, genes) == Ok(RnasWritten(s, RRna, [], Rows("", "")));
      assert s.out.rrna + "" == s.out.rrna && s.out.gff + "" == s.out.gff;
    }
  }

  /** `origin_line`: the ORIGIN block, the genome written upper-cased with
      its line breaks, then the genes, tRNAs and rRNAs cut from it. */
  function WithOrigin(view: seq<string>, s: Snap): (r: Result<Snap, Failure>)
    ensures r.Ok? ==> r.value.pos >= s.pos
  {
    match OriginLoop(view, s.pos, "", 0)
    case Err(e) => Err(e)
    case Ok(o) =>
      var upper := Upper(o.text);
      var bare := Replace(upper, "\n", "");
      var s1 := GenomeWritten(s, o.pos, upper);
      match WithGenes(s1, bare)
      case Err(e) => Err(e)
      case Ok(s2) =>
        match WithRnas(s2, TRna, bare)
        case Err(e) => Err(e)
        case Ok(s3) => WithRnas(s3, RRna, bare)
  }

  /** The state after the ORIGIN block: the genome written. */
  function GenomeWritten(s: Snap, pos: nat, upper: string): Snap {
    s.(pos := pos, out := s.out.(fasta := s.out.fasta + ">" + s.genome + "\n" + upper))
  }

  /** A header and whether it ended at a FEATURES line (rather than at the end). */
  datatype Head = Head(snap: Snap, features: bool)

  /** The header loop of `parse_genbank`: LOCUS lines name the genome;
      FEATURES ends the header, unless no LOCUS line came first; the end
      of the file ends the run; more than 1000 lines stop. */
  function HeaderLoop(lines: seq<string>, s: Snap, d: bool, buffer: nat): (r: Result<Head, Failure>)
    ensures r.Ok? ==> r.value.snap.pos >= s.pos
    ensures r.Ok? && r.value.features ==> s.pos < r.value.snap.pos <= |lines|
    decreases 1001 - buffer
  {
    var raw := Line(lines, s.pos);
    var p := After(lines, s.pos);
    if "LOCUS" <= raw then
      match WithLocus(s.(pos := p), raw)
      case Err(e) => Err(e)
      case Ok(s1) =>
        if buffer + 1 > 1000 then Err(Exit("failed to parse LOCUS information"))
        else HeaderLoop(lines, s1, true, buffer + 1)
    else if "FEATURES" <= raw then
      if !d then Err(Exit("no genome name found")) else Ok(Head(s.(pos := p), true))
    else if raw == "" then Ok(Head(s.(pos := p), false))
    else if buffer + 1 > 1000 then Err(Exit("failed to parse LOCUS information"))
    else HeaderLoop(lines, s.(pos := p), d, buffer + 1)
  }

  /** The feature loop of `parse_genbank`: CDS, tRNA and rRNA lines start a
      feature, ORIGIN ends the table; at the end of the file the loop
      never ends. */
  function FeatureLoop(view: seq<string>, s: Snap): (r: Run<Snap>)
    ensures r.Ran? ==> r.value.pos > s.pos
    decreases |view| - s.pos
  {
    if s.pos >= |view| then Loops
    else
      var l := Line(view, s.pos);
      var p := s.pos + 1;
      if "CDS" <= l || "tRNA" <= l || "rRNA" <= l then
        match WithFeature(view, s.(pos := p), l)
        case Err(e) => Stopped(e)
        case Ok(s2) => FeatureLoop(view, s2)
      else if "ORIGIN" <= l then Ran(s.(pos := p, loc := NoLoc))
      else FeatureLoop(view, s.(pos := p))
  }

  /** One line of the feature loop read at `s.pos`. */
  lemma FeatureLoopStep(view: seq<string>, s: Snap)
    requires s.pos < |view|
    ensures var l, t := view[s.pos], s.(pos := s.pos + 1);
      if "CDS" <= l || "tRNA" <= l || "rRNA" <= l then
        FeatureLoop(view, s) ==
          (if WithFeature(view, t, l).Err? then Stopped(WithFeature(view, t, l).error)
           else FeatureLoop(view, WithFeature(view, t, l).value))
      else if "ORIGIN" <= l then FeatureLoop(view, s) == Ran(t.(loc := NoLoc))
      else FeatureLoop(view, s) == FeatureLoop(view, t)
  {
  }

  /** One feature of the feature loop, after its first line `l` was read:
      a CDS is counted, its location set and `aminos_line` run; a tRNA or
      rRNA has its location set and `tRNA_line` or `rRNA_line` run. */
  function WithFeature(view: seq<string>, s: Snap, l: string): (r: Result<Snap, Failure>)
    ensures r.Ok? ==> r.value.pos > s.pos
  {
    if "CDS" <= l then WithCdsFeature(view, s, l) else WithRnaFeature(view, s, l)
  }

  /** A CDS: counted, its location read, then `aminos_line`. */
  function WithCdsFeature(view: seq<string>, s: Snap, l: string): (r: Result<Snap, Failure>)
    ensures r.Ok? ==> r.value.pos > s.pos
  {
    match WithLoc(Counted(s), l)
    case Err(e) => Err(e)
    case Ok(s1) => WithCds(view, s1)
  }

  /** The state with one more CDS counted. */
  function Counted(s: Snap): Snap {
    s.(total := s.total + 1)
  }

  /** A tRNA or rRNA: its location, then `tRNA_line` or `rRNA_line`. */
  function WithRnaFeature(view: seq<string>, s: Snap, l: string): (r: Result<Snap, Failure>)
    ensures r.Ok? ==> r.value.pos > s.pos
  {
    match WithLoc(s, l)
    case Err(e) => Err(e)
    case Ok(s1) => WithRna(view, s1, if "tRNA" <= l then TRna else RRna)
  }

  /** A line that starts a feature or ends the table. */
  predicate Marker(l: string) {
    "CDS" <= l || "tRNA" <= l || "rRNA" <= l || "ORIGIN" <= l
  }

  /** A feature table that runs to the end of the file without another
      feature or ORIGIN line never ends. */
  lemma {:induction false} NoOriginLoops(view: seq<string>, s: Snap)
    requires forall j :: s.pos <= j < |view| ==> !Marker(Line(view, j))
    ensures FeatureLoop(view, s) == Loops
    decreases |view| - s.pos
  {
    if s.pos < |view| {
      assert !Marker(Line(view, s.pos)) && Line(view, s.pos) == view[s.pos];
      FeatureLoopStep(view, s);
      NoOriginLoops(view, s.(pos := s.pos + 1));
    }
  }

  /** The feature lists emptied at the start of a record. */
  function Cleared(s: Snap): Snap {
    s.(proteins := [], trna := [], rrna := [])
  }

  /** The location and counters reset before the feature table. */
  function Reset(s: Snap): Snap {
    s.(loc := NoLoc, total := 0, totalR := 0, totalT := 0)
  }

  /** What one pass of the records loop leaves: the last record (no
      FEATURES line before the end of the file) or a complete one. */
  datatype Step = Last(snap: Snap) | More(snap: Snap)

  /** One pass of the records loop of `parse_genbank`: the feature lists
      are emptied, the header read, the counters reset, the feature table
      and the ORIGIN block read. */
  function Entry(lines: seq<string>, s: Snap): (r: Run<Step>)
    ensures r.Ran? && r.value.More? ==> s.pos < r.value.snap.pos && s.pos < |lines|
  {
    match HeaderLoop(lines, Cleared(s), false, 0)
    case Err(e) => Stopped(e)
    case Ok(h) =>
      if !h.features then Ran(Last(h.snap))
      else
        match FeatureLoop(StripAll(lines), Reset(h.snap))
        case Loops => Loops
        case Stopped(e) => Stopped(e)
        case Ran(s1) =>
          match WithOrigin(StripAll(lines), s1)
          case Err(e) => Stopped(e)
          case Ok(s2) => Ran(More(s2))
  }

  /** The records loop of `parse_genbank`; more than 1000 records stop. */
  function Records(lines: seq<string>, s: Snap, whole: nat): (r: Run<Snap>)
    decreases |lines| - s.pos
  {
    match Entry(lines, s)
    case Loops => Loops
    case Stopped(e) => Stopped(e)
    case Ran(Last(t)) => Ran(t)
    case Ran(More(t)) =>
      if whole + 1 > 1000 then Stopped(Exit("failed to parse GenBank entries"))
      else Records(lines, t, whole + 1)
  }

  /** The state before `parse_genbank`: only the GFF header is written. */
  const Initial: Snap := Snap(0, "", NoLoc, 0, 0, 0, [], [], [], Out("", "", "", "##gff-version 3\n", "", "", ""))

  /** `parse_genbank` on the text of a GenBank file. */
  function Convert(text: string): Run<Snap> {
    Records(Fasta.Lines(text), Initial, 0)
  }

  /** The state after `n` more passes of the records loop that each read a
      whole record (header, features and ORIGIN block), if they all do. */
  function FullEntries(lines: seq<string>, s: Snap, n: nat): Option<Snap>
    decreases n
  {
    if n == 0 then Some(s)
    else
      match Entry(lines, s)
      case Ran(More(t)) => FullEntries(lines, t, n - 1)
      case _ => None
  }

  /** The first of `n` whole records is read by one pass. */
  lemma FullEntriesFront(lines: seq<string>, s: Snap, n: nat)
    requires n > 0 && FullEntries(lines, s, n).Some?
    ensures Entry(lines, s).Ran? && Entry(lines, s).value.More?
    ensures FullEntries(lines, s, n) == FullEntries(lines, Entry(lines, s).value.snap, n - 1)
  {
  }

  /** Within the limit, a whole record hands over to the next pass. */
  lemma RecordsNext(lines: seq<string>, s: Snap, whole: nat)
    requires Entry(lines, s).Ran? && Entry(lines, s).value.More? && whole < 1000
    ensures Records(lines, s, whole) == Records(lines, Entry(lines, s).value.snap, whole + 1)
  {
  }

  /** The 1001st whole record ends the run with "failed to parse GenBank
      entries", however well-formed the file is. */
  lemma {:induction false} RecordsOverLimit(lines: seq<string>, s: Snap, whole: nat, n: nat)
    requires n >= 1 && whole + n == 1001 && FullEntries(lines, s, n).Some?
    ensures Records(lines, s, whole) == Stopped(Exit("failed to parse GenBank entries"))
    decreases n
  {
    FullEntriesFront(lines, s, n);
    if n > 1 {
      var t := Entry(lines, s).value.snap;
      RecordsNext(lines, s, whole);
      RecordsOverLimit(lines, t, whole + 1, n - 1);
    }
  }

  /** A file whose first 1001 records all read through fails as a whole. */
  lemma ThousandRecordsFail(text: string)
    requires FullEntries(Fasta.Lines(text), Initial, 1001).Some?
    ensures Convert(text) == Stopped(Exit("failed to parse GenBank entries"))
  {
    RecordsOverLimit(Fasta.Lines(text), Initial, 0, 1001);
  }

  /** An empty file ends the run before anything beyond the GFF header is
      written. */
  lemma EmptyFile()
    ensures Convert("") == Ran(Initial)
  {
    assert Fasta.Lines("") == [];
  }

  // ---------------------------------------------------------------------
  // Arguments

  /** `self.base`: the file name without directory and extension. */
  function Base(genbank: string): string {
    BeforeLast(AfterLast(genbank, "/"), ".")
  }

  /** `self.folder`: the given folder or `{base}_GenBank_parse/`, ending in '/'. */
  function Folder(base: string, folder: string): (r: string)
    ensures |r| > 0 && r[|r| - 1] == '/'
    ensures folder != "" ==> r == folder || r == folder + "/"
  {
    var f := if folder == "" then base + "_GenBank_parse/" else folder;
    if f[|f| - 1] != '/' then f + "/" else f
  }

  datatype Setup = Setup(base: string, folder: string)

  /** `get_args`: a missing input or an existing output folder exits;
      `present` says which paths exist. */
  function Arguments(genbank: string, folder: string, present: string -> bool): (r: Result<Setup, Failure>)
    ensures r.Ok? <==> present(genbank) && !present(Folder(Base(genbank), folder))
    ensures r.Ok? ==> r.value == Setup(Base(genbank), Folder(Base(genbank), folder))
  {
    var base := Base(genbank);
    var f := Folder(base, folder);
    if !present(genbank) || present(f) then Err(Exit(""))
    else Ok(Setup(base, f))
  }

  /** The output files `{folder}{base}.{ext}`. */
  function OutputPath(setup: Setup, ext: string): string {
    setup.folder + setup.base + "." + ext
  }

  /** `Settled(err, s)`: the outcome a method reports with `err` in state `s`. */
  function Settled(err: Option<Failure>, s: Snap): Result<Snap, Failure> {
    if err.None? then Ok(s) else Err(err.value)
  }

  // ---------------------------------------------------------------------
  // The converter

  class Converter {
    /** The lines of the GenBank file. */
    const lines: seq<string>
    /** The same lines as `readline().strip()` returns them. */
    const view: seq<string> := StripAll(lines)
    /** The number of lines read. */
    var pos: nat
    var genome: string
    var loc: Loc
    var total: int
    var totalT: int
    var totalR: int
    var proteins: seq<Feature>
    var trna: seq<Feature>
    var rrna: seq<Feature>
    /** What has been written to the seven output files. */
    var out: Out

    function Snapshot(): Snap
      reads this
    {
      Snap(pos, genome, loc, total, totalT, totalR, proteins, trna, rrna, out)
    }

    /** Opens the GenBank text and writes the GFF header. */
    constructor (text: string)
      ensures lines == Fasta.Lines(text) && Snapshot() == Initial
    {
      lines := Fasta.Lines(text);
      pos := 0;
      genome := "";
      loc := NoLoc;
      total, totalT, totalR := 0, 0, 0;
      proteins, trna, rrna := [], [], [];
      out := Out("", "", "", "##gff-version 3\n", "", "", "");
    }

    /** `self.f.readline()`. */
    method ReadLine() returns (line: string)
      modifies this`pos
      ensures line == Line(lines, old(pos)) && pos == After(lines, old(pos))
    {
      if pos < |lines| {
        line := lines[pos];
        pos := pos + 1;
      } else {
        line := "";
      }
    }

    /** `self.f.readline().strip()`. */
    method ReadStripped() returns (line: string)
      modifies this`pos
      ensures line == Line(view, old(pos)) && pos == After(view, old(pos))
    {
      var raw := ReadLine();
      line := Strip(raw, Whitespace);
    }

    /** The continuation loop of a quoted qualifier. */
    method ContinueValue(acc: string, buffer: nat, msg: string) returns (r: Result<Read, Failure>)
      modifies this`pos
      ensures r == Continue(view, old(pos), acc, buffer, msg)
      ensures r.Ok? ==> pos == r.value.pos
    {
      var value := acc;
      var b := buffer;
      while true
        invariant Continue(view, pos, value, b, msg) == Continue(view, old(pos), acc, buffer, msg)
        decreases 1001 - b as int
      {
        var line := ReadStripped();
        if line == [] {
          return Err(IndexError);
        }
        if line[|line| - 1] == '"' {
          return Ok(Read(value + line[..|line| - 1], pos, b + 1));
        }
        value := value + line;
        b := b + 1;
        if b > 1000 {
          return Err(Exit(msg));
        }
      }
    }

    /** A quoted qualifier starting at `line[skip:]`. */
    method QuotedValue(line: string, skip: nat, acc: string, buffer: nat, msg: string) returns (r: Result<Read, Failure>)
      modifies this`pos
      ensures r == Quoted(view, old(pos), line, skip, acc, buffer, msg)
      ensures r.Ok? ==> pos == r.value.pos
    {
      var temp := Slice(line, skip, |line|);
      if temp == [] {
        return Err(IndexError);
      }
      if temp[|temp| - 1] == '"' {
        return Ok(Read(acc + Slice(line, skip, -1), pos, buffer));
      }
      r := ContinueValue(acc + temp, buffer, msg);
    }

    /** The loop of `locus_line` over the fields of the LOCUS line. */
    static method LocusRows(fields: seq<string>, g: string) returns (rows: string)
      ensures rows == LengthRows(fields, g)
    {
      rows := "";
      var i := 0;
      while i < |fields|
        invariant 0 <= i <= |fields|
        invariant rows == LengthRows(fields[..i], g)
      {
        assert fields[..i + 1][..i] == fields[..i];
        rows := rows + LengthRow(fields[i], g);
        i := i + 1;
      }
      assert fields[..i] == fields;
    }

    /** `locus_line`: the genome name and one .len row per "bp" field. */
    method LocusLine(line: string) returns (err: Option<Failure>)
      modifies this`genome, this`out
      ensures WithLocus(old(Snapshot()), line) == Settled(err, Snapshot())
    {
      var fields := NonEmpty(SplitOn(line, "  "));
      if |fields| < 2 {
        return Some(IndexError);
      }
      var g := Strip(fields[1], {' '});
      var rows := LocusRows(fields, g);
      assert ParseLocus(line) == Ok(Locus(g, rows));
      genome := g;
      out := out.(len := out.len + rows);
      assert Snapshot() == Named(old(Snapshot()), Locus(g, rows));
      return None;
    }

    /** `feature_line`. */
    method FeatureLine(line: string) returns (err: Option<Failure>)
      modifies this`loc
      ensures WithLoc(old(Snapshot()), line) == Settled(err, Snapshot())
    {
      var l := FeatureLocation(line);
      if l.Err? {
        return Some(l.error);
      }
      loc := l.value;
      return None;
    }

    /** The qualifier loop of `tRNA_line` and `rRNA_line`. */
    method RnaBlock(kind: Kind, count: int) returns (r: Result<Found, Failure>)
      modifies this`pos
      ensures r == RnaLoop(view, old(pos), kind, genome, count, loc, None, 0)
      ensures r.Ok? ==> pos == r.value.pos
    {
      var name: Option<string> := None;
      var buffer: nat := 0;
      while true
        invariant RnaLoop(view, pos, kind, genome, count, loc, name, buffer) ==
                  RnaLoop(view, old(pos), kind, genome, count, loc, None, 0)
        decreases 1001 - buffer as int
      {
        var line := ReadStripped();
        if "/locus_tag" <= line {
          name := Some(Slice(line, 12, -1));
        } else if "/product" <= line {
          var rd := QuotedValue(line, 10, "", 0, "failed to parse " + KindName(kind) + " product name");
          if rd.Err? {
            return Err(rd.error);
          }
          var nm := if name.Some? then name.value else RnaName(genome, kind, count);
          return Ok(Found(Feature(nm, Replace(rd.value.value, "\n", ""), loc), pos));
        }
        buffer := buffer + 1;
        if buffer > 1000 {
          return Err(Exit("failed to parse " + KindName(kind) + " entry"));
        }
      }
    }

    /** `tRNA_line` and `rRNA_line`. */
    method RnaLine(kind: Kind) returns (err: Option<Failure>)
      modifies this`pos, this`totalT, this`totalR, this`trna, this`rrna
      ensures WithRna(view, old(Snapshot()), kind) == Settled(err, Snapshot())
    {
      ghost var s0 := Snapshot();
      var count := (if kind == TRna then totalT else totalR) + 1;
      var f := RnaBlock(kind, count);
      assert WithRna(view, s0, kind) == KeptRna(s0, kind, count, f);
      if f.Err? {
        return Some(f.error);
      }
      KeepRna(kind, count, f.value);
      return None;
    }

    /** The end of `tRNA_line`/`rRNA_line`: the count and the feature kept. */
    method KeepRna(kind: Kind, count: int, f: Found)
      requires pos == f.pos
      modifies this`totalT, this`totalR, this`trna, this`rrna
      ensures Snapshot() == AddRna(old(Snapshot()), kind, count, f)
    {
      if kind == TRna {
        totalT := count;
        trna := trna + [f.feature];
      } else {
        totalR := count;
        rrna := rrna + [f.feature];
      }
    }

    /** The qualifier loop of `aminos_line`, after the skipped line. */
    method AminosBlock() returns (r: Result<Cds, Failure>)
      modifies this`pos
      ensures r == AminosLoop(view, old(pos), genome, total, loc, None, "", 0, 0)
      ensures r.Ok? ==> pos == r.value.pos
    {
      var name: Option<string> := None;
      var product := "";
      var bLines: nat := 0;
      var bProduct: nat := 0;
      while true
        invariant AminosLoop(view, pos, genome, total, loc, name, product, bLines, bProduct) ==
                  AminosLoop(view, old(pos), genome, total, loc, None, "", 0, 0)
        decreases 1001 - bLines as int
      {
        var line := ReadStripped();
        if "/locus_tag" <= line {
          name := Some(Slice(line, 12, -1));
        } else if "/product" <= line {
          var rd := QuotedValue(line, 10, product, bProduct, "failed to parse CDS product name");
          if rd.Err? {
            return Err(rd.error);
          }
          product := if ClosesAt(line, 10) then rd.value.value else Replace(rd.value.value, "\n", "");
          bProduct := rd.value.buffer;
        } else if "/translation" <= line {
          var rd := QuotedValue(line, 14, "", 0, "failed to parse CDS amino acids");
          if rd.Err? {
            return Err(rd.error);
          }
          var nm := if name.Some? then name.value else CdsName(genome, total);
          return Ok(Cds(Feature(nm, product, loc), ProteinRecord(nm, product, rd.value.value), pos));
        }
        bLines := bLines + 1;
        if bLines > 1000 {
          return Err(Exit("failed to parse CDS information"));
        }
      }
    }

    /** `aminos_line`: skip the line after the CDS header, read the
        qualifiers, write the protein and keep the feature. */
    method AminosLine() returns (err: Option<Failure>)
      modifies this`pos, this`proteins, this`out
      ensures WithCds(view, old(Snapshot())) == Settled(err, Snapshot())
    {
      var _ := ReadStripped();
      var c := AminosBlock();
      if c.Err? {
        return Some(c.error);
      }
      out := out.(faa := out.faa + c.value.record);
      proteins := proteins + [c.value.feature];
      assert Snapshot() == AddCds(old(Snapshot()), c.value);
      return None;
    }

    /** The loop of `genes`, `tRNAs` and `rRNAs`. */
    method WriteRows(fs: seq<Feature>, kind: string, genes: string) returns (r: Result<Rows, Failure>)
      ensures r == FeatureRows(fs, genome, kind, genes)
    {
      var rows := Rows("", "");
      var i := 0;
      while i < |fs|
        invariant 0 <= i <= |fs|
        invariant FeatureRows(fs[..i], genome, kind, genes) == Ok(rows)
      {
        assert fs[..i + 1][..i] == fs[..i];
        var f := fs[i];
        if |f.loc.coords| != 2 {
          FeatureRowsOk(fs, genome, kind, genes);
          return Err(ValueError);
        }
        var piece := Extract(genes, f.loc);
        rows := Rows(rows.records + FeatureRecord(f, piece.value), rows.gff + GffRow(genome, kind, f));
        i := i + 1;
      }
      assert fs[..i] == fs;
      return Ok(rows);
    }

    /** `genes`. */
    method Genes(genes: string) returns (err: Option<Failure>)
      modifies this`proteins, this`out
      ensures WithGenes(old(Snapshot()), genes) == Settled(err, Snapshot())
    {
      if proteins == [] {
        return Some(IndexError);
      }
      if proteins[0].name == "" {
        proteins := proteins[1..];
      }
      var rows := WriteRows(proteins, "CDS", genes);
      if rows.Err? {
        return Some(rows.error);
      }
      out := out.(ffn := out.ffn + rows.value.records, gff := out.gff + rows.value.gff);
      assert Snapshot() == GenesWritten(old(Snapshot()), proteins, rows.value);
      return None;
    }

    /** `tRNAs` and `rRNAs`. */
    method Rnas(kind: Kind, genes: string) returns (err: Option<Failure>)
      modifies this`trna, this`rrna, this`out
      ensures WithRnas(old(Snapshot()), kind, genes) == Settled(err, Snapshot())
    {
      var fs := DropBlank(if kind == TRna then trna else rrna);
      var rows := WriteRows(fs, KindName(kind), genes);
      if rows.Err? {
        return Some(rows.error);
      }
      if kind == TRna {
        trna := fs;
        out := out.(trna := out.trna + rows.value.records, gff := out.gff + rows.value.gff);
      } else {
        rrna := fs;
        out := out.(rrna := out.rrna + rows.value.records, gff := out.gff + rows.value.gff);
      }
      assert Snapshot() == RnasWritten(old(Snapshot()), kind, fs, rows.value);
      return None;
    }

    /** The loop of `origin_line` up to `//`. */
    method OriginBlock() returns (r: Result<Origin, Failure>)
      modifies this`pos
      ensures r == OriginLoop(view, old(pos), "", 0)
      ensures r.Ok? ==> pos == r.value.pos
    {
      var text := "";
      var buffer: nat := 0;
      while true
        invariant OriginLoop(view, pos, text, buffer) == OriginLoop(view, old(pos), "", 0)
        decreases 2000001 - buffer as int
      {
        var line := ReadStripped();
        if line == "//" {
          return Ok(Origin(text, pos));
        }
        text := text + OriginPiece(line);
        buffer := buffer + 1;
        if buffer > 2000000 {
          return Err(Exit("failed to parse ORIGIN information"));
        }
      }
    }

    /** `origin_line`. */
    method OriginLine() returns (err: Option<Failure>)
      modifies this`pos, this`proteins, this`trna, this`rrna, this`out
      ensures WithOrigin(view, old(Snapshot())) == Settled(err, Snapshot())
    {
      var o := OriginBlock();
      if o.Err? {
        return Some(o.error);
      }
      var upper := Upper(o.value.text);
      out := out.(fasta := out.fasta + ">" + genome + "\n" + upper);
      assert Snapshot() == GenomeWritten(old(Snapshot()), o.value.pos, upper);
      var bare := Replace(upper, "\n", "");
      err := Genes(bare);
      if err.Some? {
        return;
      }
      err := Rnas(TRna, bare);
      if err.Some? {
        return;
      }
      err := Rnas(RRna, bare);
    }

    /** The header loop of `parse_genbank`. */
    method HeaderLines() returns (r: Result<Head, Failure>)
      modifies this`pos, this`genome, this`out
      ensures r == HeaderLoop(lines, old(Snapshot()), false, 0)
      ensures r.Ok? ==> Snapshot() == r.value.snap
    {
      var d := false;
      var buffer: nat := 0;
      while true
        invariant HeaderLoop(lines, Snapshot(), d, buffer) == HeaderLoop(lines, old(Snapshot()), false, 0)
        decreases 1001 - buffer as int
      {
        var raw := ReadLine();
        if "LOCUS" <= raw {
          var err := LocusLine(raw);
          if err.Some? {
            return Err(err.value);
          }
          d := true;
        } else if "FEATURES" <= raw {
          if !d {
            return Err(Exit("no genome name found"));
          }
          return Ok(Head(Snapshot(), true));
        } else if raw == "" {
          return Ok(Head(Snapshot(), false));
        }
        buffer := buffer + 1;
        if buffer > 1000 {
          return Err(Exit("failed to parse LOCUS information"));
        }
      }
    }

    /** The branches of the feature loop that read one CDS, tRNA or rRNA. */
    method FeatureBlock(line: string) returns (err: Option<Failure>)
      modifies this`pos, this`loc, this`total, this`totalT, this`totalR, this`proteins, this`trna, this`rrna, this`out
      ensures WithFeature(view, old(Snapshot()), line) == Settled(err, Snapshot())
    {
      if "CDS" <= line {
        err := CdsFeature(line);
      } else {
        err := RnaFeature(line);
      }
    }

    /** The CDS branch of the feature loop. */
    method CdsFeature(line: string) returns (err: Option<Failure>)
      modifies this`pos, this`loc, this`total, this`proteins, this`out
      ensures WithCdsFeature(view, old(Snapshot()), line) == Settled(err, Snapshot())
    {
      ghost var s0 := Snapshot();
      total := total + 1;
      assert Snapshot() == Counted(s0);
      err := FeatureLine(line);
      if err.Some? {
        return;
      }
      err := AminosLine();
    }

    /** The tRNA and rRNA branches of the feature loop. */
    method RnaFeature(line: string) returns (err: Option<Failure>)
      modifies this`pos, this`loc, this`totalT, this`totalR, this`trna, this`rrna
      ensures WithRnaFeature(view, old(Snapshot()), line) == Settled(err, Snapshot())
    {
      err := FeatureLine(line);
      if err.Some? {
        return;
      }
      err := RnaLine(if "tRNA" <= line then TRna else RRna);
    }

    /** The feature loop of `parse_genbank`; at the end of the file it
        reports `Loops` where the script spins forever. */
    method FeatureLines() returns (r: Run<Snap>)
      modifies this`pos, this`loc, this`total, this`totalT, this`totalR, this`proteins, this`trna, this`rrna, this`out
      ensures r == FeatureLoop(view, old(Snapshot()))
      ensures r.Ran? ==> Snapshot() == r.value
    {
      while true
        invariant FeatureLoop(view, Snapshot()) == FeatureLoop(view, old(Snapshot()))
        decreases |view| - pos
      {
        if pos >= |view| {
          return Loops;
        }
        var done;
        done, r := FeatureStep();
        if done {
          return;
        }
      }
    }

    /** One line of the feature loop: a feature block, the ORIGIN line
        that ends the loop, or a line passed over. */
    method FeatureStep() returns (done: bool, r: Run<Snap>)
      requires pos < |view|
      modifies this`pos, this`loc, this`total, this`totalT, this`totalR, this`proteins, this`trna, this`rrna, this`out
      ensures done ==> r == FeatureLoop(view, old(Snapshot())) && (r.Ran? ==> Snapshot() == r.value)
      ensures !done ==> pos > old(pos) && FeatureLoop(view, Snapshot()) == FeatureLoop(view, old(Snapshot()))
    {
      ghost var s0 := Snapshot();
      FeatureLoopStep(view, s0);
      var line := ReadStripped();
      assert Snapshot() == s0.(pos := s0.pos + 1);
      if "CDS" <= line || "tRNA" <= line || "rRNA" <= line {
        var err := FeatureBlock(line);
        if err.Some? {
          return true, Stopped(err.value);
        }
      } else if "ORIGIN" <= line {
        loc := NoLoc;
        return true, Ran(Snapshot());
      }
      return false, Loops;
    }

    /** The feature lists are emptied at the start of each record. */
    method ClearLists()
      modifies this`proteins, this`trna, this`rrna
      ensures Snapshot() == Cleared(old(Snapshot()))
    {
      proteins, trna, rrna := [], [], [];
    }

    /** The location and the counters are reset before the feature table. */
    method ResetCounters()
      modifies this`loc, this`total, this`totalT, this`totalR
      ensures Snapshot() == Reset(old(Snapshot()))
    {
      loc := NoLoc;
      total, totalR, totalT := 0, 0, 0;
    }

    /** One pass of the records loop of `parse_genbank`. */
    method EntryLines() returns (r: Run<Step>)
      modifies this`pos, this`genome, this`loc, this`total, this`totalT, this`totalR, this`proteins, this`trna, this`rrna, this`out
      ensures r == Entry(lines, old(Snapshot()))
      ensures r.Ran? ==> Snapshot() == r.value.snap
    {
      ClearLists();
      var h := HeaderLines();
      if h.Err? {
        return Stopped(h.error);
      }
      if !h.value.features {
        return Ran(Last(Snapshot()));
      }
      ResetCounters();
      var f := FeatureLines();
      if f.Loops? {
        return Loops;
      } else if f.Stopped? {
        return Stopped(f.error);
      }
      var err := OriginLine();
      if err.Some? {
        return Stopped(err.value);
      }
      assert WithOrigin(StripAll(lines), f.value) == Ok(Snapshot());
      return Ran(More(Snapshot()));
    }

    /** `parse_genbank`. */
    method ParseGenbank() returns (r: Run<Snap>)
      modifies this`pos, this`genome, this`loc, this`total, this`totalT, this`totalR, this`proteins, this`trna, this`rrna, this`out
      ensures r == Records(lines, old(Snapshot()), 0)
    {
      var whole: nat := 0;
      while true
        invariant Records(lines, Snapshot(), whole) == Records(lines, old(Snapshot()), 0)
        decreases |lines| - pos
      {
        var e := EntryLines();
        match e
        case Loops => return Loops;
        case Stopped(err) => return Stopped(err);
        case Ran(Last(t)) => return Ran(t);
        case Ran(More(t)) =>
          if whole + 1 > 1000 {
            return Stopped(Exit("failed to parse GenBank entries"));
          }
          whole := whole + 1;
      }
    }
  }
}
