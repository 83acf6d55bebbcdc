/** annotations.py: the per-protein annotation tables of one split file. It
    reads three reference tables (accession to gene name, the accessions of
    auxiliary metabolic genes, accession to weight), lists the proteins of
    the split FASTA file in an `.accnos` file, gathers the parsed HMM hits of
    each protein per database, and writes one full row and one best-hit row
    per protein, plus a row for every auxiliary metabolic gene (AMG).
    Float parsing is the parameter `parse` (None where `float()` raises
    ValueError) and float formatting the parameter `show`. */
module Annotations {
  import opened Wrappers
  import opened Strings
  import opened Fasta
  import opened Placeholder
  import HmmParse

  // ---------------------------------------------------------------------
  // get_lists

  /** `text.replace('\n', '\t').split('\t')`: the cells of a two-column
      table, row after row. */
  function Cells(text: string): (r: seq<string>)
    ensures |r| >= 1
    ensures forall i :: 0 <= i < |r| ==> '\t' !in r[i]
  {
    Split(Replace(text, "\n", "\t"), '\t')
  }

  /** The cells at even positions, which the dictionary uses as keys. */
  ghost function KeyCells(items: seq<string>): set<string> {
    set i | 0 <= i < |items| && i % 2 == 0 :: items[i]
  }

  /** No later even position repeats the key at position `i`. */
  ghost predicate LastKey(items: seq<string>, i: nat)
    requires i < |items|
  {
    forall j :: i < j < |items| && j % 2 == 0 ==> items[j] != items[i]
  }

  /** Some value cell (an odd position) fails to convert. */
  ghost predicate BadValue<V>(items: seq<string>, value: string -> Option<V>) {
    exists i :: 0 <= i < |items| && i % 2 == 1 && value(items[i]).None?
  }

  /** `{items[i]: value(items[i+1]) for i in range(0, len(items), 2)}`,
      evaluated pair by pair from the left: a value that does not convert
      raises ValueError, a key without a value raises IndexError, and a
      later pair overwrites an earlier one with the same key. */
  function Pairs<V>(items: seq<string>, value: string -> Option<V>): Result<map<string, V>, Failure>
    decreases |items|
  {
    if |items| == 0 then Ok(map[])
    else if |items| == 1 then Err(IndexError)
    else
      match value(items[1])
      case None => Err(ValueError)
      case Some(v) =>
        match Pairs(items[2..], value)
        case Err(e) => Err(e)
        case Ok(m) => Ok(map[items[0] := v] + m)
  }

  /** The comprehension fails exactly on an odd number of cells or a value
      that does not convert; a bad value is reached before the missing one. */
  lemma {:induction false} PairsFail<V>(items: seq<string>, value: string -> Option<V>)
    ensures Pairs(items, value).Err? <==> |items| % 2 == 1 || BadValue(items, value)
    ensures Pairs(items, value).Err? ==>
      Pairs(items, value).error == (if BadValue(items, value) then ValueError else IndexError)
    decreases |items|
  {
    if |items| >= 2 {
      var rest := items[2..];
      if value(items[1]).Some? {
        PairsFail(rest, value);
        if BadValue(rest, value) {
          var i :| 0 <= i < |rest| && i % 2 == 1 && value(rest[i]).None?;
          assert items[i + 2] == rest[i];
        }
        if BadValue(items, value) {
          var i :| 0 <= i < |items| && i % 2 == 1 && value(items[i]).None?;
          assert rest[i - 2] == items[i];
        }
      }
    }
  }

  /** Two more cells keep an even count even. */
  lemma EvenShift(n: nat)
    requires n % 2 == 0
    ensures (n + 2) % 2 == 0
  {
  }

  /** A successful comprehension, one pair off the front. */
  lemma PairsFront<V>(items: seq<string>, value: string -> Option<V>)
    requires Pairs(items, value).Ok? && |items| > 0
    ensures |items| >= 2 && value(items[1]).Some? && Pairs(items[2..], value).Ok?
    ensures Pairs(items, value).value == map[items[0] := value(items[1]).value] + Pairs(items[2..], value).value
  {
  }

  /** One pair taken off the front: the keys shift by two. */
  lemma KeyCellsFront(items: seq<string>)
    requires |items| >= 2
    ensures KeyCells(items) == {items[0]} + KeyCells(items[2..])
  {
    var rest := items[2..];
    forall x | x in KeyCells(items) ensures x in {items[0]} + KeyCells(rest) {
      var i :| 0 <= i < |items| && i % 2 == 0 && items[i] == x;
      if i >= 2 {
        assert rest[i - 2] == x;
      }
    }
    forall x | x in KeyCells(rest) ensures x in KeyCells(items) {
      var i :| 0 <= i < |rest| && i % 2 == 0 && rest[i] == x;
      assert items[i + 2] == x;
    }
  }

  /** A successful comprehension has a key for every even cell, and no others. */
  lemma {:induction false} PairsKeys<V>(items: seq<string>, value: string -> Option<V>)
    requires Pairs(items, value).Ok?
    ensures |items| % 2 == 0
    ensures Pairs(items, value).value.Keys == KeyCells(items)
    decreases |items|
  {
    if |items| > 0 {
      PairsFront(items, value);
      var rest := items[2..];
      PairsKeys(rest, value);
      KeyCellsFront(items);
      EvenShift(|rest|);
      assert Pairs(items, value).value.Keys == {items[0]} + Pairs(rest, value).value.Keys;
    }
  }

  /** The key at even position `i`, if no later pair repeats it, maps to
      the value right after it. */
  lemma {:induction false} PairsAt<V>(items: seq<string>, value: string -> Option<V>, i: nat)
    requires Pairs(items, value).Ok?
    requires i < |items| && i % 2 == 0 && LastKey(items, i)
    ensures i + 1 < |items|
    ensures items[i] in Pairs(items, value).value && value(items[i + 1]) == Some(Pairs(items, value).value[items[i]])
    decreases i
  {
    PairsKeys(items, value);
    PairsFront(items, value);
    var rest := items[2..];
    PairsKeys(rest, value);
    if i == 0 {
      assert items[0] !in KeyCells(rest) by {
        forall j | 0 <= j < |rest| && j % 2 == 0 ensures rest[j] != items[0] {
          assert rest[j] == items[j + 2];
        }
      }
    } else {
      assert LastKey(rest, i - 2) by {
        forall j | i - 2 < j < |rest| && j % 2 == 0 ensures rest[j] != rest[i - 2] {
          assert rest[j] == items[j + 2];
        }
      }
      PairsAt(rest, value, i - 2);
      assert rest[i - 2] == items[i] && rest[i - 1] == items[i + 1];
    }
  }

  /** Each key maps to the value after its last occurrence. */
  lemma PairsLookup<V>(items: seq<string>, value: string -> Option<V>)
    requires Pairs(items, value).Ok?
    ensures |items| % 2 == 0
    ensures forall i ::
      (0 <= i < |items| - 1 && i % 2 == 0 && LastKey(items, i)) ==>
        items[i] in Pairs(items, value).value && value(items[i + 1]) == Some(Pairs(items, value).value[items[i]])
  {
    PairsKeys(items, value);
    forall i | 0 <= i < |items| - 1 && i % 2 == 0 && LastKey(items, i)
      ensures items[i] in Pairs(items, value).value && value(items[i + 1]) == Some(Pairs(items, value).value[items[i]])
    {
      PairsAt(items, value, i);
    }
  }

  /** `names`: accession to gene name, without the empty key. */
  function NamesTable(text: string): (r: Result<map<string, string>, Failure>)
    ensures r.Ok? ==> "" !in r.value
  {
    match Pairs(Cells(text), (s: string) => Some(s))
    case Err(e) => Err(e)
    case Ok(m) => Ok(m - {""})
  }

  /** The names table fails only on an odd number of cells, with IndexError;
      in particular a file whose last row ends in a newline has one cell
      too many. Otherwise every non-empty key cell names the cell after its
      last occurrence. */
  lemma NamesTableCells(text: string)
    ensures NamesTable(text).Err? <==> |Cells(text)| % 2 == 1
    ensures NamesTable(text).Err? ==> NamesTable(text).error == IndexError
    ensures NamesTable(text).Ok? ==> NamesTable(text).value.Keys == KeyCells(Cells(text)) - {""}
    ensures NamesTable(text).Ok? ==>
      forall i :: (0 <= i < |Cells(text)| - 1 && i % 2 == 0 && LastKey(Cells(text), i) && Cells(text)[i] != "") ==>
        NamesTable(text).value[Cells(text)[i]] == Cells(text)[i + 1]
  {
    var value := (s: string) => Some(s);
    PairsFail(Cells(text), value);
    if NamesTable(text).Ok? {
      PairsKeys(Cells(text), value);
      PairsLookup(Cells(text), value);
    }
  }

  /** What is left of a file after `next(f)` consumed its first line;
      `next` on an empty file raises StopIteration. */
  function AfterFirstLine(text: string): (r: Result<string, Failure>)
    ensures r.Err? <==> text == []
    ensures r.Err? ==> r.error == StopIteration
    ensures r.Ok? ==> text == Lines(text)[0] + r.value
  {
    var lines := Lines(text);
    if lines == [] then Err(StopIteration)
    else
      assert lines == [lines[0]] + lines[1..];
      ConcatFront(lines[0], lines[1..]);
      Ok(Concat(lines[1..]))
  }

  /** `amgs`: the lines after the header line, without the empty one. */
  function AmgSet(text: string): (r: Result<set<string>, Failure>)
    ensures r.Err? <==> text == []
    ensures r.Ok? ==> "" !in r.value && forall a :: a in r.value ==> '\n' !in a
  {
    match AfterFirstLine(text)
    case Err(e) => Err(e)
    case Ok(rest) => Ok((set f | f in Split(rest, '\n')) - {""})
  }

  /** The weight a category file gives: the number in percent, over 100. */
  function Percent(parse: string -> Option<real>): string -> Option<real> {
    (s: string) => if parse(s).Some? then Some(parse(s).value / 100.0) else None
  }

  /** `cats`: accession to weight, from the lines after the header line. */
  function CategoryTable(text: string, parse: string -> Option<real>): (r: Result<map<string, real>, Failure>)
    ensures r.Ok? ==> "" !in r.value
  {
    match AfterFirstLine(text)
    case Err(e) => Err(e)
    case Ok(rest) =>
      match Pairs(Cells(rest), Percent(parse))
      case Err(e) => Err(e)
      case Ok(m) => Ok(m - {""})
  }

  /** The cells after the header line of a category file. */
  function CategoryCells(text: string): seq<string>
    requires text != []
  {
    Cells(AfterFirstLine(text).value)
  }

  /** The category table fails on an empty file, a percentage `float()`
      rejects, or an odd number of cells. */
  lemma CategoryTableFails(text: string, parse: string -> Option<real>)
    ensures text == [] ==> CategoryTable(text, parse) == Err(StopIteration)
    ensures text != [] ==>
      (CategoryTable(text, parse).Err? <==>
        |CategoryCells(text)| % 2 == 1 || BadValue(CategoryCells(text), Percent(parse)))
    ensures text != [] && BadValue(CategoryCells(text), Percent(parse)) ==>
      CategoryTable(text, parse) == Err(ValueError)
  {
    if text != [] {
      PairsFail(CategoryCells(text), Percent(parse));
    }
  }

  /** Every non-empty key is worth one hundredth of the number after its
      last occurrence. */
  lemma CategoryTableValues(text: string, parse: string -> Option<real>)
    requires CategoryTable(text, parse).Ok?
    ensures text != [] && |CategoryCells(text)| % 2 == 0
    ensures forall i ::
      (0 <= i < |CategoryCells(text)| - 1 && i % 2 == 0 && LastKey(CategoryCells(text), i) && CategoryCells(text)[i] != "") ==>
        CategoryCells(text)[i] in CategoryTable(text, parse).value &&
        parse(CategoryCells(text)[i + 1]).Some? &&
        parse(CategoryCells(text)[i + 1]).value / 100.0 == CategoryTable(text, parse).value[CategoryCells(text)[i]]
  {
    assert text != [];
    var cells := CategoryCells(text);
    assert Pairs(cells, Percent(parse)).Ok?;
    var m := Pairs(cells, Percent(parse)).value;
    assert CategoryTable(text, parse).value == m - {""};
    WeightsLookup(cells, parse, m, CategoryTable(text, parse).value);
  }

  /** The percentages read pair by pair, without the empty key, hold the
      weight of every non-empty key's last value cell. */
  lemma WeightsLookup(cells: seq<string>, parse: string -> Option<real>, m: map<string, real>, t: map<string, real>)
    requires Pairs(cells, Percent(parse)) == Ok(m) && t == m - {""}
    ensures |cells| % 2 == 0
    ensures forall i :: (0 <= i < |cells| - 1 && i % 2 == 0 && LastKey(cells, i) && cells[i] != "") ==>
      cells[i] in t && parse(cells[i + 1]).Some? && parse(cells[i + 1]).value / 100.0 == t[cells[i]]
  {
    PairsKeys(cells, Percent(parse));
    forall i | 0 <= i < |cells| - 1 && i % 2 == 0 && LastKey(cells, i) && cells[i] != ""
      ensures cells[i] in t && parse(cells[i + 1]).Some? && parse(cells[i + 1]).value / 100.0 == t[cells[i]]
    {
      WeightAt(cells, parse, m, t, i);
    }
  }

  /** One non-empty key whose pair is not repeated later. */
  lemma WeightAt(cells: seq<string>, parse: string -> Option<real>, m: map<string, real>, t: map<string, real>, i: nat)
    requires Pairs(cells, Percent(parse)) == Ok(m) && t == m - {""}
    requires i < |cells| - 1 && i % 2 == 0 && LastKey(cells, i) && cells[i] != ""
    ensures cells[i] in t && parse(cells[i + 1]).Some? && parse(cells[i + 1]).value / 100.0 == t[cells[i]]
  {
    PairsAtOk(cells, Percent(parse), m, i);
  }

  /** `PairsAt` for a table already read. */
  lemma PairsAtOk<V>(items: seq<string>, value: string -> Option<V>, m: map<string, V>, i: nat)
    requires Pairs(items, value) == Ok(m)
    requires i < |items| && i % 2 == 0 && LastKey(items, i)
    ensures i + 1 < |items| && items[i] in m && value(items[i + 1]) == Some(m[items[i]])
  {
    PairsAt(items, value, i);
  }

  /** The three reference tables. */
  datatype Lists = Lists(names: map<string, string>, amgs: set<string>, cats: map<string, real>)

  /** `get_lists`: the names, AMG and category tables, read in that order. */
  function ListsOf(namesText: string, amgsText: string, catsText: string, parse: string -> Option<real>)
    : (r: Result<Lists, Failure>)
    ensures r.Ok? <==> NamesTable(namesText).Ok? && AmgSet(amgsText).Ok? && CategoryTable(catsText, parse).Ok?
    ensures r.Ok? ==> r.value == Lists(NamesTable(namesText).value, AmgSet(amgsText).value, CategoryTable(catsText, parse).value)
  {
    match NamesTable(namesText)
    case Err(e) => Err(e)
    case Ok(names) =>
      match AmgSet(amgsText)
      case Err(e) => Err(e)
      case Ok(amgs) =>
        match CategoryTable(catsText, parse)
        case Err(e) => Err(e)
        case Ok(cats) => Ok(Lists(names, amgs, cats))
  }

  // ---------------------------------------------------------------------
  // make_accnos

  /** The protein name written for a FASTA header: for nucleotide input the
      part before the first `" # "`, for protein input the whole header. */
  function Accession(header: string, form: string): (r: string)
    ensures r <= header
    ensures form != "nucl" ==> r == header
  {
    BeforeFirstIsPrefix(header, " # ");
    if form == "nucl" then BeforeFirst(header, " # ") else header
  }

  /** A file holding one name per line. */
  function WriteNames(names: seq<string>): string {
    Concat(seq(|names|, i requires 0 <= i < |names| => names[i] + "\n"))
  }

  /** Each line without its newline. */
  function Stripped(lines: seq<string>): (r: seq<string>)
    ensures |r| == |lines|
  {
    seq(|lines|, i requires 0 <= i < |lines| => Strip(lines[i], {'\n'}))
  }

  /** `for prot in acc: prot.strip('\n')`. */
  function ReadNames(text: string): seq<string> {
    Stripped(Lines(text))
  }

  /** Names without newlines come back from their file one per line, in order. */
  lemma NamesRoundTrip(names: seq<string>)
    requires forall i :: 0 <= i < |names| ==> '\n' !in names[i]
    ensures ReadNames(WriteNames(names)) == names
  {
    var ls := seq(|names|, i requires 0 <= i < |names| => names[i] + "\n");
    forall i | 0 <= i < |ls| ensures IsLine(ls[i]) && EndsInNewline(ls[i]) {
      assert ls[i][..|ls[i]| - 1] == names[i];
    }
    LinesOfConcat(ls);
    forall i | 0 <= i < |names| ensures Strip(ls[i], {'\n'}) == names[i] {
      assert ls[i][..|ls[i]| - 1] == names[i];
      StripOneTrailing(ls[i], '\n');
    }
  }

  /** The protein names of the parsed records. */
  function RecordNames(recs: seq<Record>, form: string): (r: seq<string>)
    ensures |r| == |recs|
  {
    seq(|recs|, i requires 0 <= i < |recs| => Accession(recs[i].header, form))
  }

  /** `make_accnos`: the `.accnos` file; `fasta_parse` raises NameError on
      an empty file or one that does not start with a header. */
  function AccnosText(faa: string, form: string): (r: Result<string, Failure>)
    ensures r.Err? <==> faa == [] || faa[0] != '>'
    ensures r.Err? ==> r.error == NameError
  {
    ParseTextFailsIff(faa);
    match ParseText(faa)
    case Err(e) => Err(e)
    case Ok(recs) => Ok(WriteNames(RecordNames(recs, form)))
  }

  /** The proteins `write_annos` reads back from the `.accnos` file are the
      names of the FASTA header lines, one per header, in file order. */
  lemma AccnosNames(faa: string, form: string)
    requires AccnosText(faa, form).Ok?
    ensures |ReadNames(AccnosText(faa, form).value)| == |HeaderTexts(Lines(faa))|
    ensures forall i :: 0 <= i < |HeaderTexts(Lines(faa))| ==>
      ReadNames(AccnosText(faa, form).value)[i] == Accession(HeaderTexts(Lines(faa))[i], form)
  {
    var lines := Lines(faa);
    var recs := ParseText(faa).value;
    ParseHeaders(lines);
    HeadersOfIndex(recs);
    LinesAreFileLines(faa);
    HeaderTextsNoNewline(lines);
    var names := RecordNames(recs, form);
    forall i | 0 <= i < |names| ensures '\n' !in names[i] {
      assert names[i] <= recs[i].header;
      assert forall j :: 0 <= j < |names[i]| ==> names[i][j] == recs[i].header[j];
    }
    NamesRoundTrip(names);
  }

  // ---------------------------------------------------------------------
  // get_annos

  /** A protein's entry for one database: the default `('', '', '')`, or the
      accession, e-value and score of a row. */
  datatype Slot = Blank | Data(acc: string, evalue: real, score: real)

  /** The entries for KEGG, Pfam and VOG, in that order. */
  datatype Slots = Slots(kegg: Slot, pfam: Slot, vog: Slot)

  const NoSlots: Slots := Slots(Blank, Blank, Blank)

  function SlotOf(s: Slots, db: HmmParse.Database): Slot {
    match db
    case KEGG => s.kegg
    case Pfam => s.pfam
    case VOG => s.vog
  }

  /** `k[db] = data`. */
  function Put(s: Slots, db: HmmParse.Database, d: Slot): (r: Slots)
    ensures SlotOf(r, db) == d
    ensures forall e :: e != db ==> SlotOf(r, e) == SlotOf(s, e)
  {
    match db
    case KEGG => s.(kegg := d)
    case Pfam => s.(pfam := d)
    case VOG => s.(vog := d)
  }

  /** `annotations.get(prot, default)`. */
  function Entry(annos: map<string, Slots>, prot: string): Slots {
    if prot in annos then annos[prot] else NoSlots
  }

  /** One data line of a parsed table: `line.strip('\n').split('\t')`, then
      `(line[1], float(line[2]), float(line[3]))` from left to right. */
  function ReadRow(line: string, parse: string -> Option<real>): (r: Result<(string, Slot), Failure>)
    ensures r.Ok? ==> r.value.1.Data?
    ensures r.Err? ==> r.error == IndexError || r.error == ValueError
  {
    var f := Split(Strip(line, {'\n'}), '\t');
    if |f| < 3 then Err(IndexError)
    else if parse(f[2]).None? then Err(ValueError)
    else if |f| < 4 then Err(IndexError)
    else if parse(f[3]).None? then Err(ValueError)
    else Ok((f[0], Data(f[1], parse(f[2]).value, parse(f[3]).value)))
  }

  /** A row written in the four-column layout of the parsed tables reads
      back as its protein, accession, e-value and score. */
  lemma ReadWrittenRow(h: HmmParse.Hit, parse: string -> Option<real>, evalue: real, score: real)
    requires forall f :: f in [h.protein, h.accession, h.evalue, h.score] ==> '\t' !in f && '\n' !in f
    requires parse(h.evalue) == Some(evalue) && parse(h.score) == Some(score)
    ensures ReadRow(HmmParse.RowText(h), parse) == Ok((h.protein, Data(h.accession, evalue, score)))
  {
    var fields := [h.protein, h.accession, h.evalue, h.score];
    var line := HmmParse.RowText(h);
    assert line[..|line| - 1] == Join(fields, "\t");
    JoinAvoids(fields, "\t", '\n');
    StripOneTrailing(line, '\n');
    HmmParse.RowFields(h);
  }

  /** `setdefault(prot, default)[db] = data`. */
  function Enter(annos: map<string, Slots>, db: HmmParse.Database, row: (string, Slot)): map<string, Slots> {
    annos[row.0 := Put(Entry(annos, row.0), db, row.1)]
  }

  /** The loop over a table's data lines, stopped by the first line that raises. */
  function Collect(annos: map<string, Slots>, lines: seq<string>, db: HmmParse.Database, parse: string -> Option<real>)
    : Result<map<string, Slots>, Failure>
  {
    if lines == [] then Ok(annos)
    else
      match Collect(annos, lines[..|lines| - 1], db, parse)
      case Err(e) => Err(e)
      case Ok(m) =>
        match ReadRow(lines[|lines| - 1], parse)
        case Err(e) => Err(e)
        case Ok(row) => Ok(Enter(m, db, row))
  }

  /** One table: its header line is skipped with `next`. */
  function LoadTable(annos: map<string, Slots>, text: string, db: HmmParse.Database, parse: string -> Option<real>)
    : (r: Result<map<string, Slots>, Failure>)
    ensures text == [] ==> r == Err(StopIteration)
  {
    var lines := Lines(text);
    if lines == [] then Err(StopIteration) else Collect(annos, lines[1..], db, parse)
  }

  /** `get_annos`: the KEGG, Pfam and VOG tables in turn, into an empty map. */
  function AnnotationsOf(kegg: string, pfam: string, vog: string, parse: string -> Option<real>)
    : Result<map<string, Slots>, Failure>
  {
    match LoadTable(map[], kegg, HmmParse.KEGG, parse)
    case Err(e) => Err(e)
    case Ok(a) =>
      match LoadTable(a, pfam, HmmParse.Pfam, parse)
      case Err(e) => Err(e)
      case Ok(b) => LoadTable(b, vog, HmmParse.VOG, parse)
  }

  ghost predicate AllRead(lines: seq<string>, parse: string -> Option<real>) {
    forall i :: 0 <= i < |lines| ==> ReadRow(lines[i], parse).Ok?
  }

  /** The proteins named by the rows. */
  ghost function RowProteins(lines: seq<string>, parse: string -> Option<real>): set<string> {
    set i | 0 <= i < |lines| && ReadRow(lines[i], parse).Ok? :: ReadRow(lines[i], parse).value.0
  }

  /** Row `i` is the last row for `p`. */
  ghost predicate LastRowFor(lines: seq<string>, parse: string -> Option<real>, i: nat, p: string)
    requires i < |lines|
  {
    ReadRow(lines[i], parse).Ok? && ReadRow(lines[i], parse).value.0 == p &&
    forall j :: i < j < |lines| && ReadRow(lines[j], parse).Ok? ==> ReadRow(lines[j], parse).value.0 != p
  }

  /** The loop succeeds exactly when every line reads; otherwise it raises
      what the first failing line raises. */
  lemma {:induction false} CollectFails(annos: map<string, Slots>, lines: seq<string>, db: HmmParse.Database, parse: string -> Option<real>)
    ensures Collect(annos, lines, db, parse).Ok? <==> AllRead(lines, parse)
    ensures Collect(annos, lines, db, parse).Err? ==>
      exists i :: 0 <= i < |lines| && AllRead(lines[..i], parse) &&
        ReadRow(lines[i], parse) == Err(Collect(annos, lines, db, parse).error)
  {
    if lines != [] {
      var front := lines[..|lines| - 1];
      CollectFails(annos, front, db, parse);
      if Collect(annos, front, db, parse).Err? {
        var i :| 0 <= i < |front| && AllRead(front[..i], parse) &&
          ReadRow(front[i], parse) == Err(Collect(annos, front, db, parse).error);
        assert lines[..i] == front[..i];
      } else if ReadRow(lines[|lines| - 1], parse).Err? {
        assert lines[..|lines| - 1] == front;
      }
      AllReadSnoc(lines, parse);
    }
  }

  /** Every row of a non-empty list reads exactly when every row of its
      front and its last row do. */
  lemma AllReadSnoc(lines: seq<string>, parse: string -> Option<real>)
    requires lines != []
    ensures AllRead(lines, parse) <==> AllRead(lines[..|lines| - 1], parse) && ReadRow(lines[|lines| - 1], parse).Ok?
  {
    var front := lines[..|lines| - 1];
    assert forall i :: 0 <= i < |front| ==> front[i] == lines[i];
  }

  /** A row that reads adds its protein to the proteins of the rows before it. */
  lemma RowProteinsSnoc(lines: seq<string>, parse: string -> Option<real>)
    requires lines != [] && ReadRow(lines[|lines| - 1], parse).Ok?
    ensures RowProteins(lines, parse) ==
      RowProteins(lines[..|lines| - 1], parse) + {ReadRow(lines[|lines| - 1], parse).value.0}
  {
    var n := |lines| - 1;
    var front := lines[..n];
    forall x | x in RowProteins(lines, parse) ensures x in RowProteins(front, parse) + {ReadRow(lines[n], parse).value.0} {
      var i :| 0 <= i < |lines| && ReadRow(lines[i], parse).Ok? && ReadRow(lines[i], parse).value.0 == x;
      if i < n {
        assert front[i] == lines[i];
      }
    }
    forall x | x in RowProteins(front, parse) ensures x in RowProteins(lines, parse) {
      var i :| 0 <= i < |front| && ReadRow(front[i], parse).Ok? && ReadRow(front[i], parse).value.0 == x;
      assert lines[i] == front[i];
    }
  }

  /** After the loop a protein has an entry exactly when it had one before
      or a row names it; the other databases' entries are as before, and a
      protein no row names keeps its entry. */
  lemma {:induction false} CollectKeeps(annos: map<string, Slots>, lines: seq<string>, db: HmmParse.Database,
                                        parse: string -> Option<real>, p: string)
    requires Collect(annos, lines, db, parse).Ok?
    ensures p in Collect(annos, lines, db, parse).value <==> p in annos || p in RowProteins(lines, parse)
    ensures forall e :: e != db ==> SlotOf(Entry(Collect(annos, lines, db, parse).value, p), e) == SlotOf(Entry(annos, p), e)
    ensures p !in RowProteins(lines, parse) ==> Entry(Collect(annos, lines, db, parse).value, p) == Entry(annos, p)
  {
    if lines != [] {
      var n := |lines| - 1;
      var front := lines[..n];
      CollectKeeps(annos, front, db, parse, p);
      RowProteinsSnoc(lines, parse);
    }
  }

  /** The entry for this table's database is the data of the last row
      naming the protein: a later row replaces an earlier one. */
  lemma {:induction false} CollectLastWins(annos: map<string, Slots>, lines: seq<string>, db: HmmParse.Database,
                                           parse: string -> Option<real>, p: string)
    requires Collect(annos, lines, db, parse).Ok?
    ensures forall i :: 0 <= i < |lines| && LastRowFor(lines, parse, i, p) ==>
      SlotOf(Entry(Collect(annos, lines, db, parse).value, p), db) == ReadRow(lines[i], parse).value.1
  {
    if lines != [] {
      var n := |lines| - 1;
      var front := lines[..n];
      CollectLastWins(annos, front, db, parse, p);
      var m := Collect(annos, front, db, parse).value;
      var row := ReadRow(lines[n], parse).value;
      forall i | 0 <= i < |lines| && LastRowFor(lines, parse, i, p)
        ensures SlotOf(Entry(Enter(m, db, row), p), db) == ReadRow(lines[i], parse).value.1
      {
        if i < n {
          assert row.0 != p;
          assert forall j :: i < j < n ==> front[j] == lines[j];
          assert LastRowFor(front, parse, i, p);
        }
      }
    }
  }

  // ---------------------------------------------------------------------
  // write_annos

  /** An entry counts as a hit when it has a non-empty accession (`if k0:`). */
  predicate Present(s: Slot) {
    s.Data? && s.acc != ""
  }

  /** The position of a database in the order the hits are considered. */
  function Rank(db: HmmParse.Database): nat {
    match db
    case KEGG => 0
    case Pfam => 1
    case VOG => 2
  }

  /** The database whose hit goes into the best table. A present hit
      replaces the current choice when its score is at least the chosen
      score, or when nothing is chosen yet (comparing a float with the
      empty placeholder raises the TypeError that is caught). So the winner
      is the last present hit with the greatest score, and there is none
      exactly when no hit is present. */
  function Winner(s: Slots): (w: Option<HmmParse.Database>)
    ensures w.None? <==> !Present(s.kegg) && !Present(s.pfam) && !Present(s.vog)
    ensures w.Some? ==> Present(SlotOf(s, w.value))
    ensures w.Some? ==> forall d :: Present(SlotOf(s, d)) ==> SlotOf(s, d).score <= SlotOf(s, w.value).score
    ensures w.Some? ==> forall d :: Present(SlotOf(s, d)) && Rank(d) > Rank(w.value) ==>
      SlotOf(s, d).score < SlotOf(s, w.value).score
  {
    var afterKegg := if Present(s.kegg) then Some(HmmParse.KEGG) else None;
    var afterPfam :=
      if Present(s.pfam) && (afterKegg.None? || s.pfam.score >= s.kegg.score) then Some(HmmParse.Pfam) else afterKegg;
    if Present(s.vog) && (afterPfam.None? || s.vog.score >= SlotOf(s, afterPfam.value).score) then Some(HmmParse.VOG)
    else afterPfam
  }

  /** The accession, e-value and score columns of an entry; the default
      entry prints as three empty columns. */
  function SlotColumns(s: Slot, show: real -> string): (r: seq<string>)
    ensures |r| == 3
  {
    match s
    case Blank => ["", "", ""]
    case Data(acc, evalue, score) => [acc, show(evalue), show(score)]
  }

  /** `names.get(acc, 'hypothetical protein')` for a hit, empty otherwise. */
  function NameOf(s: Slot, names: map<string, string>): string {
    if !Present(s) then "" else if s.acc in names then names[s.acc] else "hypothetical protein"
  }

  /** `cats.get(acc, 0)` for a hit, empty otherwise. */
  function WeightOf(s: Slot, cats: map<string, real>, show: real -> string): string {
    if !Present(s) then "" else if s.acc in cats then show(cats[s.acc]) else "0"
  }

  /** `AMG` when the KEGG hit is a listed metabolic gene. */
  function AmgFlag(s: Slots, amgs: set<string>): string {
    if Present(s.kegg) && s.kegg.acc in amgs then "AMG" else ""
  }

  /** The scaffold of a protein: its decoded name up to the last `_`. */
  function Scaffold(prot: string): string {
    BeforeLast(Decode(prot), "_")
  }

  /** The 18 columns of the full table. */
  function FullRow(prot: string, s: Slots, lists: Lists, show: real -> string): (r: seq<string>)
    ensures |r| == 18
  {
    var k := SlotColumns(s.kegg, show);
    var p := SlotColumns(s.pfam, show);
    var v := SlotColumns(s.vog, show);
    [Decode(prot), Scaffold(prot),
     k[0], AmgFlag(s, lists.amgs), NameOf(s.kegg, lists.names), k[1], k[2], WeightOf(s.kegg, lists.cats, show),
     p[0], NameOf(s.pfam, lists.names), p[1], p[2], WeightOf(s.pfam, lists.cats, show),
     v[0], NameOf(s.vog, lists.names), v[1], v[2], WeightOf(s.vog, lists.cats, show)]
  }

  /** The 6 columns of the best-hit table. */
  function BestRow(prot: string, s: Slots, lists: Lists, show: real -> string): (r: seq<string>)
    ensures |r| == 6
  {
    match Winner(s)
    case None => [Decode(prot), Scaffold(prot), "", "", "", ""]
    case Some(d) =>
      var x := SlotOf(s, d);
      [Decode(prot), Scaffold(prot), x.acc, NameOf(x, lists.names), show(x.evalue), show(x.score)]
  }

  /** The 6 columns of the AMG table. */
  function AmgRow(prot: string, s: Slots, lists: Lists, show: real -> string): (r: seq<string>)
    ensures |r| == 6
  {
    var k := SlotColumns(s.kegg, show);
    [Decode(prot), Scaffold(prot), k[0], NameOf(s.kegg, lists.names), k[1], k[2]]
  }

  /** A line of a tab-separated table. */
  function TsvLine(fields: seq<string>): string {
    Join(fields, "\t") + "\n"
  }

  /** The first two columns of every row are the decoded protein name and
      its scaffold, which is the whole name when it has no `_` and otherwise
      the part before the last `_`. */
  lemma ProteinColumns(prot: string)
    ensures Scaffold(prot) <= Decode(prot)
    ensures !Contains(Decode(prot), "_") ==> Scaffold(prot) == Decode(prot)
    ensures Contains(Decode(prot), "_") ==>
      exists tail :: Decode(prot) == Scaffold(prot) + "_" + tail && '_' !in tail
  {
    var d := Decode(prot);
    BeforeLastIsPrefix(d, "_");
    var r := RSplitOnce(d, "_");
    if |r| == 2 {
      RSplitTailAvoids(d, '_');
      assert d == Scaffold(prot) + "_" + r[1];
    }
  }

  /** The best row repeats the full row's columns for the winning database,
      and the AMG row the KEGG columns; an AMG is exactly a listed KEGG hit. */
  lemma RowsAgree(prot: string, s: Slots, lists: Lists, show: real -> string)
    ensures var f := FullRow(prot, s, lists, show);
      var b := BestRow(prot, s, lists, show);
      b[..2] == f[..2] &&
      (Winner(s) == None ==> b[2..] == ["", "", "", ""]) &&
      (Winner(s) == Some(HmmParse.KEGG) ==> b[2..] == [f[2], f[4], f[5], f[6]]) &&
      (Winner(s) == Some(HmmParse.Pfam) ==> b[2..] == [f[8], f[9], f[10], f[11]]) &&
      (Winner(s) == Some(HmmParse.VOG) ==> b[2..] == [f[13], f[14], f[15], f[16]])
    ensures var f := FullRow(prot, s, lists, show);
      AmgRow(prot, s, lists, show) == [f[0], f[1], f[2], f[4], f[5], f[6]]
    ensures AmgFlag(s, lists.amgs) == "AMG" <==> Present(s.kegg) && s.kegg.acc in lists.amgs
  {
  }

  /** Without a hit for a database its name and weight columns are empty;
      a hit whose accession has no entry gets the name `hypothetical
      protein` and the weight `0`. */
  lemma Defaults(s: Slot, lists: Lists, show: real -> string)
    ensures !Present(s) ==> NameOf(s, lists.names) == "" && WeightOf(s, lists.cats, show) == ""
    ensures Present(s) && s.acc !in lists.names ==> NameOf(s, lists.names) == "hypothetical protein"
    ensures Present(s) && s.acc !in lists.cats ==> WeightOf(s, lists.cats, show) == "0"
    ensures Present(s) && s.acc in lists.names ==> NameOf(s, lists.names) == lists.names[s.acc]
  {
  }

  /** A row read back from its line: tab-free columns split back apart. */
  lemma TsvLineFields(fields: seq<string>)
    requires |fields| >= 1
    requires forall i :: 0 <= i < |fields| ==> '\t' !in fields[i] && '\n' !in fields[i]
    ensures Split(Strip(TsvLine(fields), {'\n'}), '\t') == fields
  {
    var line := TsvLine(fields);
    assert line[..|line| - 1] == Join(fields, "\t");
    JoinAvoids(fields, "\t", '\n');
    StripOneTrailing(line, '\n');
    SplitJoin(fields, '\t');
  }

  /** What the three tables hold: the rows written to each, one line
      (`TsvLine`) per row. */
  datatype Output = Output(full: seq<seq<string>>, best: seq<seq<string>>, amgs: seq<seq<string>>)

  /** The AMG rows of some proteins, in order. */
  function AmgRows(prots: seq<string>, annos: map<string, Slots>, lists: Lists, show: real -> string): (r: seq<seq<string>>)
    ensures |r| <= |prots|
  {
    if prots == [] then []
    else
      var n := |prots| - 1;
      var s := Entry(annos, prots[n]);
      AmgRows(prots[..n], annos, lists, show) +
        (if AmgFlag(s, lists.amgs) == "AMG" then [AmgRow(prots[n], s, lists, show)] else [])
  }

  /** The rows written for one protein. */
  function RowsFor(prot: string, annos: map<string, Slots>, lists: Lists, show: real -> string): Output {
    var s := Entry(annos, prot);
    Output([FullRow(prot, s, lists, show)], [BestRow(prot, s, lists, show)],
           if AmgFlag(s, lists.amgs) == "AMG" then [AmgRow(prot, s, lists, show)] else [])
  }

  /** The loop over the proteins, protein by protein. */
  function Tables(prots: seq<string>, annos: map<string, Slots>, lists: Lists, show: real -> string): Output {
    if prots == [] then Output([], [], [])
    else
      var o := Tables(prots[..|prots| - 1], annos, lists, show);
      var x := RowsFor(prots[|prots| - 1], annos, lists, show);
      Output(o.full + x.full, o.best + x.best, o.amgs + x.amgs)
  }

  /** One full and one best row per protein, in order. */
  lemma TablesShape(prots: seq<string>, annos: map<string, Slots>, lists: Lists, show: real -> string)
    ensures |Tables(prots, annos, lists, show).full| == |prots|
    ensures |Tables(prots, annos, lists, show).best| == |prots|
    ensures forall i :: 0 <= i < |prots| ==>
      Tables(prots, annos, lists, show).full[i] == FullRow(prots[i], Entry(annos, prots[i]), lists, show) &&
      Tables(prots, annos, lists, show).best[i] == BestRow(prots[i], Entry(annos, prots[i]), lists, show)
  {
    TablesImage(prots, annos, lists, show);
  }

  /** `f` applied to every element, in order. */
  function Image<T, U>(xs: seq<T>, f: T -> U): (r: seq<U>)
    ensures |r| == |xs|
    ensures forall i :: 0 <= i < |xs| ==> r[i] == f(xs[i])
  {
    if xs == [] then [] else Image(xs[..|xs| - 1], f) + [f(xs[|xs| - 1])]
  }

  /** The full row of a protein, as a function of the protein. */
  function FullOf(annos: map<string, Slots>, lists: Lists, show: real -> string): string -> seq<string> {
    p => FullRow(p, Entry(annos, p), lists, show)
  }

  /** The best row of a protein, as a function of the protein. */
  function BestOf(annos: map<string, Slots>, lists: Lists, show: real -> string): string -> seq<string> {
    p => BestRow(p, Entry(annos, p), lists, show)
  }

  /** The full and best tables are the rows of the proteins, in order. */
  lemma {:induction false} TablesImage(prots: seq<string>, annos: map<string, Slots>, lists: Lists, show: real -> string)
    ensures Tables(prots, annos, lists, show).full == Image(prots, FullOf(annos, lists, show))
    ensures Tables(prots, annos, lists, show).best == Image(prots, BestOf(annos, lists, show))
  {
    if prots != [] {
      TablesImage(prots[..|prots| - 1], annos, lists, show);
    }
  }

  /** The AMG table has a row exactly for the AMGs among the proteins, in order. */
  lemma {:induction false} TablesAmgs(prots: seq<string>, annos: map<string, Slots>, lists: Lists, show: real -> string)
    ensures Tables(prots, annos, lists, show).amgs == AmgRows(prots, annos, lists, show)
  {
    if prots != [] {
      TablesAmgs(prots[..|prots| - 1], annos, lists, show);
    }
  }

  /** What `write_annos` starts from: the reference tables, the `.accnos`
      file and the hits per protein, built by the first three steps in
      order; the first exception stops the run. */
  datatype Inputs = Inputs(lists: Lists, accnos: string, annos: map<string, Slots>)

  function InputsOf(namesText: string, amgsText: string, catsText: string, faa: string, form: string,
                    kegg: string, pfam: string, vog: string, parse: string -> Option<real>): Result<Inputs, Failure>
  {
    match ListsOf(namesText, amgsText, catsText, parse)
    case Err(e) => Err(e)
    case Ok(lists) =>
      match AccnosText(faa, form)
      case Err(e) => Err(e)
      case Ok(accnos) =>
        match AnnotationsOf(kegg, pfam, vog, parse)
        case Err(e) => Err(e)
        case Ok(annos) => Ok(Inputs(lists, accnos, annos))
  }

  /** `Annotations(base, folder, aux, form)`: the four steps in order. */
  function Annotate(namesText: string, amgsText: string, catsText: string, faa: string, form: string,
                    kegg: string, pfam: string, vog: string,
                    parse: string -> Option<real>, show: real -> string): Result<Output, Failure>
  {
    match InputsOf(namesText, amgsText, catsText, faa, form, kegg, pfam, vog, parse)
    case Err(e) => Err(e)
    case Ok(x) => Ok(Tables(ReadNames(x.accnos), x.annos, x.lists, show))
  }

  /** A successful run writes one full and one best row for each header of
      the FASTA file, in file order, each for the protein that header names. */
  lemma AnnotateRows(namesText: string, amgsText: string, catsText: string, faa: string, form: string,
                     kegg: string, pfam: string, vog: string,
                     parse: string -> Option<real>, show: real -> string)
    requires Annotate(namesText, amgsText, catsText, faa, form, kegg, pfam, vog, parse, show).Ok?
    ensures var out := Annotate(namesText, amgsText, catsText, faa, form, kegg, pfam, vog, parse, show).value;
      var heads := HeaderTexts(Lines(faa));
      var lists := ListsOf(namesText, amgsText, catsText, parse).value;
      var annos := AnnotationsOf(kegg, pfam, vog, parse).value;
      |out.full| == |heads| && |out.best| == |heads| &&
      forall i :: 0 <= i < |heads| ==>
        out.full[i] == FullRow(Accession(heads[i], form), Entry(annos, Accession(heads[i], form)), lists, show) &&
        out.best[i] == BestRow(Accession(heads[i], form), Entry(annos, Accession(heads[i], form)), lists, show)
  {
    AccnosNames(faa, form);
    var accnos := AccnosText(faa, form).value;
    var heads := HeaderTexts(Lines(faa));
    var lists := ListsOf(namesText, amgsText, catsText, parse).value;
    var annos := AnnotationsOf(kegg, pfam, vog, parse).value;
    var prots := ReadNames(accnos);
    var out := Tables(prots, annos, lists, show);
    assert Annotate(namesText, amgsText, catsText, faa, form, kegg, pfam, vog, parse, show).value == out;
    TablesShape(prots, annos, lists, show);
    forall i | 0 <= i < |heads|
      ensures out.full[i] == FullRow(Accession(heads[i], form), Entry(annos, Accession(heads[i], form)), lists, show)
      ensures out.best[i] == BestRow(Accession(heads[i], form), Entry(annos, Accession(heads[i], form)), lists, show)
    {
      assert prots[i] == Accession(heads[i], form);
    }
  }

  // ---------------------------------------------------------------------
  // The steps as the class runs them

  /** One more record adds its accession line. */
  lemma AccnosStep(rs: seq<Record>, form: string, i: nat)
    requires i < |rs|
    ensures WriteNames(RecordNames(rs[..i + 1], form)) ==
      WriteNames(RecordNames(rs[..i], form)) + Accession(rs[i].header, form) + "\n"
  {
    var name := Accession(rs[i].header, form);
    assert RecordNames(rs[..i + 1], form) == RecordNames(rs[..i], form) + [name];
    WriteNamesSnoc(RecordNames(rs[..i], form), name);
  }

  /** One more protein adds its rows. */
  lemma TablesStep(prots: seq<string>, i: nat, annos: map<string, Slots>, lists: Lists, show: real -> string)
    requires i < |prots|
    ensures var o, x := Tables(prots[..i], annos, lists, show), RowsFor(prots[i], annos, lists, show);
      Tables(prots[..i + 1], annos, lists, show) == Output(o.full + x.full, o.best + x.best, o.amgs + x.amgs)
  {
    assert prots[..i + 1][..i] == prots[..i];
  }

  /** One more name adds one line to the `.accnos` text. */
  lemma WriteNamesSnoc(names: seq<string>, name: string)
    ensures WriteNames(names + [name]) == WriteNames(names) + name + "\n"
  {
    var all := names + [name];
    var ls := seq(|all|, i requires 0 <= i < |all| => all[i] + "\n");
    assert ls[..|names|] == seq(|names|, i requires 0 <= i < |names| => names[i] + "\n");
  }

  /** One more row: its error, or the map with the row entered. */
  lemma CollectStep(annos: map<string, Slots>, lines: seq<string>, j: nat,
                    db: HmmParse.Database, parse: string -> Option<real>)
    requires j < |lines| && Collect(annos, lines[..j], db, parse).Ok?
    ensures ReadRow(lines[j], parse).Err? ==> Collect(annos, lines[..j + 1], db, parse) == Err(ReadRow(lines[j], parse).error)
    ensures ReadRow(lines[j], parse).Ok? ==>
      Collect(annos, lines[..j + 1], db, parse) == Ok(Enter(Collect(annos, lines[..j], db, parse).value, db, ReadRow(lines[j], parse).value))
  {
    assert lines[..j + 1][..j] == lines[..j];
  }

  /** Once a row fails to read, the rest of the table does not change the error. */
  lemma {:induction false} CollectErrStays(annos: map<string, Slots>, lines: seq<string>, k: nat,
                                           db: HmmParse.Database, parse: string -> Option<real>)
    requires k <= |lines| && Collect(annos, lines[..k], db, parse).Err?
    ensures Collect(annos, lines, db, parse) == Collect(annos, lines[..k], db, parse)
    decreases |lines|
  {
    if k < |lines| {
      var front := lines[..|lines| - 1];
      assert front[..k] == lines[..k];
      CollectErrStays(annos, front, k, db, parse);
    } else {
      assert lines[..k] == lines;
    }
  }

  /** The loop of `make_accnos`: one line per record. */
  method WriteAccnos(rs: seq<Record>, form: string) returns (text: string)
    ensures text == WriteNames(RecordNames(rs, form))
  {
    text := [];
    var i := 0;
    while i < |rs|
      invariant 0 <= i <= |rs|
      invariant text == WriteNames(RecordNames(rs[..i], form))
    {
      var name := Accession(rs[i].header, form);
      AccnosStep(rs, form, i);
      text := text + name + "\n";
      i := i + 1;
    }
    assert rs[..i] == rs;
  }

  /** The loop of `write_annos` over the lines of the `.accnos` file. */
  method WriteTables(lines: seq<string>, annos: map<string, Slots>, lists: Lists, show: real -> string) returns (out: Output)
    ensures out == Tables(Stripped(lines), annos, lists, show)
  {
    ghost var prots := Stripped(lines);
    out := Output([], [], []);
    var i := 0;
    while i < |lines|
      invariant 0 <= i <= |lines|
      invariant out == Tables(prots[..i], annos, lists, show)
    {
      var prot := Strip(lines[i], {'\n'});
      var x := RowsFor(prot, annos, lists, show);
      TablesStep(prots, i, annos, lists, show);
      assert prot == prots[i];
      out := Output(out.full + x.full, out.best + x.best, out.amgs + x.amgs);
      i := i + 1;
    }
    assert prots[..i] == prots;
  }

  /** The state of an `Annotations` object: the reference tables, the
      `.accnos` file, the hits per protein, and the rows of the three
      output tables. */
  class Annotator {
    const form: string
    var names: map<string, string>
    var amgs: set<string>
    var cats: map<string, real>
    var accnos: string
    var annotations: map<string, Slots>
    var full: seq<seq<string>>
    var best: seq<seq<string>>
    var metabolic: seq<seq<string>>

    constructor(form: string)
      ensures this.form == form
      ensures names == map[] && amgs == {} && cats == map[] && accnos == [] && annotations == map[]
      ensures full == [] && best == [] && metabolic == []
    {
      this.form := form;
      names, amgs, cats := map[], {}, map[];
      accnos, annotations := [], map[];
      full, best, metabolic := [], [], [];
    }

    /** `get_lists`. */
    method GetLists(namesText: string, amgsText: string, catsText: string, parse: string -> Option<real>)
      returns (err: Option<Failure>)
      modifies this`names, this`amgs, this`cats
      ensures ListsOf(namesText, amgsText, catsText, parse).Err? ==>
        err == Some(ListsOf(namesText, amgsText, catsText, parse).error)
      ensures ListsOf(namesText, amgsText, catsText, parse).Ok? ==>
        err.None? && Lists(names, amgs, cats) == ListsOf(namesText, amgsText, catsText, parse).value
    {
      var n := NamesTable(namesText);
      if n.Err? {
        return Some(n.error);
      }
      names := n.value;
      var a := AmgSet(amgsText);
      if a.Err? {
        return Some(a.error);
      }
      amgs := a.value;
      var c := CategoryTable(catsText, parse);
      if c.Err? {
        return Some(c.error);
      }
      cats := c.value;
      return None;
    }

    /** `make_accnos`: the file is opened for writing first, so a FASTA
        file that fails leaves it empty. */
    method MakeAccnos(faa: string) returns (err: Option<Failure>)
      modifies this`accnos
      ensures AccnosText(faa, form).Err? ==> err == Some(AccnosText(faa, form).error) && accnos == []
      ensures AccnosText(faa, form).Ok? ==> err.None? && accnos == AccnosText(faa, form).value
    {
      accnos := [];
      var recs := ParseFasta(Lines(faa));
      if recs.Err? {
        return Some(recs.error);
      }
      accnos := WriteAccnos(recs.value, form);
      return None;
    }

    /** One block of `get_annos`: skip the header line, then enter every
        data line under its protein. */
    method Load(text: string, db: HmmParse.Database, parse: string -> Option<real>) returns (err: Option<Failure>)
      modifies this`annotations
      ensures LoadTable(old(annotations), text, db, parse).Err? ==>
        err == Some(LoadTable(old(annotations), text, db, parse).error)
      ensures LoadTable(old(annotations), text, db, parse).Ok? ==>
        err.None? && annotations == LoadTable(old(annotations), text, db, parse).value
    {
      var lines := Lines(text);
      if lines == [] {
        return Some(StopIteration);
      }
      var rows := lines[1..];
      ghost var start := annotations;
      var j := 0;
      while j < |rows|
        invariant 0 <= j <= |rows|
        invariant Collect(start, rows[..j], db, parse) == Ok(annotations)
      {
        var row := ReadRow(rows[j], parse);
        CollectStep(start, rows, j, db, parse);
        if row.Err? {
          CollectErrStays(start, rows, j + 1, db, parse);
          return Some(row.error);
        }
        annotations := Enter(annotations, db, row.value);
        j := j + 1;
      }
      assert rows[..j] == rows;
      return None;
    }

    /** `get_annos`. */
    method GetAnnos(kegg: string, pfam: string, vog: string, parse: string -> Option<real>) returns (err: Option<Failure>)
      modifies this`annotations
      ensures AnnotationsOf(kegg, pfam, vog, parse).Err? ==> err == Some(AnnotationsOf(kegg, pfam, vog, parse).error)
      ensures AnnotationsOf(kegg, pfam, vog, parse).Ok? ==>
        err.None? && annotations == AnnotationsOf(kegg, pfam, vog, parse).value
    {
      annotations := map[];
      err := Load(kegg, HmmParse.KEGG, parse);
      if err.Some? {
        return;
      }
      err := Load(pfam, HmmParse.Pfam, parse);
      if err.Some? {
        return;
      }
      err := Load(vog, HmmParse.VOG, parse);
    }

    /** `write_annos`: one pass over the `.accnos` file. */
    method WriteAnnos(show: real -> string)
      modifies this`full, this`best, this`metabolic
      ensures Output(full, best, metabolic) == Tables(ReadNames(accnos), annotations, Lists(names, amgs, cats), show)
    {
      var out := WriteTables(Lines(accnos), annotations, Lists(names, amgs, cats), show);
      full, best, metabolic := out.full, out.best, out.amgs;
    }

    /** The constructor's first three calls in order; the first exception
        ends the run. */
    method Prepare(namesText: string, amgsText: string, catsText: string, faa: string,
                   kegg: string, pfam: string, vog: string, parse: string -> Option<real>)
      returns (err: Option<Failure>)
      modifies this`names, this`amgs, this`cats, this`accnos, this`annotations
      ensures InputsOf(namesText, amgsText, catsText, faa, form, kegg, pfam, vog, parse).Err? ==>
        err == Some(InputsOf(namesText, amgsText, catsText, faa, form, kegg, pfam, vog, parse).error)
      ensures InputsOf(namesText, amgsText, catsText, faa, form, kegg, pfam, vog, parse).Ok? ==>
        err.None? &&
        Inputs(Lists(names, amgs, cats), accnos, annotations) == InputsOf(namesText, amgsText, catsText, faa, form, kegg, pfam, vog, parse).value
    {
      ghost var all := InputsOf(namesText, amgsText, catsText, faa, form, kegg, pfam, vog, parse);
      ghost var ls, acc := ListsOf(namesText, amgsText, catsText, parse), AccnosText(faa, form);
      ghost var an := AnnotationsOf(kegg, pfam, vog, parse);
      err := GetLists(namesText, amgsText, catsText, parse);
      if err.Some? {
        assert ls.Err? && all == Err(ls.error);
        return;
      }
      err := MakeAccnos(faa);
      if err.Some? {
        assert acc.Err? && all == Err(acc.error);
        return;
      }
      assert all == (if an.Err? then Err(an.error) else Ok(Inputs(ls.value, acc.value, an.value)));
      err := GetAnnos(kegg, pfam, vog, parse);
    }

    /** The constructor's four calls in order; the first exception ends the run. */
    method Run(namesText: string, amgsText: string, catsText: string, faa: string,
               kegg: string, pfam: string, vog: string,
               parse: string -> Option<real>, show: real -> string) returns (err: Option<Failure>)
      modifies this
      ensures Annotate(namesText, amgsText, catsText, faa, form, kegg, pfam, vog, parse, show).Err? ==>
        err == Some(Annotate(namesText, amgsText, catsText, faa, form, kegg, pfam, vog, parse, show).error)
      ensures Annotate(namesText, amgsText, catsText, faa, form, kegg, pfam, vog, parse, show).Ok? ==>
        err.None? &&
        Output(full, best, metabolic) == Annotate(namesText, amgsText, catsText, faa, form, kegg, pfam, vog, parse, show).value
    {
      err := Prepare(namesText, amgsText, catsText, faa, kegg, pfam, vog, parse);
      if err.Some? {
        return;
      }
      ghost var x := Inputs(Lists(names, amgs, cats), accnos, annotations);
      WriteAnnos(show);
      assert Output(full, best, metabolic) == Tables(ReadNames(x.accnos), x.annos, x.lists, show);
    }
  }
}
