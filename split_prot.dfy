/** split_prot.py: checks that a protein FASTA file looks like Prodigal
    output (a '_'-numbered first name, a first sequence line that is not
    pure nucleotides), writes a copy with normalised names, and spreads the
    copy's records over at most `threads` shard files without separating
    neighbouring proteins of one scaffold. */
module SplitProt {
  import opened Wrappers
  import opened Strings
  import opened Fasta
  import opened Placeholder
  import opened Sharding
  import opened SplitCommon

  /** The first line cut at its first ' # ' (Prodigal's annotation separator). */
  function FirstName(lines: seq<string>): string {
    BeforeFirst(StrippedLine(lines, 0), " # ")
  }

  /** `check_format`: the first name must contain '_' (`rsplit('_', 1)`
      gives two parts), and the second line must not be pure A/T/C/G/N (an
      empty or missing line counts as pure). Reading never raises here. */
  function FormatCheck(lines: seq<string>): (ok: bool)
    ensures ok <==> Contains(FirstName(lines), "_") && !AllIn(StrippedLine(lines, 1), Nucleotides)
  {
    var base := RSplitOnce(FirstName(lines), "_");
    var line := StrippedLine(lines, 1);
    CountNucleotidesIff(line);
    |base| != 1 && CountNucleotides(line) != |line|
  }

  /** `name.split(' # ', 1)[0].replace(" ", "$~&")`. */
  function NormalName(header: string): string {
    Encode(BeforeFirst(header, " # "))
  }

  /** A normalised name is a single space-free token that lies within the
      original header, and decoding it gives back the part before ' # '. */
  lemma NormalNameShape(header: string)
    ensures ' ' !in NormalName(header) && !Contains(NormalName(header), " # ")
    ensures |NormalName(header)| == |BeforeFirst(header, " # ")| + 2 * Count(BeforeFirst(header, " # "), ' ')
    ensures BeforeFirst(header, " # ") <= header
    ensures !HasMarker(BeforeFirst(header, " # ")) ==> Decode(NormalName(header)) == BeforeFirst(header, " # ")
  {
    var name := BeforeFirst(header, " # ");
    EncodeHasNoSpace(name);
    BeforeFirstIsPrefix(header, " # ");
    var n := NormalName(header);
    ContainsIff(n, " # ");
    forall j: nat ensures !OccursAt(n, " # ", j) {
      NoOccurrence(n, " # ", j);
    }
    if !HasMarker(name) {
      DecodeEncode(name);
    }
  }

  /** The text of the copy `remake_file` writes: every record with its
      normalised name, in order. */
  function Remade(recs: seq<Record>): string {
    Concat(RemadeTexts(recs))
  }

  /** The record texts of the copy, one per record. */
  function RemadeTexts(recs: seq<Record>): seq<string> {
    seq(|recs|, i requires 0 <= i < |recs| => RecordText(NormalName(recs[i].header), recs[i].sequence))
  }

  /** The group of a record: its name without the last '_'-suffix (the
      scaffold a Prodigal protein comes from). */
  function Group(name: string): string {
    BeforeLast(name, "_")
  }

  /** Each record of the copy as the splitter appends it, with its group. */
  function Items(recs: seq<Record>): seq<Item> {
    seq(|recs|, i requires 0 <= i < |recs| => Item(RecordText(recs[i].header, recs[i].sequence), Group(recs[i].header)))
  }

  /** The whole constructor on an input file holding `text`, or the
      exception it raises. */
  function Outcome(infile: string, text: string, threads: int): Result<Final, Failure> {
    match Extension(infile)
    case Err(e) => Err(e)
    case Ok(ext) =>
      if !FormatCheck(Lines(text)) then Ok(Final(ext, false, None))
      else
        match ParseText(text)
        case Err(e) => Err(e)
        case Ok(recs) =>
          match ShardFiles(recs, threads)
          case Err(e) => Err(e)
          case Ok(files) => Ok(Final(ext, true, Some(files)))
  }

  /** `splitter` after the copy of `recs` is written: the byte target from
      the copy's size, then the copy's records spread over the shards. */
  function ShardFiles(recs: seq<Record>, threads: int): Result<seq<string>, Failure> {
    var copy := Remade(recs);
    match Target(|copy|, threads)
    case Err(e) => Err(e)
    case Ok(target) =>
      match ParseText(copy)
      case Err(e) => Err(e)
      case Ok(copied) => Ok(Distribute(Items(copied), target, threads, true).shards)
  }

  /** The check fails exactly for a named file whose first name has no '_'
      or whose second line is pure A/T/C/G/N, and then no split folder
      exists; when it passes, the folder does. */
  lemma Rejects(infile: string, text: string, threads: int)
    ensures (Outcome(infile, text, threads).Ok? && !Outcome(infile, text, threads).value.check) <==>
      (Contains(infile, ".") && !(Contains(FirstName(Lines(text)), "_") && !AllIn(StrippedLine(Lines(text), 1), Nucleotides)))
    ensures Outcome(infile, text, threads).Ok? ==>
      (Outcome(infile, text, threads).value.folder.None? <==> !Outcome(infile, text, threads).value.check)
  {
  }

  /** An empty file is rejected, not an error: both of its lines read as ''. */
  lemma EmptyFileRejected(infile: string, threads: int)
    requires Contains(infile, ".")
    ensures Outcome(infile, "", threads).Ok? && !Outcome(infile, "", threads).value.check
  {
    var lines := Lines("");
    assert lines == [];
    assert StrippedLine(lines, 0) == "" by { StripUntouched("", {'\n'}); }
    BeforeFirstIsPrefix("", " # ");
    ContainsIff("", "_");
  }

  /** The copy of a parsed file starts with a header, so reading it back
      never raises. */
  lemma RemadeParses(recs: seq<Record>)
    requires |recs| > 0
    ensures |Remade(recs)| > 0 && Remade(recs)[0] == '>'
    ensures ParseText(Remade(recs)).Ok?
  {
    var texts := RemadeTexts(recs);
    assert texts == [texts[0]] + texts[1..];
    ConcatFront(texts[0], texts[1..]);
    ParseTextFailsIff(Remade(recs));
  }

  /** The errors: IndexError for a file name without '.', NameError when
      the check passes on a file that does not start with a header, and
      ZeroDivisionError for no threads once the copy exists. */
  lemma Errors(infile: string, text: string, threads: int)
    ensures !Contains(infile, ".") ==> Outcome(infile, text, threads) == Err(IndexError)
    ensures Contains(infile, ".") && FormatCheck(Lines(text)) && (text == [] || text[0] != '>') ==>
      Outcome(infile, text, threads) == Err(NameError)
    ensures Contains(infile, ".") && FormatCheck(Lines(text)) && text != [] && text[0] == '>' && threads == 0 ==>
      Outcome(infile, text, threads) == Err(ZeroDivisionError)
  {
    ParseTextFailsIff(text);
    if text != [] && text[0] == '>' {
      ShardFilesOfCopy(ParseText(text).value, threads);
    }
  }

  /** When the check passed, the file parsed and the folder holds the
      shards of its copy. */
  lemma Passed(infile: string, text: string, threads: int)
    requires Outcome(infile, text, threads).Ok? && Outcome(infile, text, threads).value.check
    ensures ParseText(text).Ok? && |ParseText(text).value| > 0
    ensures ShardFiles(ParseText(text).value, threads).Ok?
    ensures Outcome(infile, text, threads).value.folder == Some(ShardFiles(ParseText(text).value, threads).value)
  {
  }

  /** For a parsed file the copy always reads back, so the only error left
      is ZeroDivisionError; the shards are the distribution of the copy's
      records under a target that is positive when `threads` is. */
  lemma ShardFilesOfCopy(recs: seq<Record>, threads: int)
    requires |recs| > 0
    ensures ParseText(Remade(recs)).Ok? && |ParseText(Remade(recs)).value| > 0
    ensures ShardFiles(recs, threads).Err? <==> threads == 0
    ensures ShardFiles(recs, threads).Err? ==> ShardFiles(recs, threads).error == ZeroDivisionError
    ensures threads > 0 ==> Target(|Remade(recs)|, threads).value > 0
    ensures ShardFiles(recs, threads).Ok? ==>
      ShardFiles(recs, threads).value ==
        Distribute(Items(ParseText(Remade(recs)).value), Target(|Remade(recs)|, threads).value, threads, true).shards
  {
    RemadeParses(recs);
    ParseTextFailsIff(Remade(recs));
  }

  /** The shard files are consecutive runs of the copy's records, each
      written once and in order; there is at least one and at most
      `threads` of them; every shard but the last holds at least the target;
      and a shard after the first starts where the group changes, so
      neighbouring records of one group always share a shard. */
  lemma Shards(recs: seq<Record>, target: int, threads: int)
    requires |recs| > 0
    ensures 1 <= |Distribute(Items(recs), target, threads, true).shards| <= (if threads < 1 then 1 else threads)
    ensures Concat(Distribute(Items(recs), target, threads, true).shards) == TextRange(Items(recs), 0, |recs|)
    ensures Blocks(|recs|, Distribute(Items(recs), target, threads, true))
    ensures Contents(Items(recs), |recs|, Distribute(Items(recs), target, threads, true))
    ensures ClosedFull(Distribute(Items(recs), target, threads, true), target)
    ensures GroupChangesAtStarts(Items(recs), Distribute(Items(recs), target, threads, true))
  {
    var items := Items(recs);
    DistributeShape(items, target, threads, true);
    PrefixGroupBoundary(items, |items|, target, threads);
  }

  /** The `SplitProt` object: the input file (its name and text), the
      thread count, and what the constructor sets. `copy` is the temporary
      normalised file (None when absent); `folder` is `split_files/`. */
  class Splitter {
    const infile: string
    const text: string
    const threads: int
    var ext: string
    var check: bool
    var size: int
    var copy: Option<string>
    var folder: Option<seq<string>>

    /** The attribute assignments before the first call that can raise. */
    constructor (infile: string, text: string, threads: int)
      ensures this.infile == infile && this.text == text && this.threads == threads
      ensures ext == "" && check && size == 0 && copy == None && folder == None
    {
      this.infile := infile;
      this.text := text;
      this.threads := threads;
      ext := "";
      check := true;
      size := 0;
      copy := None;
      folder := None;
    }

    /** `check_format`: may only clear `check`. */
    method CheckFormat()
      modifies this`check
      ensures check == (old(check) && FormatCheck(Lines(text)))
    {
      var lines := Lines(text);
      var base := RSplitOnce(FirstName(lines), "_");
      if |base| == 1 {
        check := false;
      }
      var line := StrippedLine(lines, 1);
      var c := LetterCount(line);
      if c == |line| {
        check := false;
      }
    }

    /** `remake_file`: the copy with normalised names. */
    method RemakeFile() returns (r: Result<(), Failure>)
      modifies this`copy
      ensures ParseText(text).Err? ==> r == Err(ParseText(text).error)
      ensures ParseText(text).Ok? ==> r == Ok(()) && copy == Some(Remade(ParseText(text).value))
    {
      var recs := ParseFasta(Lines(text));
      if recs.Err? {
        return Err(recs.error);
      }
      copy := Some(Remade(recs.value));
      return Ok(());
    }

    /** `bytes_per_file`: the byte target from the copy's size. */
    method BytesPerFile() returns (r: Result<(), Failure>)
      requires copy.Some?
      modifies this`size
      ensures r.Ok? <==> Target(|copy.value|, threads).Ok?
      ensures r.Ok? ==> size == Target(|copy.value|, threads).value
      ensures r.Err? ==> r.error == ZeroDivisionError
    {
      var t := Target(|copy.value|, threads);
      if t.Err? {
        return Err(t.error);
      }
      size := t.value;
      return Ok(());
    }

    /** `splitter`: the copy's records appended to the shard files in turn,
        then the copy removed. */
    method Splitter() returns (r: Result<(), Failure>)
      requires folder == Some([])
      modifies this`size, this`copy, this`folder, this`check
      ensures ParseText(text).Err? ==> r == Err(ParseText(text).error)
      ensures ParseText(text).Ok? && ShardFiles(ParseText(text).value, threads).Err? ==>
        r == Err(ShardFiles(ParseText(text).value, threads).error)
      ensures ParseText(text).Ok? && ShardFiles(ParseText(text).value, threads).Ok? ==>
        r == Ok(()) && check && copy == None && folder == Some(ShardFiles(ParseText(text).value, threads).value)
    {
      r := RemakeFile();
      if r.Err? {
        return;
      }
      r := BytesPerFile();
      if r.Err? {
        return;
      }
      var copied := ParseFasta(Lines(copy.value));
      if copied.Err? {
        return Err(copied.error);
      }
      var shards := Shard(Items(copied.value), size, threads, true);
      folder := Some(shards);
      check := true;
      copy := None;
      return Ok(());
    }

    /** The rest of the constructor: the extension, the check, and, when
        it passes, the split folder and the shards. */
    method Init() returns (r: Result<(), Failure>)
      requires ext == "" && check && folder == None
      modifies this`ext, this`check, this`size, this`copy, this`folder
      ensures Outcome(infile, text, threads) == if r.Err? then Err(r.error) else Ok(Final(ext, check, folder))
    {
      var e := Extension(infile);
      if e.Err? {
        return Err(e.error);
      }
      ext := e.value;
      CheckFormat();
      if !check {
        return Ok(());
      }
      folder := Some([]);
      r := Splitter();
    }
  }
}
