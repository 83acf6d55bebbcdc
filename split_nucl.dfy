/** split_nucl.py: checks that a nucleotide FASTA file really holds
    nucleotides, then spreads its records over at most `threads` shard
    files `split_files/1.ext`, `2.ext`, ... of roughly equal size. */
module SplitNucl {
  import opened Wrappers
  import opened Strings
  import opened Fasta
  import opened Placeholder
  import opened Sharding
  import opened SplitCommon

  /** `check_format`: StopIteration for an empty file; otherwise whether
      the second line holds nothing but A, T, C, G and N (a missing or empty
      second line passes). */
  function FormatCheck(lines: seq<string>): (r: Result<bool, Failure>)
    ensures r.Err? <==> lines == []
    ensures r.Err? ==> r.error == StopIteration
    ensures r.Ok? ==> (r.value <==> AllIn(StrippedLine(lines, 1), Nucleotides))
  {
    if lines == [] then Err(StopIteration)
    else
      var line := StrippedLine(lines, 1);
      CountNucleotidesIff(line);
      Ok(CountNucleotides(line) == |line|)
  }

  /** Each parsed record as the splitter appends it: spaces of the name
      replaced by the placeholder, grouping not used. */
  function Items(recs: seq<Record>): seq<Item> {
    seq(|recs|, i requires 0 <= i < |recs| => Item(RecordText(Encode(recs[i].header), recs[i].sequence), ""))
  }

  /** The whole constructor on an input file holding `text`, or the
      exception it raises. */
  function Outcome(infile: string, text: string, threads: int): Result<Final, Failure> {
    match Extension(infile)
    case Err(e) => Err(e)
    case Ok(ext) =>
      match FormatCheck(Lines(text))
      case Err(e) => Err(e)
      case Ok(passed) =>
        if !passed then Ok(Final(ext, false, None))
        else
          match Target(|text|, threads)
          case Err(e) => Err(e)
          case Ok(target) =>
            match ParseText(text)
            case Err(e) => Err(e)
            case Ok(recs) => Ok(Final(ext, true, Some(Distribute(Items(recs), target, threads, false).shards)))
  }

  /** The check fails exactly for a named, non-empty file whose second line
      is not pure A/T/C/G/N, and then no split folder exists; when it
      passes, the folder does. */
  lemma Rejects(infile: string, text: string, threads: int)
    ensures (Outcome(infile, text, threads).Ok? && !Outcome(infile, text, threads).value.check) <==>
      (Contains(infile, ".") && text != [] && !AllIn(StrippedLine(Lines(text), 1), Nucleotides))
    ensures Outcome(infile, text, threads).Ok? ==>
      (Outcome(infile, text, threads).value.folder.None? <==> !Outcome(infile, text, threads).value.check)
  {
    assert Lines(text) == [] <==> text == [];
  }

  /** The errors: IndexError for a file name without '.', StopIteration for
      an empty file, ZeroDivisionError for no threads (only once the check
      passed), NameError when the file does not start with a header. */
  lemma Errors(infile: string, text: string, threads: int)
    ensures !Contains(infile, ".") ==> Outcome(infile, text, threads) == Err(IndexError)
    ensures Contains(infile, ".") && text == [] ==> Outcome(infile, text, threads) == Err(StopIteration)
    ensures Contains(infile, ".") && text != [] && AllIn(StrippedLine(Lines(text), 1), Nucleotides) && threads == 0 ==>
      Outcome(infile, text, threads) == Err(ZeroDivisionError)
    ensures Contains(infile, ".") && text != [] && AllIn(StrippedLine(Lines(text), 1), Nucleotides) && threads != 0 && text[0] != '>' ==>
      Outcome(infile, text, threads) == Err(NameError)
  {
    ParseTextFailsIff(text);
  }

  /** When the check passed, the records parsed, the target exists and the
      folder holds the distribution of the records. */
  lemma Passed(infile: string, text: string, threads: int)
    requires Outcome(infile, text, threads).Ok? && Outcome(infile, text, threads).value.check
    ensures ParseText(text).Ok? && |ParseText(text).value| > 0 && Target(|text|, threads).Ok?
    ensures threads > 0 ==> Target(|text|, threads).value > 0
    ensures Outcome(infile, text, threads).value.folder ==
      Some(Distribute(Items(ParseText(text).value), Target(|text|, threads).value, threads, false).shards)
  {
    assert text != [];
  }

  /** When the check passes, the shard files are consecutive runs of the
      records, each record written once and in input order; there is at
      least one and at most `threads` of them; and every shard but the last
      holds at least the byte target, yet less than the target plus its own
      final record. */
  lemma Shards(recs: seq<Record>, target: int, threads: int)
    requires |recs| > 0 && (threads > 0 ==> target > 0)
    ensures 1 <= |Distribute(Items(recs), target, threads, false).shards| <= (if threads < 1 then 1 else threads)
    ensures Concat(Distribute(Items(recs), target, threads, false).shards) == TextRange(Items(recs), 0, |recs|)
    ensures Blocks(|recs|, Distribute(Items(recs), target, threads, false))
    ensures Contents(Items(recs), |recs|, Distribute(Items(recs), target, threads, false))
    ensures ClosedFull(Distribute(Items(recs), target, threads, false), target)
    ensures threads > 0 ==> Tight(Items(recs), |recs|, Distribute(Items(recs), target, threads, false), target, threads)
  {
    var items := Items(recs);
    DistributeShape(items, target, threads, false);
    if threads > 0 {
      PrefixTight(items, |items|, target, threads);
    }
  }

  /** The `SplitNucl` object: the input file (given by its name and its
      text), the thread count, and what the constructor sets. `folder` is
      the `split_files/` directory: None before `os.mkdir`, then the shard
      files' contents in index order. */
  class Splitter {
    const infile: string
    const text: string
    const threads: int
    var ext: string
    var check: bool
    var size: int
    var folder: Option<seq<string>>

    /** The attribute assignments before the first call that can raise. */
    constructor (infile: string, text: string, threads: int)
      ensures this.infile == infile && this.text == text && this.threads == threads
      ensures ext == "" && check && size == 0 && folder == None
    {
      this.infile := infile;
      this.text := text;
      this.threads := threads;
      ext := "";
      check := true;
      size := 0;
      folder := None;
    }

    /** `check_format`: may only clear `check`. */
    method CheckFormat() returns (r: Result<(), Failure>)
      modifies this`check
      ensures FormatCheck(Lines(text)).Err? ==> r == Err(FormatCheck(Lines(text)).error) && check == old(check)
      ensures FormatCheck(Lines(text)).Ok? ==> r == Ok(()) && check == (old(check) && FormatCheck(Lines(text)).value)
    {
      var lines := Lines(text);
      if lines == [] {
        return Err(StopIteration);
      }
      var line := StrippedLine(lines, 1);
      var c := LetterCount(line);
      if c != |line| {
        check := false;
      }
      CountNucleotidesIff(line);
      return Ok(());
    }

    /** `bytes_per_file`: the byte target from the input file's size. */
    method BytesPerFile() returns (r: Result<(), Failure>)
      modifies this`size
      ensures r.Ok? <==> Target(|text|, threads).Ok?
      ensures r.Ok? ==> size == Target(|text|, threads).value
      ensures r.Err? ==> r.error == ZeroDivisionError && size == old(size)
    {
      var t := Target(|text|, threads);
      if t.Err? {
        return Err(t.error);
      }
      size := t.value;
      return Ok(());
    }

    /** `splitter`: every record appended to the shard files in turn. */
    method Splitter() returns (r: Result<(), Failure>)
      requires folder == Some([])
      modifies this`size, this`folder, this`check
      ensures Target(|text|, threads).Err? ==> r == Err(ZeroDivisionError)
      ensures Target(|text|, threads).Ok? && ParseText(text).Err? ==> r == Err(ParseText(text).error)
      ensures Target(|text|, threads).Ok? && ParseText(text).Ok? ==>
        r == Ok(()) && check && folder == Some(Distribute(Items(ParseText(text).value), Target(|text|, threads).value, threads, false).shards)
    {
      r := BytesPerFile();
      if r.Err? {
        return;
      }
      var recs := ParseFasta(Lines(text));
      if recs.Err? {
        return Err(recs.error);
      }
      var shards := Shard(Items(recs.value), size, threads, false);
      folder := Some(shards);
      check := true;
      return Ok(());
    }

    /** The rest of the constructor: the extension, the check, and, when
      it passes, the split folder and the shards. */
    method Init() returns (r: Result<(), Failure>)
      requires ext == "" && check && folder == None
      modifies this`ext, this`check, this`size, this`folder
      ensures Outcome(infile, text, threads) == if r.Err? then Err(r.error) else Ok(Final(ext, check, folder))
    {
      var e := Extension(infile);
      if e.Err? {
        return Err(e.error);
      }
      ext := e.value;
      r := CheckFormat();
      if r.Err? || !check {
        return;
      }
      folder := Some([]);
      r := Splitter();
    }
  }
}
