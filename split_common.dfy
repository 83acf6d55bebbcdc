/** What split_nucl.py and split_prot.py share: the nucleotide test of
    their format checks (the count of the letters A, T, C, G and N in a line,
    compared with the line's length), the file extension, the byte target
    and the text each record is written as. */
module SplitCommon {
  import opened Wrappers
  import opened Strings
  import opened Numbers

  const Nucleotides: set<char> := {'A', 'T', 'C', 'G', 'N'}

  /** The letters the format checks count, in the order they count them. */
  const Letters: seq<char> := ['A', 'T', 'C', 'G', 'N']

  /** `sum(s.count(l) for l in letters)`. */
  function CountLetters(s: string, letters: seq<char>): nat {
    if letters == [] then 0
    else CountLetters(s, letters[..|letters| - 1]) + Count(s, letters[|letters| - 1])
  }

  /** The count both checks compare with the line's length. */
  function CountNucleotides(s: string): nat {
    CountLetters(s, Letters)
  }

  /** `c = 0; for l in letters: c += seq.count(l)`. */
  method LetterCount(s: string) returns (c: nat)
    ensures c == CountNucleotides(s)
  {
    c := 0;
    var j := 0;
    while j < |Letters|
      invariant j <= |Letters|
      invariant c == CountLetters(s, Letters[..j])
    {
      assert Letters[..j + 1][..j] == Letters[..j];
      c := c + Count(s, Letters[j]);
      j := j + 1;
    }
    assert Letters[..j] == Letters;
  }

  lemma CountNucleotidesSum(s: string)
    ensures CountNucleotides(s) == Count(s, 'A') + Count(s, 'T') + Count(s, 'C') + Count(s, 'G') + Count(s, 'N')
  {
    var l4, l3, l2, l1: seq<char> := ['A', 'T', 'C', 'G'], ['A', 'T', 'C'], ['A', 'T'], ['A'];
    assert Letters[..4] == l4 && l4[..3] == l3 && l3[..2] == l2 && l2[..1] == l1 && l1[..0] == [];
    assert CountLetters(s, l1) == Count(s, 'A');
    assert CountLetters(s, l2) == CountLetters(s, l1) + Count(s, 'T');
    assert CountLetters(s, l3) == CountLetters(s, l2) + Count(s, 'C');
    assert CountLetters(s, l4) == CountLetters(s, l3) + Count(s, 'G');
  }

  /** The letter count reaches the length exactly when every character is
      one of the five upper-case letters (so an empty line passes). */
  lemma {:induction false} CountNucleotidesIff(s: string)
    ensures CountNucleotides(s) <= |s|
    ensures CountNucleotides(s) == |s| <==> AllIn(s, Nucleotides)
  {
    CountNucleotidesSum(s);
    if s != [] {
      CountNucleotidesSum(s[1..]);
      CountNucleotidesIff(s[1..]);
      assert AllIn(s, Nucleotides) <==> s[0] in Nucleotides && AllIn(s[1..], Nucleotides) by {
        if s[0] in Nucleotides && AllIn(s[1..], Nucleotides) {
          forall i | 0 <= i < |s| ensures s[i] in Nucleotides {
            if i > 0 { assert s[i] == s[1..][i - 1]; }
          }
        }
      }
    }
  }

  /** `math.ceil(size / threads)` for Python integers: ZeroDivisionError for
      no threads, and a target of at most 0 for a negative count. */
  function Target(size: nat, threads: int): (r: Result<int, Failure>)
    ensures threads == 0 <==> r.Err?
    ensures threads > 0 ==> r.Ok? && r.value * threads >= size && (r.value - 1) * threads < size
    ensures threads > 0 && size > 0 ==> r.value > 0
    ensures threads < 0 ==> r.Ok? && r.value <= 0
  {
    if threads == 0 then Err(ZeroDivisionError)
    else if threads > 0 then Ok(CeilDiv(size, threads))
    else Ok(-(size / -threads))
  }

  /** `path.rsplit('.', 1)[1]`: the extension, or IndexError without a '.'. */
  function Extension(path: string): (r: Result<string, Failure>)
    ensures r.Ok? <==> Contains(path, ".")
    ensures r.Ok? ==> '.' !in r.value && path == RSplitOnce(path, ".")[0] + "." + r.value
  {
    var parts := RSplitOnce(path, ".");
    if |parts| == 2 then
      assert '.' !in parts[1] by {
        forall j | 0 <= j < |parts[1]| ensures parts[1][j] != '.' {
          var at := |parts[0]| + 1 + j;
          assert path == parts[0] + "." + parts[1];
          assert path[at] == parts[1][j];
          assert at + 1 <= |path| && path[at..at + 1] == [parts[1][j]];
          assert !OccursAt(path, ".", at);
        }
      }
      Ok(parts[1])
    else Err(IndexError)
  }

  /** Line `i` of a file as `readline()` returns it: '' past the end. */
  function LineOr(lines: seq<string>, i: nat): string {
    if i < |lines| then lines[i] else ""
  }

  /** `f.readline().strip('\n')` for line `i`. */
  function StrippedLine(lines: seq<string>, i: nat): string {
    Strip(LineOr(lines, i), {'\n'})
  }

  /** What a finished splitter object leaves: the extension, the check
      flag, and the `split_files/` folder (absent when the check failed)
      with the contents of its shard files in index order. */
  datatype Final = Final(ext: string, check: bool, folder: Option<seq<string>>)

  /** `f'>{name}\n{seq}\n'`: one record as a shard file receives it. */
  function RecordText(name: string, sequence: string): (r: string)
    ensures |r| == |name| + |sequence| + 3 && r[0] == '>'
  {
    ">" + name + "\n" + sequence + "\n"
  }
}
