/** scripts/headers_from_fasta.py: copies the definition lines of a FASTA
    file, without their '>', to an `.accnos` file. The FASTA file is given
    as text and the file system as the set of paths that exist. */
module HeadersFromFasta {
  import opened Wrappers
  import opened Strings
  import opened Fasta

  /** The lines `extract` writes: every line starting with '>' minus that
      character, newline kept, in file order. */
  function HeaderLines(lines: seq<string>): (r: seq<string>)
    ensures |r| <= |lines|
  {
    if lines == [] then []
    else
      var last := lines[|lines| - 1];
      HeaderLines(lines[..|lines| - 1]) + (if IsHeaderLine(last) then [last[1..]] else [])
  }

  /** `extract(fasta, outfile)` on a FASTA file holding `text`. */
  function Extract(text: string): string {
    Concat(HeaderLines(Lines(text)))
  }

  /** Only header lines are copied, and every one of them is, each without
      its first character. */
  lemma {:induction false} HeaderLinesExactly(lines: seq<string>)
    ensures forall h :: h in HeaderLines(lines) ==>
      exists j :: 0 <= j < |lines| && IsHeaderLine(lines[j]) && h == lines[j][1..]
    ensures forall j :: 0 <= j < |lines| && IsHeaderLine(lines[j]) ==> lines[j][1..] in HeaderLines(lines)
  {
    if lines != [] {
      var init := lines[..|lines| - 1];
      HeaderLinesExactly(init);
      assert forall j :: 0 <= j < |init| ==> init[j] == lines[j];
      forall h | h in HeaderLines(lines)
        ensures exists j :: 0 <= j < |lines| && IsHeaderLine(lines[j]) && h == lines[j][1..]
      {
        if h in HeaderLines(init) {
          var j :| 0 <= j < |init| && IsHeaderLine(init[j]) && h == init[j][1..];
          assert lines[j] == init[j];
        } else {
          assert h == lines[|lines| - 1][1..];
        }
      }
      forall j | 0 <= j < |lines| && IsHeaderLine(lines[j]) ensures lines[j][1..] in HeaderLines(lines) {
        if j < |init| {
          assert init[j][1..] in HeaderLines(init);
        }
      }
    }
  }

  /** The copied lines are the header texts `fasta_parse` reads, each with
      its newline back, as long as every header line ends in a newline. */
  lemma {:induction false} HeaderLinesAreTexts(lines: seq<string>)
    requires HeadersComplete(lines)
    ensures |HeaderLines(lines)| == |HeaderTexts(lines)|
    ensures forall i :: 0 <= i < |HeaderLines(lines)| ==>
      HeaderLines(lines)[i] == HeaderTexts(lines)[i] + "\n" && IsLine(HeaderLines(lines)[i]) && EndsInNewline(HeaderLines(lines)[i])
  {
    if lines != [] {
      var init := lines[..|lines| - 1];
      var last := lines[|lines| - 1];
      assert HeadersComplete(init) by {
        forall j | 0 <= j < |init| && IsHeaderLine(init[j]) ensures IsLine(init[j]) && EndsInNewline(init[j]) {
          assert init[j] == lines[j];
        }
      }
      HeaderLinesAreTexts(init);
      if IsHeaderLine(last) {
        HeaderLineRebuilt(last);
        assert last == ">" + HeaderText(last) + "\n";
        assert last[1..] == HeaderText(last) + "\n";
      }
    }
  }

  /** The output has exactly one line per header line of the input, and the
      lines are the headers of the records `fasta_parse` yields. */
  lemma ExtractIsParsedHeaders(text: string)
    requires HeadersComplete(Lines(text))
    requires ParseText(text).Ok?
    ensures Lines(Extract(text)) == HeaderLines(Lines(text))
    ensures |Lines(Extract(text))| == |ParseText(text).value|
    ensures forall i :: 0 <= i < |ParseText(text).value| ==>
      Lines(Extract(text))[i] == ParseText(text).value[i].header + "\n"
  {
    var lines := Lines(text);
    HeaderLinesAreTexts(lines);
    LinesOfConcat(HeaderLines(lines));
    ParseHeaders(lines);
    HeadersOfIndex(ParseText(text).value);
  }

  /** What a run writes: the output path and its text. */
  datatype Output = Output(path: string, text: string)

  /** The output `-o`, by default the input path with its last extension
      replaced by `.accnos`. */
  function OutputPath(f: string, o: string): (r: string)
    ensures o != "" ==> r == o
    ensures o == "" ==> BeforeLast(f, ".") <= r && r[|BeforeLast(f, ".")|..] == ".accnos"
  {
    if o != "" then o else BeforeLast(f, ".") + ".accnos"
  }

  /** A run stops when the output path exists, else writes the headers. */
  function Run(f: string, o: string, present: set<string>, text: string): (r: Result<Output, Failure>)
    ensures r.Err? <==> OutputPath(f, o) in present
    ensures r.Ok? ==> r.value.path !in present && r.value.text == Extract(text)
  {
    var path := OutputPath(f, o);
    if path in present then Err(Exit("the output file already exists")) else Ok(Output(path, Extract(text)))
  }
}
