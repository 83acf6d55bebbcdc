/** Reading FASTA files: the lines Python yields when it iterates over a
    file, and the `fasta_parse` generator that turns them into
    (header, sequence) records. Both copies of `fasta_parse` in the
    repository run the same algorithm. */
module Fasta {
  import opened Wrappers
  import opened Strings

  /** A line as file iteration yields it: non-empty, with a newline at most
      as its last character. */
  predicate IsLine(l: string) {
    |l| > 0 && '\n' !in l[..|l| - 1]
  }

  predicate EndsInNewline(l: string) {
    |l| > 0 && l[|l| - 1] == '\n'
  }

  /** The lines of a file: each one a line, every line but the last ending in a newline. */
  predicate FileLines(ls: seq<string>) {
    (forall i :: 0 <= i < |ls| ==> IsLine(ls[i])) &&
    (forall i :: 0 <= i < |ls| - 1 ==> EndsInNewline(ls[i]))
  }

  lemma ConcatFront(a: string, ys: seq<string>)
    ensures Concat([a] + ys) == a + Concat(ys)
  {
    ConcatAppend([a], ys);
    ConcatSingle(a);
  }

  /** `for line in open(path)`: the text cut after every newline. */
  function Lines(text: string): (r: seq<string>)
    ensures Concat(r) == text
    ensures r == [] <==> text == []
  {
    if text == [] then []
    else
      var rest := Lines(text[1..]);
      if text[0] == '\n' || rest == [] then
        ConcatFront([text[0]], rest);
        [[text[0]]] + rest
      else
        assert rest == [rest[0]] + rest[1..];
        ConcatFront(rest[0], rest[1..]);
        ConcatFront([text[0]] + rest[0], rest[1..]);
        [[text[0]] + rest[0]] + rest[1..]
  }

  /** Each piece `Lines` cuts is a line, and only the last may lack its newline. */
  lemma {:induction false} LinesAreFileLines(text: string)
    ensures FileLines(Lines(text))
  {
    if text != [] {
      var rest := Lines(text[1..]);
      LinesAreFileLines(text[1..]);
      if text[0] == '\n' || rest == [] {
        assert Lines(text) == [[text[0]]] + rest;
        LinesCons(text[0], rest);
      } else {
        assert Lines(text) == [[text[0]] + rest[0]] + rest[1..];
        LinesJoin(text[0], rest);
      }
    }
  }

  /** A newline, or a character at the very end, is a line of its own in front of the others. */
  lemma LinesCons(c: char, rest: seq<string>)
    requires FileLines(rest) && (c == '\n' || rest == [])
    ensures FileLines([[c]] + rest)
  {
    var r := [[c]] + rest;
    forall i | 0 <= i < |r| ensures IsLine(r[i]) {
      if i > 0 { assert r[i] == rest[i - 1]; }
    }
    forall i | 0 <= i < |r| - 1 ensures EndsInNewline(r[i]) {
      if i > 0 { assert r[i] == rest[i - 1]; }
    }
  }

  /** Any other character joins the first of the following lines. */
  lemma LinesJoin(c: char, rest: seq<string>)
    requires FileLines(rest) && c != '\n' && rest != []
    ensures FileLines([[c] + rest[0]] + rest[1..])
  {
    var first := [c] + rest[0];
    assert IsLine(rest[0]);
    assert first[..|first| - 1] == [c] + rest[0][..|rest[0]| - 1];
    var r := [first] + rest[1..];
    forall i | 0 <= i < |r| ensures IsLine(r[i]) {
      if i > 0 { assert r[i] == rest[i]; }
    }
    forall i | 0 <= i < |r| - 1 ensures EndsInNewline(r[i]) {
      if i > 0 { assert r[i] == rest[i]; } else { assert EndsInNewline(rest[0]); }
    }
  }

  /** A whole line followed by more text is cut off as the first line. */
  lemma {:induction false} LinesPrepend(l: string, t: string)
    requires IsLine(l) && (EndsInNewline(l) || t == [])
    ensures Lines(l + t) == [l] + Lines(t)
    decreases |l|
  {
    var text := l + t;
    assert text[1..] == l[1..] + t;
    if |l| > 1 {
      assert l[0] in l[..|l| - 1];
      assert l[1..][..|l| - 2] == l[..|l| - 1][1..];
      LinesPrepend(l[1..], t);
      var rest := Lines(text[1..]);
      assert rest[0] == l[1..] && rest[1..] == Lines(t);
      assert [l[0]] + l[1..] == l;
    } else {
      assert l == [l[0]];
      if l[0] != '\n' {
        assert t == [] && text[1..] == [];
      }
    }
  }

  /** Cutting the concatenation of a file's lines gives back those lines. */
  lemma {:induction false} LinesOfConcat(ls: seq<string>)
    requires FileLines(ls)
    ensures Lines(Concat(ls)) == ls
  {
    if ls != [] {
      var rest := ls[1..];
      assert ls == [ls[0]] + rest;
      ConcatFront(ls[0], rest);
      assert FileLines(rest);
      LinesOfConcat(rest);
      if |ls| == 1 {
        assert Concat(rest) == [];
      }
      LinesPrepend(ls[0], Concat(rest));
    }
  }

  /** A text ending in a newline has a last line ending in one. */
  lemma LastLineEnd(text: string)
    requires text != [] && text[|text| - 1] == '\n'
    ensures EndsInNewline(Lines(text)[|Lines(text)| - 1])
  {
    var r := Lines(text);
    LinesAreFileLines(text);
    assert Concat(r) == Concat(r[..|r| - 1]) + r[|r| - 1];
  }

  /** One (header, sequence) pair as the generator yields it. */
  datatype Record = Record(header: string, sequence: string)

  /** A sequence without its line breaks, `seq.replace('\n', '')`, as the
      scripts measure and write it. */
  function Bare(sequence: string): (r: string)
    ensures '\n' !in r && |r| == |sequence| - Count(sequence, '\n')
  {
    RemoveChar(sequence, '\n');
    Replace(sequence, "\n", "")
  }

  predicate IsHeaderLine(line: string) {
    |line| > 0 && line[0] == '>'
  }

  /** `line[1:].strip("\n")`. */
  function HeaderText(line: string): string
    requires |line| > 0
  {
    Strip(line[1..], {'\n'})
  }

  /** Where the generator is after some lines: before any header, inside a
      record whose earlier records are `done`, or stopped by an exception. */
  datatype State =
    | Start
    | Reading(done: seq<Record>, header: string, body: seq<string>)
    | Failed(error: Failure)

  /** One turn of the generator's loop. An empty line fails at `line[0]`; a
      sequence line before any header fails because `seq` is not yet bound. */
  function Step(st: State, line: string): State {
    if st.Failed? then st
    else if |line| == 0 then Failed(IndexError)
    else if line[0] == '>' then
      Reading(if st.Reading? then st.done + [Record(st.header, Concat(st.body))] else [], HeaderText(line), [])
    else if st.Start? then Failed(NameError)
    else Reading(st.done, st.header, st.body + [line])
  }

  /** The state after the loop has consumed `lines`. */
  function Scan(lines: seq<string>): State {
    if lines == [] then Start else Step(Scan(lines[..|lines| - 1]), lines[|lines| - 1])
  }

  /** Every record `fasta_parse` yields, or the exception it raises; an
      empty file fails at the final `yield header` with NameError. */
  function Parse(lines: seq<string>): Result<seq<Record>, Failure> {
    match Scan(lines)
    case Start => Err(NameError)
    case Failed(e) => Err(e)
    case Reading(done, h, body) => Ok(done + [Record(h, Concat(body))])
  }

  /** `fasta_parse(path)` on a file holding `text`. */
  function ParseText(text: string): Result<seq<Record>, Failure> {
    Parse(Lines(text))
  }

  /** Once the scan has failed, later lines do not change it. */
  lemma {:induction false} ScanFailedStays(lines: seq<string>, k: nat)
    requires k <= |lines| && Scan(lines[..k]).Failed?
    ensures Scan(lines) == Scan(lines[..k])
    decreases |lines| - k
  {
    if k < |lines| {
      assert lines[..k + 1][..k] == lines[..k];
      ScanFailedStays(lines, k + 1);
    } else {
      assert lines[..k] == lines;
    }
  }

  /** The generator loop over `lines`, record by record. */
  method ParseFasta(lines: seq<string>) returns (r: Result<seq<Record>, Failure>)
    ensures r == Parse(lines)
  {
    var done: seq<Record> := [];
    var header: string := [];
    var body: seq<string> := [];
    var started := false;
    var i := 0;
    while i < |lines|
      invariant 0 <= i <= |lines|
      invariant Scan(lines[..i]) == if started then Reading(done, header, body) else Start
      invariant !started ==> done == []
    {
      var line := lines[i];
      assert lines[..i + 1][..i] == lines[..i];
      assert Scan(lines[..i + 1]) == Step(Scan(lines[..i]), line);
      if |line| == 0 || (line[0] != '>' && !started) {
        ScanFailedStays(lines, i + 1);
        return if |line| == 0 then Err(IndexError) else Err(NameError);
      }
      if line[0] == '>' {
        if started {
          done := done + [Record(header, Concat(body))];
        }
        header := HeaderText(line);
        body := [];
        started := true;
      } else {
        body := body + [line];
      }
      i := i + 1;
    }
    assert lines[..i] == lines;
    if !started {
      return Err(NameError);
    }
    r := Ok(done + [Record(header, Concat(body))]);
  }

  /** The header texts of the header lines, in file order. */
  function HeaderTexts(lines: seq<string>): seq<string> {
    if lines == [] then []
    else
      var last := lines[|lines| - 1];
      HeaderTexts(lines[..|lines| - 1]) + (if IsHeaderLine(last) then [HeaderText(last)] else [])
  }

  function HeadersOf(recs: seq<Record>): (r: seq<string>)
    ensures |r| == |recs|
  {
    if recs == [] then [] else HeadersOf(recs[..|recs| - 1]) + [recs[|recs| - 1].header]
  }

  lemma {:induction false} HeadersOfIndex(recs: seq<Record>)
    ensures forall i :: 0 <= i < |recs| ==> HeadersOf(recs)[i] == recs[i].header
  {
    if recs != [] {
      HeadersOfIndex(recs[..|recs| - 1]);
    }
  }

  /** A header text holds no newline: only a line's last character may be one, and it is stripped. */
  lemma HeaderTextNoNewline(line: string)
    requires IsLine(line)
    ensures '\n' !in HeaderText(line)
  {
    var s := line[1..];
    var t := TrimLeft(s, {'\n'});
    TrimLeftShape(s, {'\n'});
    TrimRightShape(t, {'\n'});
    var r := HeaderText(line);
    forall j | 0 <= j < |r| ensures r[j] != '\n' {
      if j < |r| - 1 {
        var k := 1 + |s| - |t| + j;
        assert r[j] == line[k];
        assert line[k] == line[..|line| - 1][k];
      }
    }
  }

  /** Header texts hold no newline. */
  lemma {:induction false} HeaderTextsNoNewline(lines: seq<string>)
    requires forall i :: 0 <= i < |lines| ==> IsLine(lines[i])
    ensures forall i :: 0 <= i < |HeaderTexts(lines)| ==> '\n' !in HeaderTexts(lines)[i]
  {
    if lines != [] {
      HeaderTextsNoNewline(lines[..|lines| - 1]);
      var last := lines[|lines| - 1];
      if IsHeaderLine(last) {
        HeaderTextNoNewline(last);
      }
    }
  }

  /** Only lines without a character fail, and a non-header first line; otherwise the loop is inside a record. */
  lemma {:induction false} ScanShape(lines: seq<string>)
    requires forall i :: 0 <= i < |lines| ==> lines[i] != []
    ensures lines == [] ==> Scan(lines) == Start
    ensures lines != [] && !IsHeaderLine(lines[0]) ==> Scan(lines) == Failed(NameError)
    ensures lines != [] && IsHeaderLine(lines[0]) ==> Scan(lines).Reading?
  {
    if lines != [] {
      var p := lines[..|lines| - 1];
      ScanShape(p);
      if p != [] {
        assert p[0] == lines[0];
      }
    }
  }

  /** `fasta_parse` raises exactly when the file is empty or its first line is not a header. */
  lemma ParseFailsIff(lines: seq<string>)
    requires forall i :: 0 <= i < |lines| ==> lines[i] != []
    ensures Parse(lines).Err? <==> lines == [] || !IsHeaderLine(lines[0])
    ensures Parse(lines).Err? ==> Parse(lines).error == NameError
  {
    ScanShape(lines);
  }

  /** On a whole file: `fasta_parse` raises NameError exactly when the
      file is empty or does not start with '>'. */
  lemma ParseTextFailsIff(text: string)
    ensures ParseText(text).Err? <==> text == [] || text[0] != '>'
    ensures ParseText(text).Err? ==> ParseText(text).error == NameError
  {
    var lines := Lines(text);
    LinesAreFileLines(text);
    if text != [] {
      ConcatFront(lines[0], lines[1..]);
      assert lines == [lines[0]] + lines[1..];
      assert lines[0][0] == text[0];
    }
    ParseFailsIff(lines);
  }

  /** While a record is open, the headers of the finished records and the open one are the header lines in order. */
  lemma {:induction false} ScanHeaders(lines: seq<string>)
    requires Scan(lines).Reading?
    ensures HeadersOf(Scan(lines).done) + [Scan(lines).header] == HeaderTexts(lines)
  {
    var p := lines[..|lines| - 1];
    var last := lines[|lines| - 1];
    if Scan(p).Reading? {
      ScanHeaders(p);
      if IsHeaderLine(last) {
        var d := Scan(lines).done;
        assert d[..|d| - 1] == Scan(p).done;
      }
    }
  }

  /** One record per header line, carrying that line's header text, in file order. */
  lemma ParseHeaders(lines: seq<string>)
    requires Parse(lines).Ok?
    ensures HeadersOf(Parse(lines).value) == HeaderTexts(lines)
    ensures |Parse(lines).value| == |HeaderTexts(lines)|
  {
    ScanHeaders(lines);
    var recs := Parse(lines).value;
    assert recs[..|recs| - 1] == Scan(lines).done;
  }

  /** A record written back as `>header` and its sequence lines. */
  function Render(r: Record): string {
    ">" + r.header + "\n" + r.sequence
  }

  function Unparse(recs: seq<Record>): string {
    if recs == [] then [] else Unparse(recs[..|recs| - 1]) + Render(recs[|recs| - 1])
  }

  /** The header lines that can be written back exactly: whole lines ending in a newline. */
  predicate HeadersComplete(lines: seq<string>) {
    forall i :: 0 <= i < |lines| && IsHeaderLine(lines[i]) ==> IsLine(lines[i]) && EndsInNewline(lines[i])
  }

  lemma HeaderLineRebuilt(l: string)
    requires IsHeaderLine(l) && IsLine(l) && EndsInNewline(l)
    ensures ">" + HeaderText(l) + "\n" == l
  {
    var t := l[1..];
    assert t[..|t| - 1] == l[..|l| - 1][1..];
    StripOneTrailing(t, '\n');
  }

  lemma UnparseSnoc(recs: seq<Record>, r: Record)
    ensures Unparse(recs + [r]) == Unparse(recs) + Render(r)
  {
    assert (recs + [r])[..|recs|] == recs;
  }

  /** What a reading state writes back: its finished records and the
      record it is building. */
  function Pending(st: State): string
    requires st.Reading?
  {
    Unparse(st.done + [Record(st.header, Concat(st.body))])
  }

  /** A complete header line closes the record being built and opens one
      that is written back as that very line. */
  lemma PendingHeaderStep(q: State, line: string, c: string)
    requires !q.Failed? && (q.Reading? ==> Pending(q) == c) && (q.Start? ==> c == [])
    requires IsHeaderLine(line) && IsLine(line) && EndsInNewline(line)
    ensures Step(q, line).Reading? && Pending(Step(q, line)) == c + line
  {
    var st := Step(q, line);
    var cur := Record(st.header, Concat(st.body));
    HeaderLineRebuilt(line);
    assert Render(cur) == line;
    UnparseSnoc(st.done, cur);
    if q.Start? {
      assert st.done == [];
    }
  }

  /** A sequence line extends the record being built. */
  lemma PendingBodyStep(q: State, line: string, c: string)
    requires q.Reading? && Pending(q) == c
    requires line != [] && !IsHeaderLine(line)
    ensures Step(q, line).Reading? && Pending(Step(q, line)) == c + line
  {
    var st := Step(q, line);
    var b := Concat(q.body);
    var prev := Record(q.header, b);
    var cur := Record(q.header, b + line);
    assert st == Reading(q.done, q.header, q.body + [line]);
    ConcatSnoc(q.body, line);
    assert Record(st.header, Concat(st.body)) == cur;
    UnparseSnoc(q.done, prev);
    UnparseSnoc(q.done, cur);
    RenderExtend(q.header, b, line);
    AppendAssoc(Unparse(q.done), Render(prev), line);
  }

  /** Appending to a record's sequence appends to what it renders. */
  lemma RenderExtend(h: string, b: string, line: string)
    ensures Render(Record(h, b + line)) == Render(Record(h, b)) + line
  {
    AppendAssoc(">" + h + "\n", b, line);
  }

  /** While a record is open, the finished records and the open one give back the text read so far. */
  lemma {:induction false} ScanUnparse(lines: seq<string>)
    requires HeadersComplete(lines)
    requires Scan(lines).Reading?
    ensures Pending(Scan(lines)) == Concat(lines)
  {
    var p := lines[..|lines| - 1];
    var last := lines[|lines| - 1];
    assert lines == p + [last];
    ConcatSnoc(p, last);
    assert HeadersComplete(p);
    var q := Scan(p);
    if IsHeaderLine(last) {
      if q.Reading? {
        ScanUnparse(p);
      } else if q.Start? {
        assert p == [];
      }
      PendingHeaderStep(q, last, Concat(p));
    } else {
      ScanUnparse(p);
      PendingBodyStep(q, last, Concat(p));
    }
  }

  /** Writing the parsed records back reproduces the lines read. */
  lemma ParseUnparse(lines: seq<string>)
    requires HeadersComplete(lines)
    requires Parse(lines).Ok?
    ensures Unparse(Parse(lines).value) == Concat(lines)
  {
    ScanUnparse(lines);
  }

  /** For a file that ends in a newline, writing the parsed records back
      reproduces the file. */
  lemma ParseTextUnparse(text: string)
    requires text == [] || text[|text| - 1] == '\n'
    requires ParseText(text).Ok?
    ensures Unparse(ParseText(text).value) == text
  {
    var ls := Lines(text);
    LinesAreFileLines(text);
    assert HeadersComplete(ls) by {
      forall i | 0 <= i < |ls| ensures EndsInNewline(ls[i]) {
        if i == |ls| - 1 {
          LastLineEnd(text);
        }
      }
    }
    ParseUnparse(ls);
  }
}
