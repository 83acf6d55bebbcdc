/** scripts/count_sequence_length.py: a table with one row per FASTA record
    giving its header and the length of its sequence without line breaks.
    The FASTA file is given as text and the table is returned as text. */
module CountLength {
  import opened Wrappers
  import opened Strings
  import opened Numbers
  import opened Fasta

  /** The first line of every table. */
  const Heading: string := "sequence\tlength\n"

  /** `f'{name}\t{length}\n'`. */
  function LengthRow(name: string, n: nat): string {
    name + "\t" + NatToString(n) + "\n"
  }

  /** The row of a record, its length counted without line breaks. */
  function Row(r: Record): string {
    LengthRow(r.header, |Bare(r.sequence)|)
  }

  /** The row lines of the records, in input order. */
  function RowLines(recs: seq<Record>): (r: seq<string>)
    ensures |r| == |recs|
    ensures forall i :: 0 <= i < |recs| ==> r[i] == Row(recs[i])
  {
    if recs == [] then [] else RowLines(recs[..|recs| - 1]) + [Row(recs[|recs| - 1])]
  }

  /** What `count_length` leaves in the output file, and the exception that
      stopped it, if any. The heading is written before the FASTA file is
      read, so a file that does not start with a header leaves only the
      heading. */
  datatype Counted = Counted(text: string, error: Option<Failure>)

  function CountLengths(fasta: string): (r: Counted)
    ensures Heading <= r.text
    ensures r.error.Some? <==> fasta == [] || fasta[0] != '>'
    ensures r.error.Some? ==> r.error.value == NameError && r.text == Heading
    ensures r.error.None? ==> ParseText(fasta).Ok? && r.text == Concat([Heading] + RowLines(ParseText(fasta).value))
  {
    ParseTextFailsIff(fasta);
    match ParseText(fasta)
    case Err(e) => Counted(Heading, Some(e))
    case Ok(recs) =>
      ConcatFront(Heading, RowLines(recs));
      Counted(Heading + Concat(RowLines(recs)), None)
  }

  /** Reading one row back: the line without its newline, split at tabs,
      with the second field as an integer. */
  function ReadRow(line: string): Option<(string, int)> {
    var fields := Split(Strip(line, {'\n'}), '\t');
    if |fields| == 2 && ParseInt(fields[1]).Ok? then Some((fields[0], ParseInt(fields[1]).value)) else None
  }

  /** A row of a header without tabs or newlines reads back as the header
      and the sequence's length without line breaks. */
  lemma RowReadsBack(r: Record)
    requires '\t' !in r.header && '\n' !in r.header
    ensures IsLine(Row(r)) && EndsInNewline(Row(r))
    ensures ReadRow(Row(r)) == Some((r.header, |Bare(r.sequence)|))
  {
    var n := NatToString(|Bare(r.sequence)|);
    var row := Row(r);
    var body := r.header + "\t" + n;
    assert row == body + "\n";
    assert body == row[..|row| - 1];
    assert '\n' !in n by {
      forall j | 0 <= j < |n| ensures n[j] != '\n' { assert IsDigit(n[j]); }
    }
    assert '\t' !in n by {
      forall j | 0 <= j < |n| ensures n[j] != '\t' { assert IsDigit(n[j]); }
    }
    assert '\n' !in body by {
      forall j | 0 <= j < |body| ensures body[j] != '\n' {
        if j < |r.header| { assert body[j] == r.header[j]; }
        else if j > |r.header| { assert body[j] == n[j - |r.header| - 1]; }
      }
    }
    StripOneTrailing(row, '\n');
    SplitJoin([r.header, n], '\t');
    assert Join([r.header, n], ['\t']) == body by {
      assert [r.header, n][1..] == [n];
    }
    ParseIntOfString(|Bare(r.sequence)|);
  }

  /** The heading is one whole line. */
  lemma HeadingIsLine()
    ensures IsLine(Heading) && EndsInNewline(Heading)
  {
    assert Heading[..|Heading| - 1] == "sequence\tlength";
  }

  /** The table's lines are the heading and one row per record, and each
      row reads back as its record's header and length, in input order. */
  lemma {:induction false} TableReadsBack(recs: seq<Record>)
    requires forall i :: 0 <= i < |recs| ==> '\t' !in recs[i].header && '\n' !in recs[i].header
    ensures Lines(Concat([Heading] + RowLines(recs))) == [Heading] + RowLines(recs)
    ensures forall i :: 0 <= i < |recs| ==>
      ReadRow(RowLines(recs)[i]) == Some((recs[i].header, |Bare(recs[i].sequence)|))
  {
    var rows := RowLines(recs);
    var ls := [Heading] + rows;
    HeadingIsLine();
    forall i | 0 <= i < |rows| ensures IsLine(rows[i]) && EndsInNewline(rows[i]) {
      RowReadsBack(recs[i]);
    }
    assert FileLines(ls) by {
      forall i | 0 <= i < |ls| ensures IsLine(ls[i]) && EndsInNewline(ls[i]) {
        if i > 0 { assert ls[i] == rows[i - 1]; }
      }
    }
    LinesOfConcat(ls);
    forall i | 0 <= i < |recs|
      ensures ReadRow(rows[i]) == Some((recs[i].header, |Bare(recs[i].sequence)|))
    {
      RowReadsBack(recs[i]);
    }
  }
}
