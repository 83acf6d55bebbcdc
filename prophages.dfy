/** scripts/prophages_from_vibrant.py: cuts the prophage fragments VIBRANT
    predicted out of their scaffolds, using its coordinates table. The
    table and the FASTA file are given as their lines. */
module Prophages {
  import opened Wrappers
  import opened Strings
  import opened Numbers
  import opened Fasta

  // ---------------------------------------------------------------------
  // The coordinates table

  /** One prophage: its fragment name and 1-based inclusive coordinates. */
  datatype Fragment = Fragment(frag: string, start: int, stop: int)

  /** `line.strip('\n').split('\t')`: never empty, so the `if not line`
      guard never skips a row. */
  function Fields(line: string): (r: seq<string>)
    ensures |r| >= 1
  {
    Split(Strip(line, {'\n'}), '\t')
  }

  /** One row: the scaffold in column 0, the fragment in column 1, start
      and stop in columns 5 and 6, read in that order. */
  function ParseRow(line: string): (r: Result<(string, Fragment), Failure>)
    ensures r.Ok? <==> |Fields(line)| >= 7 && ParseInt(Fields(line)[5]).Ok? && ParseInt(Fields(line)[6]).Ok?
    ensures r.Ok? ==> r.value.0 == Fields(line)[0] && r.value.1.frag == Fields(line)[1]
    ensures r.Ok? ==> Ok(r.value.1.start) == ParseInt(Fields(line)[5]) && Ok(r.value.1.stop) == ParseInt(Fields(line)[6])
    ensures r.Err? ==> r.error == IndexError || r.error == ValueError
    ensures |Fields(line)| < 6 ==> r == Err(IndexError)
  {
    var f := Fields(line);
    if |f| < 6 then Err(IndexError)
    else
      match ParseInt(f[5])
      case Err(e) => Err(e)
      case Ok(start) =>
        if |f| < 7 then Err(IndexError)
        else
          match ParseInt(f[6])
          case Err(e) => Err(e)
          case Ok(stop) => Ok((f[0], Fragment(f[1], start, stop)))
  }

  /** A blank row fails at `line[1]`. */
  lemma BlankRowFails()
    ensures ParseRow("\n") == Err(IndexError)
    ensures ParseRow("") == Err(IndexError)
  {
    assert Strip("\n", {'\n'}) == [];
    assert Strip("", {'\n'}) == [];
  }

  /** The entries of a scaffold, `coords.get(name, [])`. */
  function Get(coords: map<string, seq<Fragment>>, name: string): seq<Fragment> {
    if name in coords then coords[name] else []
  }

  /** `coords` after the rows, each row appended to its scaffold's list with
      `setdefault(name, []).append(...)`; the first bad row stops. */
  function Coords(rows: seq<string>): (r: Result<map<string, seq<Fragment>>, Failure>)
    ensures r.Ok? <==> forall i :: 0 <= i < |rows| ==> ParseRow(rows[i]).Ok?
  {
    if rows == [] then Ok(map[])
    else
      var init := rows[..|rows| - 1];
      assert forall i :: 0 <= i < |init| ==> init[i] == rows[i];
      match Coords(init)
      case Err(e) => Err(e)
      case Ok(m) =>
        match ParseRow(rows[|rows| - 1])
        case Err(e) => Err(e)
        case Ok(row) => Ok(m[row.0 := Get(m, row.0) + [row.1]])
  }

  lemma {:induction false} CoordsFailedStays(rows: seq<string>, k: nat)
    requires k <= |rows| && Coords(rows[..k]).Err?
    ensures Coords(rows) == Coords(rows[..k])
    decreases |rows| - k
  {
    if k < |rows| {
      assert rows[..k + 1][..k] == rows[..k];
      CoordsFailedStays(rows, k + 1);
    } else {
      assert rows[..k] == rows;
    }
  }

  /** One more row: the first bad row is the error, a good one is appended
      to its scaffold's list. */
  lemma CoordsSnoc(rows: seq<string>, i: nat)
    requires i < |rows| && Coords(rows[..i]).Ok?
    ensures ParseRow(rows[i]).Err? ==> Coords(rows[..i + 1]) == Err(ParseRow(rows[i]).error)
    ensures ParseRow(rows[i]).Ok? ==>
      var m, row := Coords(rows[..i]).value, ParseRow(rows[i]).value;
      Coords(rows[..i + 1]) == Ok(m[row.0 := Get(m, row.0) + [row.1]])
  {
    assert rows[..i + 1][..i] == rows[..i];
    assert rows[..i + 1][i] == rows[i];
  }

  /** `get_coords`: the header row is skipped with `next`, which raises
      StopIteration on an empty table. */
  method GetCoords(lines: seq<string>) returns (r: Result<map<string, seq<Fragment>>, Failure>)
    ensures lines == [] ==> r == Err(StopIteration)
    ensures lines != [] ==> r == Coords(lines[1..])
  {
    if |lines| == 0 {
      return Err(StopIteration);
    }
    var rows := lines[1..];
    var coords: map<string, seq<Fragment>> := map[];
    for i := 0 to |rows|
      invariant Coords(rows[..i]) == Ok(coords)
    {
      CoordsSnoc(rows, i);
      var row := ParseRow(rows[i]);
      if row.Err? {
        CoordsFailedStays(rows, i + 1);
        return Err(row.error);
      }
      var name := row.value.0;
      coords := coords[name := (if name in coords then coords[name] else []) + [row.value.1]];
    }
    assert rows[..|rows|] == rows;
    return Ok(coords);
  }

  /** The rows of one scaffold, in table order. */
  function RowsOf(rows: seq<string>, name: string): seq<Fragment> {
    if rows == [] then []
    else
      var last := ParseRow(rows[|rows| - 1]);
      RowsOf(rows[..|rows| - 1], name) + (if last.Ok? && last.value.0 == name then [last.value.1] else [])
  }

  /** Each scaffold holds exactly its own rows, in table order, and only
      scaffolds with a row are present. */
  lemma {:induction false} CoordsGroups(rows: seq<string>, name: string)
    requires Coords(rows).Ok?
    ensures Get(Coords(rows).value, name) == RowsOf(rows, name)
    ensures name in Coords(rows).value <==> RowsOf(rows, name) != []
  {
    if rows != [] {
      CoordsGroups(rows[..|rows| - 1], name);
    }
  }

  // ---------------------------------------------------------------------
  // The scaffolds

  /** The script's own `fasta_parse` joins each sequence line stripped of
      '\n'. */
  function StrippedLines(body: seq<string>): string {
    if body == [] then [] else StrippedLines(body[..|body| - 1]) + Strip(body[|body| - 1], {'\n'})
  }

  /** For file lines that is the joined lines without their newlines, so
      the scaffolds are the records of `fasta_parse` with their sequences
      made bare. */
  lemma {:induction false} StrippedIsBare(body: seq<string>)
    requires forall i :: 0 <= i < |body| ==> IsLine(body[i])
    ensures StrippedLines(body) == Bare(Concat(body))
  {
    if body != [] {
      var init := body[..|body| - 1];
      var l := body[|body| - 1];
      StrippedIsBare(init);
      assert body == init + [l];
      ConcatSnoc(init, l);
      RemoveCharAppend(Concat(init), l, '\n');
      StrippedLine(l);
    }
  }

  /** Stripping '\n' from one line removes its line break. */
  lemma StrippedLine(l: string)
    requires IsLine(l)
    ensures Strip(l, {'\n'}) == Bare(l)
  {
    if l[|l| - 1] == '\n' {
      var a := l[..|l| - 1];
      assert l == a + "\n";
      RemoveCharAppend(a, "\n", '\n');
      ReplaceAbsentChar(a, '\n', []);
      if a == [] {
        assert TrimLeft(l, {'\n'}) == [];
      } else {
        StripOneTrailing(l, '\n');
      }
    } else {
      assert '\n' !in l by {
        assert l == l[..|l| - 1] + [l[|l| - 1]];
      }
      ReplaceAbsentChar(l, '\n', []);
      StripUntouched(l, {'\n'});
    }
  }

  function BareRecords(recs: seq<Record>): (r: seq<Record>)
    ensures |r| == |recs|
    ensures forall i :: 0 <= i < |recs| ==> r[i] == Record(recs[i].header, Bare(recs[i].sequence))
  {
    if recs == [] then [] else BareRecords(recs[..|recs| - 1]) + [Record(recs[|recs| - 1].header, Bare(recs[|recs| - 1].sequence))]
  }

  // ---------------------------------------------------------------------
  // Excision

  /** `seq[start-1:stop]` written as `>{frag}\n{excise}\n`. */
  function Excise(sequence: string, f: Fragment): Record {
    Record(f.frag, Slice(sequence, f.start - 1, f.stop) + "\n")
  }

  function Cut(scaffold: Record, frags: seq<Fragment>): (r: seq<Record>)
    ensures |r| == |frags|
    ensures forall j :: 0 <= j < |frags| ==> r[j] == Excise(scaffold.sequence, frags[j])
  {
    if frags == [] then []
    else
      var front := frags[..|frags| - 1];
      assert forall j :: 0 <= j < |front| ==> front[j] == frags[j];
      Cut(scaffold, front) + [Excise(scaffold.sequence, frags[|frags| - 1])]
  }

  /** `main`: scaffolds in FASTA order, each followed by its fragments in
      table order. */
  function Excised(scaffolds: seq<Record>, coords: map<string, seq<Fragment>>): seq<Record> {
    if scaffolds == [] then []
    else
      var last := scaffolds[|scaffolds| - 1];
      Excised(scaffolds[..|scaffolds| - 1], coords) + Cut(last, Get(coords, last.header))
  }

  /** Total number of coordinate entries of the scaffolds. */
  function Entries(scaffolds: seq<Record>, coords: map<string, seq<Fragment>>): nat {
    if scaffolds == [] then 0
    else Entries(scaffolds[..|scaffolds| - 1], coords) + |Get(coords, scaffolds[|scaffolds| - 1].header)|
  }

  /** One output record per coordinate entry of a scaffold in the file, and
      each output record is the excised part of such a scaffold. */
  lemma ExcisedExactly(scaffolds: seq<Record>, coords: map<string, seq<Fragment>>)
    ensures |Excised(scaffolds, coords)| == Entries(scaffolds, coords)
    ensures forall i, f :: 0 <= i < |scaffolds| && f in Get(coords, scaffolds[i].header) ==>
      Excise(scaffolds[i].sequence, f) in Excised(scaffolds, coords)
    ensures forall o :: o in Excised(scaffolds, coords) ==>
      exists i, f :: 0 <= i < |scaffolds| && f in Get(coords, scaffolds[i].header) && o == Excise(scaffolds[i].sequence, f)
  {
    ExcisedCount(scaffolds, coords);
    ExcisedCovers(scaffolds, coords);
    ExcisedFrom(scaffolds, coords);
  }

  lemma {:induction false} ExcisedCount(scaffolds: seq<Record>, coords: map<string, seq<Fragment>>)
    ensures |Excised(scaffolds, coords)| == Entries(scaffolds, coords)
  {
    if scaffolds != [] {
      ExcisedCount(scaffolds[..|scaffolds| - 1], coords);
    }
  }

  lemma {:induction false} ExcisedCovers(scaffolds: seq<Record>, coords: map<string, seq<Fragment>>)
    ensures forall i, f :: 0 <= i < |scaffolds| && f in Get(coords, scaffolds[i].header) ==>
      Excise(scaffolds[i].sequence, f) in Excised(scaffolds, coords)
  {
    if scaffolds != [] {
      var init := scaffolds[..|scaffolds| - 1];
      var last := scaffolds[|scaffolds| - 1];
      ExcisedCovers(init, coords);
      var cut := Cut(last, Get(coords, last.header));
      assert Excised(scaffolds, coords) == Excised(init, coords) + cut;
      forall i, f | 0 <= i < |scaffolds| && f in Get(coords, scaffolds[i].header)
        ensures Excise(scaffolds[i].sequence, f) in Excised(scaffolds, coords)
      {
        if i == |scaffolds| - 1 {
          var j :| 0 <= j < |Get(coords, last.header)| && Get(coords, last.header)[j] == f;
          assert cut[j] == Excise(last.sequence, f);
        } else {
          assert init[i] == scaffolds[i];
        }
      }
    }
  }

  lemma {:induction false} ExcisedFrom(scaffolds: seq<Record>, coords: map<string, seq<Fragment>>)
    ensures forall o :: o in Excised(scaffolds, coords) ==>
      exists i, f :: 0 <= i < |scaffolds| && f in Get(coords, scaffolds[i].header) && o == Excise(scaffolds[i].sequence, f)
  {
    if scaffolds != [] {
      var init := scaffolds[..|scaffolds| - 1];
      var last := scaffolds[|scaffolds| - 1];
      ExcisedFrom(init, coords);
      var cut := Cut(last, Get(coords, last.header));
      assert Excised(scaffolds, coords) == Excised(init, coords) + cut;
      forall o | o in Excised(scaffolds, coords)
        ensures exists i, f :: 0 <= i < |scaffolds| && f in Get(coords, scaffolds[i].header) && o == Excise(scaffolds[i].sequence, f)
      {
        if o in Excised(init, coords) {
          var i, f :| 0 <= i < |init| && f in Get(coords, init[i].header) && o == Excise(init[i].sequence, f);
          assert scaffolds[i] == init[i];
        } else {
          var frags := Get(coords, last.header);
          var j :| 0 <= j < |cut| && cut[j] == o;
          var n := |scaffolds| - 1;
          assert frags[j] in Get(coords, scaffolds[n].header) && o == Excise(scaffolds[n].sequence, frags[j]);
        }
      }
    }
  }

  /** A scaffold without coordinates adds nothing. */
  lemma NoCoordsNothing(scaffolds: seq<Record>, s: Record, coords: map<string, seq<Fragment>>)
    requires s.header !in coords
    ensures Excised(scaffolds + [s], coords) == Excised(scaffolds, coords)
  {
    assert (scaffolds + [s])[..|scaffolds|] == scaffolds;
  }

  /** With coordinates inside the scaffold, the fragment is exactly the
      bases from `start` to `stop`, both included. */
  lemma ExciseInside(sequence: string, f: Fragment)
    requires 1 <= f.start <= f.stop <= |sequence|
    ensures Excise(sequence, f).sequence == sequence[f.start - 1..f.stop] + "\n"
    ensures |Excise(sequence, f).sequence| == f.stop - f.start + 2
  {
    SliceOneBased(sequence, f.start, f.stop);
  }

  // ---------------------------------------------------------------------
  // The run

  /** `Methods(l, f, o)`: the table is read first, then the scaffolds
      streamed and their fragments written. */
  method Run(table: seq<string>, fasta: seq<string>) returns (r: Result<string, Failure>)
    ensures table == [] ==> r == Err(StopIteration)
    ensures r.Err? <==> table == [] || Coords(table[1..]).Err? || Parse(fasta).Err?
    ensures r.Ok? ==> (table != [] && Coords(table[1..]).Ok? && Parse(fasta).Ok? &&
      r.value == Unparse(Excised(BareRecords(Parse(fasta).value), Coords(table[1..]).value)))
  {
    var coords := GetCoords(table);
    if coords.Err? {
      return Err(coords.error);
    }
    var recs := ParseFasta(fasta);
    if recs.Err? {
      return Err(recs.error);
    }
    return Ok(Unparse(Excised(BareRecords(recs.value), coords.value)));
  }
}
