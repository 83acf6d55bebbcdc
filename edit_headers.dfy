/** scripts/edit_fasta_headers.py: rewrites every header of a FASTA file by
    one of nine methods (add the file name or a text before or after it,
    insert a text around a keyword, keep one side of a split, replace a
    text). The FASTA file is given as text and the file system as the set
    of paths that exist. */
module EditHeaders {
  import opened Wrappers
  import opened Strings
  import opened Fasta

  // ---------------------------------------------------------------------
  // Arguments

  /** `-s` with every "tab" spelled out replaced by a tab character. */
  function Separator(s: string): (r: string)
    ensures !Contains(s, "tab") ==> r == s
  {
    if Contains(s, "tab") then Replace(s, "tab", "\t") else s
  }

  /** "tab" itself stands for the tab character. */
  lemma TabSeparator()
    ensures Separator("tab") == "\t"
  {
    assert OccursAt("tab", "tab", 0);
    ContainsIff("tab", "tab");
    assert "tab"[3..] == [];
  }

  /** The default output `{stem}.edited.{ext}` beside the input; a path
      without '.' fails with IndexError. */
  function DefaultOutput(f: string): (r: Result<string, Failure>)
    ensures r.Err? <==> !Contains(f, ".")
    ensures r.Err? ==> r.error == IndexError
  {
    var parts := RSplitOnce(f, ".");
    if |parts| == 1 then Err(IndexError) else Ok(parts[0] + ".edited." + parts[1])
  }

  /** ".edited" goes in front of the last extension. */
  lemma DefaultOutputOf(stem: string, ext: string)
    requires '.' !in ext
    ensures DefaultOutput(stem + "." + ext) == Ok(stem + ".edited." + ext)
  {
    RSplitChar(stem, '.', ext);
  }

  /** `get_base` as written: `rsplit('/', 1)[0]` keeps the directory, not
      the file name, and the IndexError fallback can never fire. */
  function BaseAsWritten(f: string): string {
    BeforeLast(BeforeLast(f, "/"), ".")
  }

  /** The base `get_base` evidently means: the file name without its last
      extension. */
  function Base(f: string): string {
    BeforeLast(AfterLast(f, "/"), ".")
  }

  /** For `dir/stem.ext` the written base is the directory, while the
      intended base is `stem`; for a bare `stem.ext` both are `stem`. */
  lemma BaseOfPath(dir: string, stem: string, ext: string)
    requires '.' !in dir && '/' !in stem && '/' !in ext && '.' !in ext
    ensures BaseAsWritten(dir + "/" + (stem + "." + ext)) == dir
    ensures Base(dir + "/" + (stem + "." + ext)) == stem
    ensures BaseAsWritten(stem + "." + ext) == stem == Base(stem + "." + ext)
  {
    var file := stem + "." + ext;
    assert '/' !in file by {
      forall j | 0 <= j < |file| ensures file[j] != '/' {
        if j < |stem| { assert file[j] == stem[j]; }
        else if j > |stem| { assert file[j] == ext[j - |stem| - 1]; }
      }
    }
    RSplitChar(dir, '/', file);
    RSplitChar(stem, '.', ext);
    NotContains(dir, '.');
    BeforeLastIsPrefix(dir, ".");
    NotContains(file, '/');
    BeforeLastIsPrefix(file, "/");
    ContainsIff(file, "/");
  }

  /** The value `-s` has when methods 7 and 8 test it: the integer 0 when
      it was empty, the string otherwise. */
  datatype PartValue = Zero | Text(s: string)

  /** Python's `v == i` for that value and an integer: a string never
      equals an integer. */
  predicate EqualsInt(v: PartValue, i: int) {
    v.Zero? && i == 0
  }

  /** The part test of methods 7 and 8 as written: exit when
      `s != 0 or s != 1`, else keep part `s`. */
  function PartAsWritten(s: string): Result<int, Failure> {
    var v := if s == "" then Zero else Text(s);
    if !EqualsInt(v, 0) || !EqualsInt(v, 1) then Err(Exit("-s must be 0 or 1"))
    else Ok(0)
  }

  /** No value passes both halves of the test, so methods 7 and 8 always
      exit, with the documented default and with `-s 1` alike. */
  lemma PartAlwaysRejected(s: string)
    ensures PartAsWritten(s) == Err(Exit("-s must be 0 or 1"))
  {
  }

  /** The part methods 7 and 8 evidently mean: 0 by default, else 0 or 1;
      anything else exits. */
  function Part(s: string): (r: Result<nat, Failure>)
    ensures r.Ok? <==> s in {"", "0", "1"}
    ensures r.Ok? ==> r.value <= 1 && (r.value == 1 <==> s == "1")
  {
    if s == "" || s == "0" then Ok(0)
    else if s == "1" then Ok(1)
    else Err(Exit("-s must be 0 or 1"))
  }

  // ---------------------------------------------------------------------
  // Headers

  /** The new header of one record under method `m` (1 to 9), with the
      file base, `-a`, the separator, `-k` and the part. */
  function NewHeader(m: int, name: string, base: string, a: string, s: string, k: string, part: nat): (r: Result<string, Failure>)
    requires 1 <= m <= 9
    requires (m == 7 || m == 8) ==> a != ""
    ensures r.Err? ==> (m == 7 || m == 8) && r.error == IndexError
  {
    if m == 1 then Ok(base + s + name)
    else if m == 2 then Ok(name + s + base)
    else if m == 3 then Ok(a + s + name)
    else if m == 4 then Ok(name + s + a)
    else if m == 5 then Ok(Replace(name, k, s + a + s + k))
    else if m == 6 then Ok(Replace(name, k, k + s + a + s))
    else if m == 9 then Ok(Replace(name, s, a))
    else
      var parts := if m == 7 then SplitOnce(name, a) else RSplitOnce(name, a);
      if part < |parts| then Ok(parts[part]) else Err(IndexError)
  }

  /** Methods 5 and 6 leave a header without the keyword as it is, and
      method 9 one without the replaced text. */
  lemma KeywordAbsent(m: int, name: string, base: string, a: string, s: string, k: string, part: nat)
    requires m == 5 || m == 6 || m == 9
    requires (m == 9 ==> s != "" && !Contains(name, s)) && (m != 9 ==> k != "" && !Contains(name, k))
    ensures NewHeader(m, name, base, a, s, k, part) == Ok(name)
  {
    if m == 9 {
      ReplaceAbsent(name, s, a);
    } else {
      ReplaceAbsent(name, k, if m == 5 then s + a + s + k else k + s + a + s);
    }
  }

  /** Method 9 replacing a text by itself leaves the header as it is. */
  lemma ReplaceBySelf(name: string, base: string, s: string, k: string, part: nat)
    requires s != ""
    ensures NewHeader(9, name, base, s, s, k, part) == Ok(name)
  {
    ReplaceSame(name, s);
  }

  /** When the split text occurs, methods 7 and 8 keep one of two parts
      that join back into the header around it. */
  lemma SplitParts(m: int, name: string, base: string, a: string, s: string, k: string)
    requires (m == 7 || m == 8) && a != "" && Contains(name, a)
    ensures NewHeader(m, name, base, a, s, k, 0).Ok? && NewHeader(m, name, base, a, s, k, 1).Ok?
    ensures NewHeader(m, name, base, a, s, k, 0).value + a + NewHeader(m, name, base, a, s, k, 1).value == name
  {
  }

  /** Without the split text, part 0 is the whole header and part 1 fails. */
  lemma SplitAbsent(m: int, name: string, base: string, a: string, s: string, k: string)
    requires (m == 7 || m == 8) && a != "" && !Contains(name, a)
    ensures NewHeader(m, name, base, a, s, k, 0) == Ok(name)
    ensures NewHeader(m, name, base, a, s, k, 1) == Err(IndexError)
  {
  }

  /** Every record rewritten, in order: `>{header}\n{seq}\n`, so each
      written sequence gains a newline; the first failing header stops. */
  function Edited(recs: seq<Record>, m: int, base: string, a: string, s: string, k: string, part: nat): (r: Result<seq<Record>, Failure>)
    requires 1 <= m <= 9
    requires (m == 7 || m == 8) ==> a != ""
    ensures r.Ok? ==> |r.value| == |recs|
    ensures r.Ok? ==> forall i :: 0 <= i < |recs| ==>
      Ok(r.value[i].header) == NewHeader(m, recs[i].header, base, a, s, k, part) &&
      r.value[i].sequence == recs[i].sequence + "\n"
    ensures r.Err? <==> exists i :: 0 <= i < |recs| && NewHeader(m, recs[i].header, base, a, s, k, part).Err?
  {
    if recs == [] then Ok([])
    else
      match NewHeader(m, recs[0].header, base, a, s, k, part)
      case Err(e) => Err(e)
      case Ok(h) =>
        match Edited(recs[1..], m, base, a, s, k, part)
        case Err(e) =>
          assert forall i :: 1 <= i < |recs| ==> recs[1..][i - 1] == recs[i];
          Err(e)
        case Ok(rest) =>
          assert forall i :: 1 <= i < |recs| ==> recs[1..][i - 1] == recs[i];
          Ok([Record(h, recs[0].sequence + "\n")] + rest)
  }

  // ---------------------------------------------------------------------
  // The run

  /** What a run writes: the output path and its text. */
  datatype Output = Output(path: string, text: string)

  /** What the argument checks settle: the output path and the part kept
      by methods 7 and 8 (0 for the others). */
  datatype Settings = Settings(path: string, part: nat)

  /** The checks `Edit(f, o, m, a, s, k)` makes before it reads the FASTA
      file, in the script's order: the output path and whether it exists,
      `-a` for methods 3 to 9, `-k` for methods 5 and 6, and the part test
      for methods 7 and 8 (the corrected one). */
  function Checked(f: string, o: string, m: int, a: string, s: string, k: string,
                   present: set<string>): (r: Result<Settings, Failure>)
    ensures r.Ok? <==>
      (if o == "" then DefaultOutput(f).Ok? && DefaultOutput(f).value !in present else o !in present) &&
      (m >= 3 ==> a != "") && ((m == 5 || m == 6) ==> k != "") &&
      ((m == 7 || m == 8) ==> Part(Separator(s)).Ok?)
    ensures r.Ok? ==> r.value.path == (if o == "" then DefaultOutput(f).value else o)
    ensures r.Ok? ==> r.value.part == (if m == 7 || m == 8 then Part(Separator(s)).value else 0)
  {
    var sep := Separator(s);
    var path := if o == "" then DefaultOutput(f) else Ok(o);
    if path.Err? then Err(path.error)
    else if path.value in present then Err(Exit("The output file already exists"))
    else if m >= 3 && a == "" then Err(Exit("-a is required with -m (except -m 1/2)"))
    else if (m == 5 || m == 6) && k == "" then Err(Exit("-k keyword is required"))
    else if (m == 7 || m == 8) && Part(sep).Err? then Err(Part(sep).error)
    else Ok(Settings(path.value, if m == 7 || m == 8 then Part(sep).value else 0))
  }

  /** `Edit(f, o, m, a, s, k)` on a FASTA file holding `text`: the checks,
      then the rewritten records; methods 1 and 2 use the corrected base
      and methods 7 and 8 the corrected part test. It succeeds exactly
      when the checks pass, the file parses and every header can be
      rewritten, and then writes the rewritten records to the output
      path. */
  function Edit(f: string, o: string, m: int, a: string, s: string, k: string,
                present: set<string>, text: string): (r: Result<Output, Failure>)
    requires 1 <= m <= 9
    ensures r.Ok? <==>
      Checked(f, o, m, a, s, k, present).Ok? && ParseText(text).Ok? &&
      Edited(ParseText(text).value, m, Base(f), a, Separator(s), k, Checked(f, o, m, a, s, k, present).value.part).Ok?
    ensures r.Ok? ==> text != [] && text[0] == '>'
    ensures r.Ok? ==> r.value == Output(Checked(f, o, m, a, s, k, present).value.path,
      Unparse(Edited(ParseText(text).value, m, Base(f), a, Separator(s), k, Checked(f, o, m, a, s, k, present).value.part).value))
  {
    ParseTextFailsIff(text);
    match Checked(f, o, m, a, s, k, present)
    case Err(e) => Err(e)
    case Ok(settings) =>
      match ParseText(text)
      case Err(e) => Err(e)
      case Ok(recs) =>
        match Edited(recs, m, Base(f), a, Separator(s), k, settings.part)
        case Err(e) => Err(e)
        case Ok(out) => Ok(Output(settings.path, Unparse(out)))
  }
}
