/** scripts/split_hmms_to_files.py: cuts a file of concatenated HMM models
    into one file per model, named after the model's NAME or ACC line. The
    input is given as its lines and the written files as a map from path
    to contents. */
module SplitHmms {
  import opened Strings
  import opened Numbers
  import Fasta

  // ---------------------------------------------------------------------
  // Lines

  /** `line[:3] == prefix or line[:4] == prefix`. */
  predicate IsNameLine(line: string, prefix: string) {
    Slice(line, 0, 3) == prefix || Slice(line, 0, 4) == prefix
  }

  /** `line[:2] == '//'`, the end of a model. */
  predicate IsEnd(line: string) {
    Slice(line, 0, 2) == "//"
  }

  /** A line that writes a model: an end line that is not a name line,
      since the name test comes first. */
  predicate IsFlush(line: string, prefix: string) {
    !IsNameLine(line, prefix) && IsEnd(line)
  }

  /** `line.strip('\n').split(' ')[-1]`. */
  function NameOf(line: string): string {
    var fields := Split(Strip(line, {'\n'}), ' ');
    fields[|fields| - 1]
  }

  /** The file a model named `name` is written to. */
  function PathOf(folder: string, name: string): string {
    folder + name + ".hmm"
  }

  // ---------------------------------------------------------------------
  // The loop as a specification

  /** The loop's variables after some lines: the buffered body lines, the
      current name, and every file written so far, in order. */
  datatype State = State(buffer: seq<string>, name: string, writes: seq<(string, string)>)

  const Initial: State := State([], "FAILED", [])

  /** One turn of the loop: a name line renames, an end line writes the
      buffered lines and "//" and empties the buffer, any other line is
      buffered. */
  function Step(st: State, line: string, folder: string, prefix: string): State {
    if IsNameLine(line, prefix) then st.(name := NameOf(line))
    else if IsEnd(line) then State([], st.name, st.writes + [(PathOf(folder, st.name), Concat(st.buffer) + "//")])
    else st.(buffer := st.buffer + [line])
  }

  function ScanFrom(st: State, lines: seq<string>, folder: string, prefix: string): State {
    if lines == [] then st
    else Step(ScanFrom(st, lines[..|lines| - 1], folder, prefix), lines[|lines| - 1], folder, prefix)
  }

  /** The files as they stand after the writes: a later write to the same
      path replaces the earlier one. */
  function Files(writes: seq<(string, string)>): map<string, string> {
    if writes == [] then map[]
    else Files(writes[..|writes| - 1])[writes[|writes| - 1].0 := writes[|writes| - 1].1]
  }

  /** `split_hmms(infile, folder, prefix)`: the files it leaves. */
  method SplitModels(lines: seq<string>, folder: string, prefix: string) returns (files: map<string, string>)
    ensures files == Files(ScanFrom(Initial, lines, folder, prefix).writes)
  {
    var buffer: seq<string> := [];
    var name := "FAILED";
    files := map[];
    ghost var writes: seq<(string, string)> := [];
    for i := 0 to |lines|
      invariant State(buffer, name, writes) == ScanFrom(Initial, lines[..i], folder, prefix)
      invariant files == Files(writes)
    {
      assert lines[..i + 1][..i] == lines[..i];
      var line := lines[i];
      if IsNameLine(line, prefix) {
        name := NameOf(line);
      } else if IsEnd(line) {
        var content := Concat(buffer) + "//";
        files := files[PathOf(folder, name) := content];
        ghost var before := writes;
        writes := writes + [(PathOf(folder, name), content)];
        assert writes[..|writes| - 1] == before;
        buffer := [];
      } else {
        buffer := buffer + [line];
      }
    }
    assert lines[..|lines|] == lines;
  }

  // ---------------------------------------------------------------------
  // What the loop does

  lemma {:induction false} ScanAppend(st: State, a: seq<string>, b: seq<string>, folder: string, prefix: string)
    ensures ScanFrom(st, a + b, folder, prefix) == ScanFrom(ScanFrom(st, a, folder, prefix), b, folder, prefix)
    decreases |b|
  {
    if b == [] {
      assert a + b == a;
    } else {
      assert (a + b)[..|a + b| - 1] == a + b[..|b| - 1];
      ScanAppend(st, a, b[..|b| - 1], folder, prefix);
    }
  }

  /** The number of lines that write a model. */
  function Flushes(lines: seq<string>, prefix: string): nat {
    if lines == [] then 0
    else Flushes(lines[..|lines| - 1], prefix) + (if IsFlush(lines[|lines| - 1], prefix) then 1 else 0)
  }

  /** Earlier writes stay, and each end line adds exactly one write. */
  lemma {:induction false} WritesCount(st: State, lines: seq<string>, folder: string, prefix: string)
    ensures st.writes <= ScanFrom(st, lines, folder, prefix).writes
    ensures |ScanFrom(st, lines, folder, prefix).writes| == |st.writes| + Flushes(lines, prefix)
  {
    if lines != [] {
      WritesCount(st, lines[..|lines| - 1], folder, prefix);
    }
  }

  /** Lines after the last end line are never written. */
  lemma TailNeverWritten(lines: seq<string>, tail: seq<string>, folder: string, prefix: string)
    requires Flushes(tail, prefix) == 0
    ensures ScanFrom(Initial, lines + tail, folder, prefix).writes == ScanFrom(Initial, lines, folder, prefix).writes
  {
    ScanAppend(Initial, lines, tail, folder, prefix);
    WritesCount(ScanFrom(Initial, lines, folder, prefix), tail, folder, prefix);
  }

  /** The paths written are exactly the files that exist afterwards. */
  lemma {:induction false} FilesKeys(writes: seq<(string, string)>)
    ensures Files(writes).Keys == set k | 0 <= k < |writes| :: writes[k].0
  {
    if writes != [] {
      var init := writes[..|writes| - 1];
      FilesKeys(init);
      assert forall k :: 0 <= k < |init| ==> init[k] == writes[k];
      assert (set k | 0 <= k < |writes| :: writes[k].0) == (set k | 0 <= k < |init| :: init[k].0) + {writes[|writes| - 1].0};
    }
  }

  /** A file holds the last model written to its path: a later model with
      the same name overwrites an earlier one. */
  lemma {:induction false} FilesLast(writes: seq<(string, string)>, k: nat)
    requires k < |writes|
    requires forall j :: k < j < |writes| ==> writes[j].0 != writes[k].0
    ensures writes[k].0 in Files(writes) && Files(writes)[writes[k].0] == writes[k].1
  {
    if k < |writes| - 1 {
      var init := writes[..|writes| - 1];
      assert forall j :: k < j < |init| ==> init[j] == writes[j];
      FilesLast(init, k);
    }
  }

  // ---------------------------------------------------------------------
  // Well-formed model files

  /** A line that is buffered: neither a name line nor an end line. */
  predicate Plain(line: string, prefix: string) {
    !IsNameLine(line, prefix) && !IsEnd(line)
  }

  /** Buffered lines only extend the buffer. */
  lemma {:induction false} ScanPlain(st: State, body: seq<string>, folder: string, prefix: string)
    requires forall i :: 0 <= i < |body| ==> Plain(body[i], prefix)
    ensures ScanFrom(st, body, folder, prefix) == st.(buffer := st.buffer + body)
  {
    if body != [] {
      var init := body[..|body| - 1];
      ScanPlain(st, init, folder, prefix);
      assert st.buffer + init + [body[|body| - 1]] == st.buffer + body;
    }
  }

  /** One model as a file holds it: lines before its name line, the name
      line (a head starting with the prefix, a space, the name), lines
      after it, and the closing "//". */
  datatype Hmm = Hmm(head: string, name: string, before: seq<string>, after: seq<string>)

  function NameLine(m: Hmm): string {
    m.head + " " + m.name + "\n"
  }

  function HmmLines(m: Hmm): seq<string> {
    m.before + [NameLine(m)] + m.after + ["//\n"]
  }

  /** The lines of a file of models, one after another. */
  function FileOf(ms: seq<Hmm>): seq<string> {
    if ms == [] then [] else FileOf(ms[..|ms| - 1]) + HmmLines(ms[|ms| - 1])
  }

  /** What the model's own file should hold: its lines without the name
      line, and "//" with no newline. */
  function Contents(m: Hmm): string {
    Concat(m.before + m.after) + "//"
  }

  function Expected(ms: seq<Hmm>, folder: string): (r: seq<(string, string)>)
    ensures |r| == |ms|
    ensures forall k :: 0 <= k < |ms| ==> r[k] == (PathOf(folder, ms[k].name), Contents(ms[k]))
  {
    if ms == [] then [] else Expected(ms[..|ms| - 1], folder) + [(PathOf(folder, ms[|ms| - 1].name), Contents(ms[|ms| - 1]))]
  }

  /** A prefix of 3 or 4 characters that neither an end line nor a newline
      starts with. */
  predicate GoodPrefix(prefix: string) {
    (|prefix| == 3 || |prefix| == 4) && prefix[0] != '/' && prefix[0] != '\n'
  }

  predicate WellFormed(m: Hmm, prefix: string) {
    prefix <= m.head && '\n' !in m.head && ' ' !in m.name && '\n' !in m.name &&
    (forall i :: 0 <= i < |m.before| ==> Plain(m.before[i], prefix)) &&
    (forall i :: 0 <= i < |m.after| ==> Plain(m.after[i], prefix))
  }

  /** The closing line of a model writes it. */
  lemma EndLine(prefix: string)
    requires GoodPrefix(prefix)
    ensures IsFlush("//\n", prefix)
  {
    assert Slice("//\n", 0, 3) == "//\n" && Slice("//\n", 0, 4) == "//\n" && Slice("//\n", 0, 2) == "//";
  }

  /** A name line is recognised and yields the model's name. */
  lemma NameLineRead(m: Hmm, prefix: string)
    requires GoodPrefix(prefix) && prefix <= m.head && '\n' !in m.head && ' ' !in m.name && '\n' !in m.name
    ensures IsNameLine(NameLine(m), prefix) && NameOf(NameLine(m)) == m.name
  {
    var line := NameLine(m);
    var body := m.head + [' '] + m.name;
    assert line == body + "\n";
    assert line[..|prefix|] == prefix;
    assert '\n' !in body by {
      forall j | 0 <= j < |body| ensures body[j] != '\n' {
        if j < |m.head| { assert body[j] == m.head[j]; }
        else if j > |m.head| { assert body[j] == m.name[j - |m.head| - 1]; }
      }
    }
    assert line[..|line| - 1] == body;
    StripOneTrailing(line, '\n');
    SplitAppend(m.head, ' ', m.name);
    SplitNoSeparator(m.name, ' ');
  }

  /** Reading one well-formed model writes its file and empties the buffer. */
  lemma HmmRead(st: State, m: Hmm, folder: string, prefix: string)
    requires st.buffer == [] && GoodPrefix(prefix) && WellFormed(m, prefix)
    ensures ScanFrom(st, HmmLines(m), folder, prefix) ==
      State([], m.name, st.writes + [(PathOf(folder, m.name), Contents(m))])
  {
    var nl := NameLine(m);
    NameLineRead(m, prefix);
    ScanPlain(st, m.before, folder, prefix);
    var s1 := ScanFrom(st, m.before, folder, prefix);
    ScanAppend(st, m.before, [nl], folder, prefix);
    assert [nl][..0] == [];
    var s2 := ScanFrom(st, m.before + [nl], folder, prefix);
    assert s2 == State(m.before, m.name, st.writes);
    ScanPlain(s2, m.after, folder, prefix);
    ScanAppend(st, m.before + [nl], m.after, folder, prefix);
    var s3 := ScanFrom(st, m.before + [nl] + m.after, folder, prefix);
    assert s3 == State(m.before + m.after, m.name, st.writes);
    EndLine(prefix);
    ScanAppend(st, m.before + [nl] + m.after, ["//\n"], folder, prefix);
    assert ["//\n"][..0] == [];
  }

  /** Splitting a file of well-formed models writes each model, in order,
      under its own name, with the name line left out and "//" closing it. */
  lemma {:induction false} RoundTrip(st: State, ms: seq<Hmm>, folder: string, prefix: string)
    requires st.buffer == [] && GoodPrefix(prefix)
    requires forall k :: 0 <= k < |ms| ==> WellFormed(ms[k], prefix)
    ensures ScanFrom(st, FileOf(ms), folder, prefix).buffer == []
    ensures ScanFrom(st, FileOf(ms), folder, prefix).writes == st.writes + Expected(ms, folder)
  {
    if ms != [] {
      var init := ms[..|ms| - 1];
      var last := ms[|ms| - 1];
      assert forall k :: 0 <= k < |init| ==> init[k] == ms[k];
      RoundTrip(st, init, folder, prefix);
      var mid := ScanFrom(st, FileOf(init), folder, prefix);
      ScanAppend(st, FileOf(init), HmmLines(last), folder, prefix);
      HmmRead(mid, last, folder, prefix);
      var w := (PathOf(folder, last.name), Contents(last));
      assert Expected(ms, folder) == Expected(init, folder) + [w];
      WritesAssoc(st.writes, Expected(init, folder), [w]);
    }
  }

  /** A model read before any name line is written to FAILED.hmm. */
  lemma UnnamedFailed(body: seq<string>, folder: string, prefix: string)
    requires GoodPrefix(prefix)
    requires forall i :: 0 <= i < |body| ==> Plain(body[i], prefix)
    ensures ScanFrom(Initial, body + ["//\n"], folder, prefix).writes == [(PathOf(folder, "FAILED"), Concat(body) + "//")]
  {
    ScanPlain(Initial, body, folder, prefix);
    var s1 := ScanFrom(Initial, body, folder, prefix);
    assert s1 == State(body, "FAILED", []);
    ScanAppend(Initial, body, ["//\n"], folder, prefix);
    assert ["//\n"][..0] == [];
    EndLine(prefix);
    assert ScanFrom(s1, ["//\n"], folder, prefix) == Step(s1, "//\n", folder, prefix);
  }

  /** Different names give different files. */
  lemma PathOfInjective(folder: string, a: string, b: string)
    requires PathOf(folder, a) == PathOf(folder, b)
    ensures a == b
  {
    var p := PathOf(folder, a);
    assert |a| == |b|;
    assert a == p[|folder|..|folder| + |a|];
    assert b == PathOf(folder, b)[|folder|..|folder| + |b|];
  }

  /** Lists of writes regroup freely. */
  lemma WritesAssoc(a: seq<(string, string)>, b: seq<(string, string)>, c: seq<(string, string)>)
    ensures (a + b) + c == a + (b + c)
  {
  }

  /** Models with distinct names are written to distinct paths. */
  lemma ExpectedPathsDistinct(ms: seq<Hmm>, folder: string, k: nat)
    requires forall i, j :: 0 <= i < j < |ms| ==> ms[i].name != ms[j].name
    requires k < |ms|
    ensures forall j :: k < j < |ms| ==> Expected(ms, folder)[j].0 != Expected(ms, folder)[k].0
  {
    var w := Expected(ms, folder);
    forall j | k < j < |ms| ensures w[j].0 != w[k].0 {
      if w[j].0 == w[k].0 {
        PathOfInjective(folder, ms[j].name, ms[k].name);
      }
    }
  }

  /** With distinct names, every model ends up in its own file. */
  lemma RoundTripFiles(ms: seq<Hmm>, folder: string, prefix: string, k: nat)
    requires GoodPrefix(prefix)
    requires forall i :: 0 <= i < |ms| ==> WellFormed(ms[i], prefix)
    requires forall i, j :: 0 <= i < j < |ms| ==> ms[i].name != ms[j].name
    requires k < |ms|
    ensures PathOf(folder, ms[k].name) in Files(ScanFrom(Initial, FileOf(ms), folder, prefix).writes)
    ensures Files(ScanFrom(Initial, FileOf(ms), folder, prefix).writes)[PathOf(folder, ms[k].name)] == Contents(ms[k])
  {
    RoundTrip(Initial, ms, folder, prefix);
    var w := Expected(ms, folder);
    assert Initial.writes + w == w;
    ExpectedPathsDistinct(ms, folder, k);
    FilesLast(w, k);
  }

  // ---------------------------------------------------------------------
  // The prefix

  /** The `-n` argument: left out, or one of its two choices. */
  datatype NameChoice = Default | Name | Acc

  /** `args.n[0].upper()` as written: the default is the list `['ACC']`,
      but a given choice is a plain string, so only its first letter is
      kept. */
  function PrefixAsWritten(n: NameChoice): string {
    match n
    case Default => Upper("ACC")
    case Name => Upper(["NAME"[0]])
    case Acc => Upper(["ACC"[0]])
  }

  /** A one-letter prefix only matches the line made of that letter alone,
      so with `-n NAME` or `-n ACC` every model is written to FAILED.hmm,
      each overwriting the one before. */
  lemma {:induction false} ChosenPrefixAllFailed(n: NameChoice, lines: seq<string>, folder: string)
    requires n != Default
    requires forall i :: 0 <= i < |lines| ==> lines[i] != PrefixAsWritten(n)
    ensures ScanFrom(Initial, lines, folder, PrefixAsWritten(n)).name == "FAILED"
    ensures forall k :: 0 <= k < |ScanFrom(Initial, lines, folder, PrefixAsWritten(n)).writes| ==>
      ScanFrom(Initial, lines, folder, PrefixAsWritten(n)).writes[k].0 == PathOf(folder, "FAILED")
  {
    if lines != [] {
      var p := PrefixAsWritten(n);
      var line := lines[|lines| - 1];
      ChosenPrefixAllFailed(n, lines[..|lines| - 1], folder);
      assert |p| == 1;
    }
  }

  /** The prefix `-n` evidently means: the chosen line tag itself. */
  function Prefix(n: NameChoice): (r: string)
    ensures GoodPrefix(r)
    ensures n == Name ==> r == "NAME"
    ensures n != Name ==> r == "ACC"
  {
    match n
    case Name => "NAME"
    case _ => "ACC"
  }
}
