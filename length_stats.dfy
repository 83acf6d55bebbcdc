/** scripts/sequence_length_stats.py: counts how many sequences of a FASTA
    file fall between consecutive length cutoffs given in kb, or lists every
    sequence's length. The sequences are given as (name, length) pairs and
    the cutoffs as the words of `-l` with their values as reals. */
module LengthStats {
  import opened Strings
  import opened Numbers
  import CountLength
  import Fasta

  // ---------------------------------------------------------------------
  // Cutoffs and bins

  /** `[0.0] + [float(i)*1000 for i in raw]`. */
  function Cutoffs(kb: seq<real>): (r: seq<real>)
    ensures |r| == |kb| + 1 && r[0] == 0.0
    ensures forall i :: 0 <= i < |kb| ==> r[i + 1] == kb[i] * 1000.0
  {
    if kb == [] then [0.0] else Cutoffs(kb[..|kb| - 1]) + [kb[|kb| - 1] * 1000.0]
  }

  /** `len([val for val in holder if val < hi if val >= lo])`. */
  function CountIn(holder: seq<nat>, lo: real, hi: real): nat {
    if holder == [] then 0
    else
      var v := holder[|holder| - 1] as real;
      CountIn(holder[..|holder| - 1], lo, hi) + (if v < hi && v >= lo then 1 else 0)
  }

  /** `len([val for val in holder if val >= lo])`. */
  function CountAtLeast(holder: seq<nat>, lo: real): (r: nat)
    ensures r <= |holder|
  {
    if holder == [] then 0
    else CountAtLeast(holder[..|holder| - 1], lo) + (if holder[|holder| - 1] as real >= lo then 1 else 0)
  }

  /** The dict `value` in insertion order: `update` on a present key keeps
      its place and replaces the count, on a new key appends. */
  function Update(value: seq<(real, nat)>, key: real, count: nat): (r: seq<(real, nat)>)
    ensures |r| == |value| || |r| == |value| + 1
  {
    if value == [] then [(key, count)]
    else if value[0].0 == key then [(key, count)] + value[1..]
    else [value[0]] + Update(value[1..], key, count)
  }

  /** `lengths[idx-1]`, which is the last cutoff when `idx` is 0. */
  function Previous(lengths: seq<real>, idx: nat): real
    requires idx < |lengths|
  {
    if idx == 0 then lengths[|lengths| - 1] else lengths[idx - 1]
  }

  /** `value` after the loop has seen the first `n` cutoffs: each non-zero
      cutoff is keyed to the count of lengths from the cutoff before it up
      to it. */
  function BinsUpTo(lengths: seq<real>, holder: seq<nat>, n: nat): seq<(real, nat)>
    requires n <= |lengths|
  {
    if n == 0 then []
    else
      var l := lengths[n - 1];
      var value := BinsUpTo(lengths, holder, n - 1);
      if l != 0.0 then Update(value, l, CountIn(holder, Previous(lengths, n - 1), l)) else value
  }

  /** `value` after the loop and the final bin, keyed by the last cutoff
      plus one, counting the lengths at or above the last cutoff. */
  function Final(lengths: seq<real>, holder: seq<nat>): seq<(real, nat)>
    requires |lengths| > 0
  {
    var last := lengths[|lengths| - 1];
    Update(BinsUpTo(lengths, holder, |lengths|), last + 1.0, CountAtLeast(holder, last))
  }

  /** The binning loop and the final bin. */
  method Bins(lengths: seq<real>, holder: seq<nat>) returns (value: seq<(real, nat)>)
    requires |lengths| > 0
    ensures value == Final(lengths, holder)
  {
    value := [];
    for idx := 0 to |lengths|
      invariant value == BinsUpTo(lengths, holder, idx)
    {
      var l := lengths[idx];
      if l != 0.0 {
        var lo := if idx == 0 then lengths[|lengths| - 1] else lengths[idx - 1];
        value := Update(value, l, CountIn(holder, lo, l));
      }
    }
    var last := lengths[|lengths| - 1];
    value := Update(value, last + 1.0, CountAtLeast(holder, last));
  }

  // ---------------------------------------------------------------------
  // Strictly increasing cutoffs

  predicate StrictlyIncreasing(lengths: seq<real>) {
    forall i, j :: 0 <= i < j < |lengths| ==> lengths[i] < lengths[j]
  }

  /** The bins as intended: one per consecutive pair of cutoffs. */
  function Expected(lengths: seq<real>, holder: seq<nat>, n: nat): (r: seq<(real, nat)>)
    requires 1 <= n <= |lengths|
    ensures |r| == n - 1
    ensures forall i :: 0 <= i < n - 1 ==> r[i] == (lengths[i + 1], CountIn(holder, lengths[i], lengths[i + 1]))
  {
    if n == 1 then [] else Expected(lengths, holder, n - 1) + [(lengths[n - 1], CountIn(holder, lengths[n - 2], lengths[n - 1]))]
  }

  /** A key not yet present is added at the end. */
  lemma {:induction false} UpdateNew(value: seq<(real, nat)>, key: real, count: nat)
    requires forall i :: 0 <= i < |value| ==> value[i].0 != key
    ensures Update(value, key, count) == value + [(key, count)]
  {
    if value != [] {
      UpdateNew(value[1..], key, count);
    }
  }

  /** With cutoffs `0 < c1 < c2 < ...` no key repeats, so every pair of
      consecutive cutoffs has its own bin, in order. */
  lemma {:induction false} BinsAreExpected(lengths: seq<real>, holder: seq<nat>, n: nat)
    requires 1 <= n <= |lengths| && lengths[0] == 0.0 && StrictlyIncreasing(lengths)
    ensures BinsUpTo(lengths, holder, n) == Expected(lengths, holder, n)
  {
    if n > 1 {
      BinsAreExpected(lengths, holder, n - 1);
      var e := Expected(lengths, holder, n - 1);
      forall i | 0 <= i < |e| ensures e[i].0 != lengths[n - 1] {
        assert e[i].0 == lengths[i + 1];
      }
      UpdateNew(Expected(lengths, holder, n - 1), lengths[n - 1], CountIn(holder, lengths[n - 2], lengths[n - 1]));
    }
  }

  /** Splitting the lengths at or above `a` at `b`. */
  lemma {:induction false} CountSplit(holder: seq<nat>, a: real, b: real)
    requires a <= b
    ensures CountIn(holder, a, b) + CountAtLeast(holder, b) == CountAtLeast(holder, a)
  {
    if holder != [] {
      CountSplit(holder[..|holder| - 1], a, b);
    }
  }

  lemma {:induction false} CountAtLeastZero(holder: seq<nat>)
    ensures CountAtLeast(holder, 0.0) == |holder|
  {
    if holder != [] {
      CountAtLeastZero(holder[..|holder| - 1]);
    }
  }

  function SumCounts(value: seq<(real, nat)>): nat {
    if value == [] then 0 else SumCounts(value[..|value| - 1]) + value[|value| - 1].1
  }

  /** The counts of the bins below threshold `n` and the count at or above it add up to all lengths. */
  lemma {:induction false} ExpectedTelescopes(lengths: seq<real>, holder: seq<nat>, n: nat)
    requires 1 <= n <= |lengths| && lengths[0] == 0.0 && StrictlyIncreasing(lengths)
    ensures SumCounts(Expected(lengths, holder, n)) + CountAtLeast(holder, lengths[n - 1]) == |holder|
  {
    if n == 1 {
      CountAtLeastZero(holder);
    } else {
      ExpectedTelescopes(lengths, holder, n - 1);
      var e := Expected(lengths, holder, n);
      assert e[..|e| - 1] == Expected(lengths, holder, n - 1);
      CountSplit(holder, lengths[n - 2], lengths[n - 1]);
    }
  }

  /** For strictly increasing cutoffs starting at 0, as `Cutoffs` gives
      for strictly increasing positive kb values, the bins partition the
      lengths: one bin per cutoff after the first and one for the rest, in
      order, and their counts add up to the number of sequences. */
  lemma BinsPartition(lengths: seq<real>, holder: seq<nat>)
    requires |lengths| > 0 && lengths[0] == 0.0 && StrictlyIncreasing(lengths)
    ensures Final(lengths, holder) == Expected(lengths, holder, |lengths|) +
      [(lengths[|lengths| - 1] + 1.0, CountAtLeast(holder, lengths[|lengths| - 1]))]
    ensures SumCounts(Final(lengths, holder)) == |holder|
  {
    var n := |lengths|;
    BinsAreExpected(lengths, holder, n);
    var e := Expected(lengths, holder, n);
    var last := lengths[n - 1] + 1.0;
    forall i | 0 <= i < |e| ensures e[i].0 != last {
      assert e[i].0 == lengths[i + 1];
    }
    UpdateNew(e, last, CountAtLeast(holder, lengths[n - 1]));
    ExpectedTelescopes(lengths, holder, n);
    var value := e + [(last, CountAtLeast(holder, lengths[n - 1]))];
    assert value[..|value| - 1] == e;
  }

  /** Cutoffs that repeat: `-l "1 5 5 10"`. The second 5 replaces the count
      of [1000, 5000) with the count of the empty range [5000, 5000), so a
      sequence of 2000 residues is counted in no bin, and the row has one
      count fewer than the header has cutoffs. */
  lemma RepeatedCutoffOverwrites()
    ensures Final([0.0, 1000.0, 5000.0, 5000.0, 10000.0], [2000]) ==
      [(1000.0, 0), (5000.0, 0), (10000.0, 0), (10001.0, 0)]
    ensures SumCounts(Final([0.0, 1000.0, 5000.0, 5000.0, 10000.0], [2000])) == 0
  {
    var lengths := [0.0, 1000.0, 5000.0, 5000.0, 10000.0];
    var holder: seq<nat> := [2000];
    assert CountIn(holder, 1000.0, 5000.0) == 1;
    assert BinsUpTo(lengths, holder, 3) == [(1000.0, 0), (5000.0, 1)];
    assert CountIn(holder, 5000.0, 5000.0) == 0;
    assert BinsUpTo(lengths, holder, 4) == [(1000.0, 0), (5000.0, 0)];
    assert BinsUpTo(lengths, holder, 5) == [(1000.0, 0), (5000.0, 0), (10000.0, 0)];
    assert CountAtLeast(holder, 10000.0) == 0;
    UpdateNew(BinsUpTo(lengths, holder, 5), 10001.0, 0);
    var f := Final(lengths, holder);
    assert f == [(1000.0, 0), (5000.0, 0), (10000.0, 0), (10001.0, 0)];
    assert f[..3] == [(1000.0, 0), (5000.0, 0), (10000.0, 0)] && f[..3][..2] == [(1000.0, 0), (5000.0, 0)];
  }

  // ---------------------------------------------------------------------
  // The report

  /** Python's `int(x)`: truncation toward zero. */
  function Trunc(x: real): int {
    if x >= 0.0 then x.Floor else -((-x).Floor)
  }

  /** `rsplit("/", 1)[0]`: the part before the last '/', which for a path
      with a directory is the directory; the `except` never fires. */
  function Base(path: string): string {
    BeforeLast(path, "/")
  }

  /** `file\t{header}kb\t>{int(lengths[-1]/1000)}kb` with
      `header = 'kb\t'.join(raw)`. */
  function HeaderLine(raw: seq<string>, last: real): string {
    "file\t" + Join(raw, "kb\t") + "kb\t>" + IntToString(Trunc(last / 1000.0)) + "kb"
  }

  function Tabbed(value: seq<(real, nat)>): string {
    if value == [] then [] else Tabbed(value[..|value| - 1]) + "\t" + NatToString(value[|value| - 1].1)
  }

  /** The 'none' listing: the heading, then one row per sequence. */
  function LengthRows(seqs: seq<(string, nat)>): (r: seq<string>)
    ensures |r| == |seqs|
    ensures forall i :: 0 <= i < |seqs| ==> r[i] == CountLength.LengthRow(seqs[i].0, seqs[i].1)
  {
    if seqs == [] then [] else LengthRows(seqs[..|seqs| - 1]) + [CountLength.LengthRow(seqs[|seqs| - 1].0, seqs[|seqs| - 1].1)]
  }

  function Listing(seqs: seq<(string, nat)>): string {
    Concat([CountLength.Heading] + LengthRows(seqs))
  }

  /** The pairs a FASTA file's records give: header and bare length, as
      the records of fasta_parse.py have them. Biopython's parser, which
      the script uses, gives the same pairs only when no title ends in
      whitespace and no sequence line holds a blank. */
  function Measured(recs: seq<Fasta.Record>): (r: seq<(string, nat)>)
    ensures |r| == |recs|
    ensures forall i :: 0 <= i < |recs| ==> r[i] == (recs[i].header, |Fasta.Bare(recs[i].sequence)|)
  {
    if recs == [] then [] else Measured(recs[..|recs| - 1]) + [(recs[|recs| - 1].header, |Fasta.Bare(recs[|recs| - 1].sequence)|)]
  }

  /** On the pairs `Measured` gives, the 'none' listing is the table
      count_sequence_length.py writes; for the script's own parser this
      holds under the condition stated at `Measured`. */
  lemma ListingIsCountTable(recs: seq<Fasta.Record>)
    ensures Listing(Measured(recs)) == Concat([CountLength.Heading] + CountLength.RowLines(recs))
  {
    assert LengthRows(Measured(recs)) == CountLength.RowLines(recs);
  }

  function Holder(seqs: seq<(string, nat)>): (r: seq<nat>)
    ensures |r| == |seqs| && forall i :: 0 <= i < |seqs| ==> r[i] == seqs[i].1
  {
    if seqs == [] then [] else Holder(seqs[..|seqs| - 1]) + [seqs[|seqs| - 1].1]
  }

  /** The whole run: `-l none` (in any case) lists the lengths; otherwise
      `kb` holds the float value of each space-separated word of `-l`. */
  method Run(l: string, kb: seq<real>, path: string, seqs: seq<(string, nat)>) returns (out: string)
    requires Lower(l) != "none" ==> |kb| == |Split(l, ' ')|
    ensures Lower(l) == "none" ==> out == Listing(seqs)
    ensures Lower(l) != "none" ==>
      out == HeaderLine(Split(l, ' '), Cutoffs(kb)[|kb|]) + "\n" + Base(path) + Tabbed(Final(Cutoffs(kb), Holder(seqs))) + "\n"
  {
    if Lower(l) == "none" {
      return Listing(seqs);
    }
    var lengths := Cutoffs(kb);
    var value := Bins(lengths, Holder(seqs));
    out := HeaderLine(Split(l, ' '), lengths[|lengths| - 1]) + "\n" + Base(path) + Tabbed(value) + "\n";
  }
}
