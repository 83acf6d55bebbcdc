/** scripts/limit_sequence_length.py: keeps the records of a FASTA file whose
    length lies above, below or between given bounds (inclusive), writing
    each kept sequence on one line. The FASTA file is given as text. */
module LimitLength {
  import opened Wrappers
  import opened Strings
  import opened Numbers
  import opened Fasta

  /** The `-m` choices. */
  datatype Bound = Above | Below | Between

  /** Whether a sequence of length `n` is kept: `n >= low` for above,
      `n <= low` for below, `low <= n <= high` for between. */
  predicate Fits(bound: Bound, low: int, high: int, n: nat) {
    match bound
    case Above => n >= low
    case Below => n <= low
    case Between => low <= n <= high
  }

  /** A kept record as written: `>{name}\n{seq}\n` with the bare sequence. */
  function Written(r: Record): Record {
    Record(r.header, Bare(r.sequence) + "\n")
  }

  /** The kept records, in input order. */
  function Limited(recs: seq<Record>, bound: Bound, low: int, high: int): (r: seq<Record>)
    ensures |r| <= |recs|
  {
    if recs == [] then []
    else
      var last := recs[|recs| - 1];
      Limited(recs[..|recs| - 1], bound, low, high) +
        (if Fits(bound, low, high, |Bare(last.sequence)|) then [Written(last)] else [])
  }

  /** Exactly the records that fit are written, each as its one-line form. */
  lemma {:induction false} LimitedExactly(recs: seq<Record>, bound: Bound, low: int, high: int)
    ensures forall i :: 0 <= i < |recs| && Fits(bound, low, high, |Bare(recs[i].sequence)|) ==>
      Written(recs[i]) in Limited(recs, bound, low, high)
    ensures forall w :: w in Limited(recs, bound, low, high) ==>
      exists i :: 0 <= i < |recs| && w == Written(recs[i]) && Fits(bound, low, high, |Bare(recs[i].sequence)|)
  {
    if recs != [] {
      var init := recs[..|recs| - 1];
      LimitedExactly(init, bound, low, high);
      forall i | 0 <= i < |init| ensures init[i] == recs[i] { }
    }
  }

  /** The records of length at least `l` and those of length at most
      `l - 1` together are all the records. */
  lemma {:induction false} AboveBelowPartition(recs: seq<Record>, l: int)
    ensures |Limited(recs, Above, l, 0)| + |Limited(recs, Below, l - 1, 0)| == |recs|
  {
    if recs != [] {
      AboveBelowPartition(recs[..|recs| - 1], l);
    }
  }

  /** Between keeps what both above the low bound and below the high bound
      keep, so an empty range keeps nothing. */
  lemma {:induction false} BetweenEmpty(recs: seq<Record>, low: int, high: int)
    requires low > high
    ensures Limited(recs, Between, low, high) == []
  {
    if recs != [] {
      BetweenEmpty(recs[..|recs| - 1], low, high);
    }
  }

  /** `Limit(fasta, output, length, method)`: the lengths are converted
      first, above and below use the first one, between needs two; then
      the file is parsed and the kept records written. */
  function Limit(text: string, lengths: seq<string>, bound: Bound): (r: Result<string, Failure>)
    ensures r.Ok? <==>
      (forall i :: 0 <= i < |lengths| ==> ParseInt(lengths[i]).Ok?) &&
      |lengths| >= (if bound == Between then 2 else 1) && ParseText(text).Ok?
    ensures (forall i :: 0 <= i < |lengths| ==> ParseInt(lengths[i]).Ok?) && bound != Between && lengths == [] ==>
      r == Err(IndexError)
    ensures (forall i :: 0 <= i < |lengths| ==> ParseInt(lengths[i]).Ok?) && bound == Between && |lengths| < 2 ==>
      r.Err? && r.error.Exit?
    ensures r.Ok? ==> r.value == Unparse(Limited(ParseText(text).value, bound, ParseInt(lengths[0]).value,
      if bound == Between then ParseInt(lengths[1]).value else 0))
  {
    match Ints(lengths)
    case Err(e) => Err(e)
    case Ok(ls) =>
      if bound != Between && |ls| == 0 then Err(IndexError)
      else if bound == Between && |ls| < 2 then Err(Exit("Two values must be entered for '-l' with '-m between'"))
      else
        match ParseText(text)
        case Err(e) => Err(e)
        case Ok(recs) =>
          Ok(Unparse(Limited(recs, bound, ls[0], if bound == Between then ls[1] else 0)))
  }

  /** `[int(i) for i in length]`: the first text that is not an integer
      raises ValueError. */
  function Ints(texts: seq<string>): (r: Result<seq<int>, Failure>)
    ensures r.Ok? <==> forall i :: 0 <= i < |texts| ==> ParseInt(texts[i]).Ok?
    ensures r.Ok? ==> |r.value| == |texts| && forall i :: 0 <= i < |texts| ==> ParseInt(texts[i]) == Ok(r.value[i])
  {
    if texts == [] then Ok([])
    else
      match ParseInt(texts[0])
      case Err(e) => Err(e)
      case Ok(v) =>
        match Ints(texts[1..])
        case Err(e) => Err(e)
        case Ok(vs) => Ok([v] + vs)
  }
}
