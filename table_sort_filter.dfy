/** scripts/table_sort_filter.py: read a table, sort it on one column,
    keep the rows whose filter column lies within the given bounds, and
    keep the first row per value of a drop column. A row is any type `R`;
    `num(r, c)` is the number in column `c` of row `r` and `cell(r, c)` the
    value `drop_duplicates` compares. Whether a file exists is the
    parameter `present`. */
module TableSortFilter {
  import opened Wrappers
  import opened Strings
  import opened Tables

  /** `--ord`. */
  datatype Order = Asc | Des | NoSort

  /** `-d`, which the argument parser limits to three choices. */
  datatype Delimiter = Tsv | Csv | Ssv

  function DelimiterName(d: Delimiter): string {
    match d
    case Tsv => "tsv"
    case Csv => "csv"
    case Ssv => "ssv"
  }

  /** The separator `to_csv` writes for each choice. */
  function Separator(d: Delimiter): char {
    match d
    case Tsv => '\t'
    case Csv => ','
    case Ssv => ' '
  }

  /** The command line. `--min` and `--max` are None when not given (their
      default is the empty string); the column names are empty when not given. */
  datatype Settings = Settings(input: string, output: string, d: Delimiter, filt: string,
                               maxx: Option<real>, minn: Option<real>, drop: string, srt: string, order: Order)

  /** Python truthiness of a bound: not given, or 0.0, counts as false. */
  predicate Truthy(x: Option<real>) {
    x.Some? && x.value != 0.0
  }

  /** The messages `setup` prints before it exits. */
  datatype SetupError = MinNotBelowMax | OutputExists | InputMissing | NoColumn

  /** `-o`, or `<input stem>.filtered.<d>` when it is not given. */
  function OutputName(s: Settings): string {
    if s.output == "" then BeforeLast(s.input, ".") + ".filtered." + DelimiterName(s.d) else s.output
  }

  /** `--sort`, or the filter column when it is not given. */
  function SortColumn(s: Settings): string {
    if s.srt == "" then s.filt else s.srt
  }

  /** Every check of `setup`, in order; all of them run before the exit. */
  function SetupErrors(s: Settings, present: string -> bool): seq<SetupError> {
    (if Truthy(s.minn) && Truthy(s.maxx) && s.minn.value >= s.maxx.value then [MinNotBelowMax] else []) +
    (if present(OutputName(s)) then [OutputExists] else []) +
    (if !present(s.input) then [InputMissing] else []) +
    (if SortColumn(s) == "" && s.filt == "" then [NoColumn] else [])
  }

  /** `setup` lets the run go on exactly when both bounds are not truthy or
      are in order, the output does not exist, the input does, and a sort
      or filter column is named. A zero bound is falsy, so it escapes the
      order check. */
  lemma SetupAccepts(s: Settings, present: string -> bool)
    ensures SetupErrors(s, present) == [] <==>
      !(Truthy(s.minn) && Truthy(s.maxx) && s.minn.value >= s.maxx.value) &&
      !present(OutputName(s)) && present(s.input) && (s.srt != "" || s.filt != "")
    ensures NoColumn in SetupErrors(s, present) <==> s.srt == "" && s.filt == ""
    ensures s.minn == Some(0.0) ==> MinNotBelowMax !in SetupErrors(s, present)
  {
  }

  /** The settings `main` sees after a successful `setup`. */
  function SetupResult(s: Settings, present: string -> bool): (r: Result<Settings, seq<SetupError>>)
    ensures r.Err? <==> SetupErrors(s, present) != []
    ensures r.Ok? ==> r.value.output == OutputName(s) && r.value.srt == SortColumn(s) && r.value.srt != ""
  {
    SetupAccepts(s, present);
    if SetupErrors(s, present) != [] then Err(SetupErrors(s, present))
    else Ok(s.(output := OutputName(s), srt := SortColumn(s)))
  }

  /** A table: its column names and its rows. */
  datatype Frame<R> = Frame(columns: set<string>, rows: seq<R>)

  /** `df[mask]`: the rows `keep` accepts, in order. */
  function Where<R>(rows: seq<R>, keep: R -> bool): seq<R> {
    if rows == [] then []
    else Where(rows[..|rows| - 1], keep) + (if keep(rows[|rows| - 1]) then [rows[|rows| - 1]] else [])
  }

  /** The kept rows are exactly the accepted ones, in their order. */
  lemma {:induction false} WhereShape<R>(rows: seq<R>, keep: R -> bool)
    ensures forall i :: 0 <= i < |Where(rows, keep)| ==> keep(Where(rows, keep)[i])
    ensures multiset(Where(rows, keep)) <= multiset(rows)
    ensures forall x :: x in rows && keep(x) ==> x in Where(rows, keep)
  {
    if rows != [] {
      var front := rows[..|rows| - 1];
      WhereShape(front, keep);
      assert rows == front + [rows[|rows| - 1]];
    }
  }

  /** Filtering keeps a sorted table sorted. */
  lemma {:induction false} WhereSorted<R>(rows: seq<R>, keep: R -> bool, key: R -> real, ascending: bool)
    requires SortedBy(rows, key, ascending)
    ensures SortedBy(Where(rows, keep), key, ascending)
  {
    if rows != [] {
      var front := rows[..|rows| - 1];
      var last := rows[|rows| - 1];
      SortedFront(rows, key, ascending);
      WhereSorted(front, keep, key, ascending);
      WhereShape(front, keep);
      var w := Where(front, keep);
      if keep(last) {
        forall i | 0 <= i < |w| ensures InOrder(key(w[i]), key(last), ascending) {
          assert w[i] in multiset(front);
        }
        SortedSnoc(w, last, key, ascending);
      }
    }
  }

  /** The rows before the last of a sorted table are sorted, and each is in
      order with the last. */
  lemma SortedFront<R>(rows: seq<R>, key: R -> real, ascending: bool)
    requires rows != [] && SortedBy(rows, key, ascending)
    ensures SortedBy(rows[..|rows| - 1], key, ascending)
    ensures forall y :: y in rows[..|rows| - 1] ==> InOrder(key(y), key(rows[|rows| - 1]), ascending)
  {
  }

  /** A row in order with every row of a sorted table can follow them. */
  lemma SortedSnoc<R>(w: seq<R>, x: R, key: R -> real, ascending: bool)
    requires SortedBy(w, key, ascending)
    requires forall i :: 0 <= i < |w| ==> InOrder(key(w[i]), key(x), ascending)
    ensures SortedBy(w + [x], key, ascending)
  {
  }

  /** The inclusive bounds, each applied only when given (`isinstance(..., float)`). */
  predicate InBounds(v: real, minn: Option<real>, maxx: Option<real>) {
    (minn.None? || v >= minn.value) && (maxx.None? || v <= maxx.value)
  }

  /** The filter step: none without a filter column or without bounds. */
  function Filtered<R>(rows: seq<R>, s: Settings, num: (R, string) -> real): seq<R> {
    if s.filt == "" || (s.minn.None? && s.maxx.None?) then rows
    else Where(rows, (r: R) => InBounds(num(r, s.filt), s.minn, s.maxx))
  }

  /** The drop step: keep the first row per value of the drop column. */
  function Dropped<R>(rows: seq<R>, s: Settings, cell: (R, string) -> string): seq<R> {
    if s.drop == "" then rows else DropDuplicates(rows, (r: R) => cell(r, s.drop))
  }

  /** The sort step; `SortBy` stands for the order pandas chose. */
  function Sorted<R>(rows: seq<R>, s: Settings, num: (R, string) -> real): (r: seq<R>)
    ensures multiset(r) == multiset(rows)
  {
    if s.order == NoSort then rows else SortBy(rows, (x: R) => num(x, s.srt), s.order == Asc)
  }

  /** A column the run touches is missing: pandas raises KeyError. */
  predicate MissingColumn<R>(f: Frame<R>, s: Settings) {
    (s.order != NoSort && s.srt !in f.columns) ||
    (s.filt != "" && (s.minn.Some? || s.maxx.Some?) && s.filt !in f.columns) ||
    (s.drop != "" && s.drop !in f.columns)
  }

  /** `main`: sort, then filter, then drop duplicates. A missing column is
      caught and reported, and no output is written. */
  function Main<R>(f: Frame<R>, s: Settings, num: (R, string) -> real, cell: (R, string) -> string)
    : (r: Result<seq<R>, Failure>)
    ensures r.Err? <==> MissingColumn(f, s)
    ensures r.Err? ==> r.error == KeyError
  {
    if MissingColumn(f, s) then Err(KeyError)
    else Ok(Dropped(Filtered(Sorted(f.rows, s, num), s, num), s, cell))
  }

  /** Whatever order the sort chose, the output rows are input rows (as a
      sub-multiset), each within the bounds, with one row per value of the
      drop column, and every such value of the filtered rows is kept. */
  lemma SelectRows<R>(ys: seq<R>, s: Settings, num: (R, string) -> real, cell: (R, string) -> string)
    ensures multiset(Dropped(Filtered(ys, s, num), s, cell)) <= multiset(ys)
    ensures s.filt != "" ==>
      forall i :: 0 <= i < |Dropped(Filtered(ys, s, num), s, cell)| ==>
        InBounds(num(Dropped(Filtered(ys, s, num), s, cell)[i], s.filt), s.minn, s.maxx)
    ensures s.filt != "" ==>
      forall x :: x in ys && InBounds(num(x, s.filt), s.minn, s.maxx) ==> x in Filtered(ys, s, num)
    ensures s.drop != "" ==>
      DistinctKeys(Dropped(Filtered(ys, s, num), s, cell), (r: R) => cell(r, s.drop)) &&
      Keys(Dropped(Filtered(ys, s, num), s, cell), (r: R) => cell(r, s.drop)) ==
        Keys(Filtered(ys, s, num), (r: R) => cell(r, s.drop))
  {
    var kept := Filtered(ys, s, num);
    if s.filt != "" && !(s.minn.None? && s.maxx.None?) {
      WhereShape(ys, (r: R) => InBounds(num(r, s.filt), s.minn, s.maxx));
    }
    if s.drop != "" {
      var key := (r: R) => cell(r, s.drop);
      DropDuplicatesKeys(kept, key);
      DropDuplicatesSubset(kept, key);
    }
  }

  /** Keep-first dedupe drops rows and never repeats one. */
  lemma {:induction false} DropDuplicatesSubset<T, K>(xs: seq<T>, key: T -> K)
    ensures multiset(DropDuplicates(xs, key)) <= multiset(xs)
  {
    if xs != [] {
      var front := xs[..|xs| - 1];
      DropDuplicatesSubset(front, key);
      assert xs == front + [xs[|xs| - 1]];
    }
  }

  /** With a sorted table, the output stays sorted, and each kept row is,
      among the filtered rows with its drop value, first in the sort
      direction: with `des` one with the largest sort value. */
  lemma SelectBest<R>(ys: seq<R>, s: Settings, num: (R, string) -> real, cell: (R, string) -> string)
    requires s.order != NoSort && SortedBy(ys, (x: R) => num(x, s.srt), s.order == Asc)
    ensures SortedBy(Dropped(Filtered(ys, s, num), s, cell), (x: R) => num(x, s.srt), s.order == Asc)
    ensures s.drop != "" ==>
      BestOfEachKey(Dropped(Filtered(ys, s, num), s, cell), Filtered(ys, s, num), (r: R) => cell(r, s.drop),
                    (x: R) => num(x, s.srt), s.order == Asc)
  {
    var key := (x: R) => num(x, s.srt);
    var kept := Filtered(ys, s, num);
    if s.filt != "" && !(s.minn.None? && s.maxx.None?) {
      WhereSorted(ys, (r: R) => InBounds(num(r, s.filt), s.minn, s.maxx), key, s.order == Asc);
    }
    if s.drop != "" {
      DropDuplicatesSorted(kept, (r: R) => cell(r, s.drop), key, s.order == Asc);
      DropDuplicatesBest(kept, (r: R) => cell(r, s.drop), key, s.order == Asc);
    }
  }

  /** The state of a `TableSortFilter` object. */
  class Sorter {
    var settings: Settings

    constructor(s: Settings)
      ensures settings == s
    {
      settings := s;
    }

    /** `setup`: fills in the default output name and sort column, then
        reports every failed check. */
    method Setup(present: string -> bool) returns (errors: seq<SetupError>)
      modifies this`settings
      ensures errors == SetupErrors(old(settings), present)
      ensures settings == old(settings).(output := OutputName(old(settings)), srt := SortColumn(old(settings)))
    {
      var s := settings;
      errors := [];
      if Truthy(s.minn) && Truthy(s.maxx) && s.minn.value >= s.maxx.value {
        errors := errors + [MinNotBelowMax];
      }
      settings := settings.(output := OutputName(s));
      if present(settings.output) {
        errors := errors + [OutputExists];
      }
      if !present(s.input) {
        errors := errors + [InputMissing];
      }
      settings := settings.(srt := SortColumn(s));
      if settings.srt == "" && s.filt == "" {
        errors := errors + [NoColumn];
      }
    }

    /** `TableSortFilter(args)`: `setup`, then `main` unless it exited. */
    method Run<R>(f: Frame<R>, present: string -> bool, num: (R, string) -> real, cell: (R, string) -> string)
      returns (r: Result<seq<R>, Failure>)
      modifies this`settings
      ensures SetupResult(old(settings), present).Err? ==> r.Err? && r.error.Exit?
      ensures SetupResult(old(settings), present).Ok? ==> r == Main(f, SetupResult(old(settings), present).value, num, cell)
    {
      var errors := Setup(present);
      if errors != [] {
        return Err(Exit(""));
      }
      r := Main(f, settings, num, cell);
    }
  }
}
