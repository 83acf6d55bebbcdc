/** Integer helpers with Python's meaning: `math.ceil(a / b)`, `int(text)`,
    `str(n)`, and slicing `s[i:j]` with negative and out-of-range bounds. */
module Numbers {
  import opened Wrappers
  import opened Strings

  /** `math.ceil(a / b)` for a non-negative numerator and positive divisor. */
  function CeilDiv(a: nat, b: nat): (r: nat)
    requires b > 0
    ensures r * b >= a
    ensures r == 0 || (r - 1) * b < a
  {
    (a + b - 1) / b
  }

  /** Python's `max(0, min(i, n))` after adding `n` to a negative `i`: where a slice bound lands. */
  function SliceBound(i: int, n: nat): (r: nat)
    ensures r <= n
  {
    if i < 0 then (if i + n < 0 then 0 else i + n) else (if i > n then n else i)
  }

  /** Python's `s[i:j]`. */
  function Slice<T>(s: seq<T>, i: int, j: int): seq<T> {
    var a := SliceBound(i, |s|);
    var b := SliceBound(j, |s|);
    if a < b then s[a..b] else []
  }

  /** With 1-based inclusive coordinates inside the string, `s[start-1:stop]`
      is exactly the characters from `start` to `stop`. */
  lemma SliceOneBased<T>(s: seq<T>, start: int, stop: int)
    requires 1 <= start <= stop <= |s|
    ensures Slice(s, start - 1, stop) == s[start - 1..stop]
    ensures |Slice(s, start - 1, stop)| == stop - start + 1
  {
  }

  predicate IsDigit(ch: char) { '0' <= ch <= '9' }

  predicate AllDigits(s: string) { forall i :: 0 <= i < |s| ==> IsDigit(s[i]) }

  /** The value of a string of decimal digits, read left to right. */
  function DigitsValue(s: string): nat
    requires AllDigits(s)
  {
    if s == [] then 0
    else DigitsValue(s[..|s| - 1]) * 10 + (s[|s| - 1] as int - '0' as int)
  }

  /** Python's `int(text)` for decimal text: surrounding whitespace is
      ignored, a sign is optional, at least one digit is required;
      anything else raises ValueError. */
  function ParseInt(text: string): Result<int, Failure> {
    var t := Strip(text, Whitespace);
    if |t| > 0 && (t[0] == '-' || t[0] == '+') then
      if |t| > 1 && AllDigits(t[1..]) then
        var v: int := DigitsValue(t[1..]);
        Ok(if t[0] == '-' then -v else v)
      else Err(ValueError)
    else if |t| > 0 && AllDigits(t) then Ok(DigitsValue(t))
    else Err(ValueError)
  }

  function DigitChar(d: nat): char
    requires d < 10
  {
    ('0' as int + d) as char
  }

  /** Python's `str(n)` for a natural number. */
  function NatToString(n: nat): (r: string)
    ensures |r| > 0 && AllDigits(r)
  {
    if n < 10 then [DigitChar(n)] else NatToString(n / 10) + [DigitChar(n % 10)]
  }

  /** Python's `str(i)`. */
  function IntToString(i: int): string {
    if i < 0 then "-" + NatToString(-i) else NatToString(i)
  }

  lemma {:induction false} DigitsOfNat(n: nat)
    ensures DigitsValue(NatToString(n)) == n
  {
    if n >= 10 {
      DigitsOfNat(n / 10);
      var s := NatToString(n);
      assert s[..|s| - 1] == NatToString(n / 10);
    }
  }

  /** `int(str(i)) == i`. */
  lemma ParseIntOfString(i: int)
    ensures ParseInt(IntToString(i)) == Ok(i)
  {
    var s := IntToString(i);
    var n := if i < 0 then -i else i;
    DigitsOfNat(n);
    assert IsDigit(NatToString(n)[|NatToString(n)| - 1]);
    StripUntouched(s, Whitespace);
    if i < 0 {
      assert s[1..] == NatToString(n);
    }
  }
}
