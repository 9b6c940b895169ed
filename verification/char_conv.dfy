/** Base-10 integer parsing as `std::from_chars` performs it (section 20.19.3
    [charconv.from.chars] of ISO/IEC 14882:2020): an optional `-` (only for signed
    targets, never `+`, no leading blanks), then the longest run of decimal digits. When no
    digit matches the result is `invalid_argument`; when the value does not fit the target
    type it is `result_out_of_range`; otherwise the value and the end of the match. */
module CharConv {

  predicate IsDigit(c: char)
  {
    '0' <= c <= '9'
  }

  function DigitValue(c: char): nat
    requires IsDigit(c)
  {
    (c as int) - ('0' as int)
  }

  function DigitChar(d: nat): (c: char)
    requires d < 10
    ensures IsDigit(c) && DigitValue(c) == d
  {
    (('0' as int) + d) as char
  }

  predicate AllDigits(s: string)
  {
    forall i :: 0 <= i < |s| ==> IsDigit(s[i])
  }

  /** Length of the longest all-digit prefix of `s`. */
  function DigitRun(s: string): (n: nat)
    ensures n <= |s|
    ensures AllDigits(s[..n])
    ensures n < |s| ==> !IsDigit(s[n])
  {
    if s == [] || !IsDigit(s[0]) then 0 else 1 + DigitRun(s[1..])
  }

  /** The number a string of decimal digits denotes (leading zeros allowed). */
  function DecimalValue(d: string): nat
    requires AllDigits(d)
    decreases |d|
  {
    if d == [] then 0 else DecimalValue(d[..|d| - 1]) * 10 + DigitValue(d[|d| - 1])
  }

  /** The canonical decimal spelling of a natural number. */
  function ToDecimal(n: nat): (s: string)
    ensures |s| >= 1 && AllDigits(s)
    decreases n
  {
    if n < 10 then [DigitChar(n)] else ToDecimal(n / 10) + [DigitChar(n % 10)]
  }

  /** The canonical decimal spelling of an integer, with `-` for negatives. */
  function Show(v: int): string
  {
    if v < 0 then "-" + ToDecimal(-v) else ToDecimal(v)
  }

  datatype FromCharsResult = Parsed(value: int, end: nat) | InvalidArgument | ResultOutOfRange

  /** The subject sequence begins with the base-10 pattern. */
  predicate StartsWithNumber(s: string, signed: bool)
  {
    (|s| > 0 && IsDigit(s[0])) || (signed && |s| > 1 && s[0] == '-' && IsDigit(s[1]))
  }

  /** `std::from_chars(first, last, value)` in base 10 for a type with range `lo..hi`. */
  function FromChars(s: string, signed: bool, lo: int, hi: int): (r: FromCharsResult)
    ensures r.InvalidArgument? <==> !StartsWithNumber(s, signed)
    ensures r.Parsed? ==> lo <= r.value <= hi
    ensures r.Parsed? ==> 0 < r.end <= |s| && (r.end == |s| || !IsDigit(s[r.end]))
    ensures r.Parsed? && r.value < 0 ==> signed && s[0] == '-'
  {
    var neg := signed && |s| > 0 && s[0] == '-';
    var digits := if neg then s[1..] else s;
    var n := DigitRun(digits);
    if n == 0 then InvalidArgument
    else
      var magnitude: int := DecimalValue(digits[..n]);
      var v: int := if neg then -magnitude else magnitude;
      if lo <= v <= hi then Parsed(v, if neg then n + 1 else n) else ResultOutOfRange
  }

  lemma {:induction false} DigitRunAfterDigits(d: string, tail: string)
    requires AllDigits(d)
    ensures DigitRun(d + tail) == |d| + DigitRun(tail)
    decreases |d|
  {
    if d == [] {
      assert d + tail == tail;
    } else {
      assert (d + tail)[1..] == d[1..] + tail;
      DigitRunAfterDigits(d[1..], tail);
    }
  }

  /** Reading the canonical spelling gives the number back. */
  lemma {:induction false} DecimalValueOfToDecimal(n: nat)
    ensures DecimalValue(ToDecimal(n)) == n
    decreases n
  {
    if n >= 10 {
      var s := ToDecimal(n);
      var init := ToDecimal(n / 10);
      assert s == init + [DigitChar(n % 10)];
      assert s[..|s| - 1] == init;
      DecimalValueOfToDecimal(n / 10);
    }
  }

  /** A run of digits followed by a non-digit reads as its decimal value, range permitting. */
  lemma ReadDigits(d: string, tail: string, signed: bool, lo: int, hi: int)
    requires d != [] && AllDigits(d)
    requires tail == [] || !IsDigit(tail[0])
    ensures var v := DecimalValue(d);
            FromChars(d + tail, signed, lo, hi) == if lo <= v <= hi then Parsed(v, |d|) else ResultOutOfRange
  {
    var s := d + tail;
    DigitRunAfterDigits(d, tail);
    assert DigitRun(tail) == 0;
    assert s[0] == d[0];
    assert s[..|d|] == d;
  }

  /** Behind a minus sign, a signed parse reads the digit run that follows it. */
  lemma ReadAfterMinus(s: string, lo: int, hi: int)
    requires |s| > 0 && s[0] == '-'
    ensures var n := DigitRun(s[1..]);
            var v := if n == 0 then 0 else -(DecimalValue(s[1..][..n]) as int);
            FromChars(s, true, lo, hi)
            == if n == 0 then InvalidArgument else if lo <= v <= hi then Parsed(v, n + 1) else ResultOutOfRange
  {
  }

  /** The same run behind a minus sign reads as the negated value, for a signed type. */
  lemma ReadNegativeDigits(d: string, tail: string, lo: int, hi: int)
    requires d != [] && AllDigits(d)
    requires tail == [] || !IsDigit(tail[0])
    ensures var v := -(DecimalValue(d) as int);
            FromChars("-" + (d + tail), true, lo, hi) == if lo <= v <= hi then Parsed(v, |d| + 1) else ResultOutOfRange
  {
    var s := "-" + (d + tail);
    var digits := d + tail;
    DigitRunAfterDigits(d, tail);
    assert DigitRun(tail) == 0;
    assert DigitRun(digits) == |d|;
    assert digits[..|d|] == d;
    assert s[0] == '-' && s[1..] == digits;
    ReadAfterMinus(s, lo, hi);
  }

  /** A negative value is spelled as `-` and the digits of its magnitude. */
  lemma ShowNegative(v: int)
    requires v < 0
    ensures Show(v) == "-" + ToDecimal(-v) && DecimalValue(ToDecimal(-v)) == -v
  {
    DecimalValueOfToDecimal(-v);
  }

  /** A non-negative value is spelled as its digits alone. */
  lemma ShowNonNegative(v: int)
    requires v >= 0
    ensures Show(v) == ToDecimal(v) && DecimalValue(ToDecimal(v)) == v
  {
    DecimalValueOfToDecimal(v);
  }

  /** How a signed parse reads the spelling of a negative value. */
  lemma ParseNegative(v: int, tail: string, lo: int, hi: int)
    requires v < 0
    requires tail == [] || !IsDigit(tail[0])
    ensures FromChars(Show(v) + tail, true, lo, hi)
            == if lo <= v <= hi then Parsed(v, |Show(v)|) else ResultOutOfRange
  {
    ShowNegative(v);
    var d := ToDecimal(-v);
    assert Show(v) + tail == "-" + (d + tail);
    ReadNegativeDigits(d, tail, lo, hi);
  }

  /** Round trip: every in-range value, spelled canonically and followed by any text that
      does not start with a digit, is parsed back, the match ending right after it. */
  lemma ShowThenParse(v: int, tail: string, signed: bool, lo: int, hi: int)
    requires lo <= v <= hi
    requires v < 0 ==> signed
    requires tail == [] || !IsDigit(tail[0])
    ensures FromChars(Show(v) + tail, signed, lo, hi) == Parsed(v, |Show(v)|)
  {
    if v < 0 {
      ParseNegative(v, tail, lo, hi);
    } else {
      ShowNonNegative(v);
      ReadDigits(ToDecimal(v), tail, signed, lo, hi);
    }
  }

  /** Out-of-range values are rejected: never `Parsed` for a value the type cannot hold. */
  lemma ShowOutOfRange(v: int, tail: string, signed: bool, lo: int, hi: int)
    requires v < lo || v > hi
    requires tail == [] || !IsDigit(tail[0])
    ensures !FromChars(Show(v) + tail, signed, lo, hi).Parsed?
  {
    if v < 0 {
      if signed {
        ParseNegative(v, tail, lo, hi);
      } else {
        ShowNegative(v);
        assert (Show(v) + tail)[0] == '-';
      }
    } else {
      ShowNonNegative(v);
      ReadDigits(ToDecimal(v), tail, signed, lo, hi);
    }
  }
}
