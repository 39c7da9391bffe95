/**
 * `std::istringstream(text) >> n` for an `int n`, as the port field is read:
 * leading white space is skipped, an optional sign and a run of decimal digits
 * are consumed, and reading stops at the first other character. No digits
 * stores 0; a value beyond `int` stores `INT_MAX` or `INT_MIN` (C++11).
 */
module PortText {

  const INT_MIN: int := -0x8000_0000
  const INT_MAX: int := 0x7FFF_FFFF

  /** White space of the "C" locale: space, `\t`, `\n`, `\v`, `\f`, `\r`. */
  predicate IsSpace(c: char) {
    c == ' ' || 9 <= c as int <= 13
  }

  predicate IsDigit(c: char) {
    '0' <= c <= '9'
  }

  function DigitValue(c: char): nat
    requires IsDigit(c)
  {
    c as int - '0' as int
  }

  function DigitChar(d: nat): (c: char)
    requires d < 10
    ensures IsDigit(c) && DigitValue(c) == d
  {
    ('0' as int + d) as char
  }

  /** First position at or after `i` that is not white space. */
  function SkipSpace(s: string, i: nat): (j: nat)
    requires i <= |s|
    ensures i <= j <= |s|
    ensures forall k :: i <= k < j ==> IsSpace(s[k])
    ensures j < |s| ==> !IsSpace(s[j])
    decreases |s| - i
  {
    if i < |s| && IsSpace(s[i]) then SkipSpace(s, i + 1) else i
  }

  /** End of the run of digits that starts at `i`. */
  function DigitsEnd(s: string, i: nat): (j: nat)
    requires i <= |s|
    ensures i <= j <= |s|
    ensures forall k :: i <= k < j ==> IsDigit(s[k])
    ensures j < |s| ==> !IsDigit(s[j])
    decreases |s| - i
  {
    if i < |s| && IsDigit(s[i]) then DigitsEnd(s, i + 1) else i
  }

  /** Decimal value of a string of digits, most significant first. */
  function DigitsValue(t: string): nat
    requires forall k :: 0 <= k < |t| ==> IsDigit(t[k])
    decreases |t|
  {
    if |t| == 0 then 0 else 10 * DigitsValue(t[..|t| - 1]) + DigitValue(t[|t| - 1])
  }

  /** What the stream stores into an `int` for a value that does not fit. */
  function Clamp(v: int): (r: int)
  {
    if v < INT_MIN then INT_MIN else if v > INT_MAX then INT_MAX else v
  }

  /** The value `istringstream >> int` stores for `text`. */
  function ReadInt(text: string): (n: int)
    ensures INT_MIN <= n <= INT_MAX
    ensures (forall k :: 0 <= k < |text| ==> !IsDigit(text[k])) ==> n == 0
  {
    var i := SkipSpace(text, 0);
    var negative := i < |text| && text[i] == '-';
    var j := if i < |text| && (text[i] == '+' || text[i] == '-') then i + 1 else i;
    var k := DigitsEnd(text, j);
    if k == j then 0
    else
      var v: int := DigitsValue(text[j..k]);
      Clamp(if negative then -v else v)
  }

  /** Decimal rendering of a natural number, without leading zeros. */
  function ToDecimal(n: nat): (t: string)
    ensures |t| >= 1
    ensures forall k :: 0 <= k < |t| ==> IsDigit(t[k])
    decreases n
  {
    if n < 10 then [DigitChar(n)] else ToDecimal(n / 10) + [DigitChar(n % 10)]
  }

  /** Reading back a decimal rendering gives the number. */
  lemma {:induction false} DigitsValueToDecimal(n: nat)
    ensures DigitsValue(ToDecimal(n)) == n
    decreases n
  {
    if n >= 10 {
      var t := ToDecimal(n);
      assert t[..|t| - 1] == ToDecimal(n / 10);
      DigitsValueToDecimal(n / 10);
    }
  }

  /** The digit run of `ToDecimal(n) + rest` is exactly `ToDecimal(n)` when `rest` does not go on with a digit. */
  lemma DecimalPrefix(n: nat, rest: string)
    requires |rest| == 0 || !IsDigit(rest[0])
    ensures SkipSpace(ToDecimal(n) + rest, 0) == 0
    ensures DigitsEnd(ToDecimal(n) + rest, 0) == |ToDecimal(n)|
    ensures (ToDecimal(n) + rest)[0..|ToDecimal(n)|] == ToDecimal(n)
  {
    var d := ToDecimal(n);
    var s := d + rest;
    assert s[0] == d[0];
    forall k | 0 <= k < |d| ensures IsDigit(s[k]) {
      assert s[k] == d[k];
    }
    if |rest| > 0 {
      assert s[|d|] == rest[0];
    }
  }

  /**
   * Reading the decimal rendering of a value that fits an `int` gives the value
   * back, and so it does when other text follows that does not start with a digit.
   */
  lemma ReadIntDecimal(n: nat, rest: string)
    requires n <= INT_MAX
    requires |rest| == 0 || !IsDigit(rest[0])
    ensures ReadInt(ToDecimal(n) + rest) == n
  {
    DecimalPrefix(n, rest);
    DigitsValueToDecimal(n);
  }

  /** A decimal rendering too large for an `int` is read as `INT_MAX`. */
  lemma ReadIntSaturates(n: nat)
    requires n > INT_MAX
    ensures ReadInt(ToDecimal(n)) == INT_MAX
  {
    DecimalPrefix(n, []);
    assert ToDecimal(n) + [] == ToDecimal(n);
    DigitsValueToDecimal(n);
  }

  /** A minus sign before a rendering gives the negated value, saturated at `INT_MIN`. */
  lemma ReadIntNegative(n: nat)
    ensures ReadInt("-" + ToDecimal(n)) == Clamp(-(n as int))
    ensures ReadInt("-" + ToDecimal(n)) <= 0
  {
    var d := ToDecimal(n);
    var s := "-" + d;
    assert SkipSpace(s, 0) == 0;
    forall k | 1 <= k < |s| ensures IsDigit(s[k]) {
      assert s[k] == d[k - 1];
    }
    assert DigitsEnd(s, 1) == |s|;
    assert s[1..|s|] == d;
    DigitsValueToDecimal(n);
  }
}
