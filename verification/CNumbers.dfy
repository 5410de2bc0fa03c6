/**
 * The number parsing of the C library (strtoll, strtoull, strtoul) and the
 * number printing (%lld, 0x%llx) that scripts/config relies on, over 64-bit
 * `long long` and `unsigned long`.
 */
module CNumbers {
  import opened Basics

  const LLONG_MAX := 0x7fff_ffff_ffff_ffff
  const LLONG_MIN := -0x8000_0000_0000_0000

  predicate IsSpace(c: char) {
    c == ' ' || '\t' <= c <= '\r'
  }

  predicate IsDigit(c: char) {
    '0' <= c <= '9'
  }

  /** The value of `c` as a digit of a base up to sixteen; sixteen for anything else. */
  function DigitValue(c: char): (d: nat)
    ensures d <= 16
  {
    if '0' <= c <= '9' then c as int - '0' as int
    else if 'a' <= c <= 'f' then c as int - 'a' as int + 10
    else if 'A' <= c <= 'F' then c as int - 'A' as int + 10
    else 16
  }

  function SkipSpace(s: string, i: nat): (j: nat)
    requires i <= |s|
    ensures i <= j <= |s|
    decreases |s| - i
  {
    if i < |s| && IsSpace(s[i]) then SkipSpace(s, i + 1) else i
  }

  /** The number of consecutive digits of `base` that start at `i`. */
  function DigitRun(s: string, i: nat, base: nat): (n: nat)
    requires i <= |s| && base <= 16
    ensures i + n <= |s|
    ensures forall k :: i <= k < i + n ==> DigitValue(s[k]) < base
    ensures i + n < |s| ==> DigitValue(s[i + n]) >= base
    decreases |s| - i
  {
    if i < |s| && DigitValue(s[i]) < base then 1 + DigitRun(s, i + 1, base) else 0
  }

  /** The number that a string of digits denotes. */
  function DigitsValue(s: string, base: nat): nat {
    if s == [] then 0
    else DigitsValue(s[..|s| - 1], base) * base + DigitValue(s[|s| - 1])
  }

  predicate HexPrefix(s: string, j: nat) {
    j + 2 < |s| && s[j] == '0' && (s[j + 1] == 'x' || s[j + 1] == 'X') && DigitValue(s[j + 2]) < 16
  }

  /** What the scan of a number finds: its size, its sign, and where it stopped (0: no number). */
  datatype Scan = Scan(magnitude: nat, negative: bool, tail: nat)

  function ScanNumber(s: string, base: nat): (r: Scan)
    requires base == 0 || base == 10 || base == 16
    ensures r.tail <= |s|
  {
    var i := SkipSpace(s, 0);
    var j := if i < |s| && (s[i] == '-' || s[i] == '+') then i + 1 else i;
    var hex := base != 10 && HexPrefix(s, j);
    var b := if base != 0 then base else if hex then 16 else if j < |s| && s[j] == '0' then 8 else 10;
    var k := if hex then j + 2 else j;
    var n := DigitRun(s, k, b);
    if n == 0 then Scan(0, false, 0)
    else Scan(DigitsValue(s[k..k + n], b), s[i] == '-', k + n)
  }

  /** A parsed number, the index of the first character not used, and whether errno became ERANGE. */
  datatype Parsed = Parsed(value: int, tail: nat, erange: bool)

  function Strtoll(s: string, base: nat): (r: Parsed)
    requires base == 0 || base == 10 || base == 16
    ensures LLONG_MIN <= r.value <= LLONG_MAX && r.tail <= |s|
  {
    var n := ScanNumber(s, base);
    var m: int := n.magnitude;
    var x: int := if n.negative then -m else m;
    if x > LLONG_MAX then Parsed(LLONG_MAX, n.tail, true)
    else if x < LLONG_MIN then Parsed(LLONG_MIN, n.tail, true)
    else Parsed(x, n.tail, false)
  }

  /** strtoull and, `unsigned long` having 64 bits, strtoul: a minus sign negates modulo 2^64. */
  function Strtoull(s: string, base: nat): (r: Parsed)
    requires base == 0 || base == 10 || base == 16
    ensures 0 <= r.value < TWO_64 && r.tail <= |s|
  {
    var n := ScanNumber(s, base);
    if n.magnitude >= TWO_64 then Parsed(TWO_64 - 1, n.tail, true)
    else if n.negative && n.magnitude > 0 then Parsed(TWO_64 - n.magnitude, n.tail, false)
    else Parsed(n.magnitude, n.tail, false)
  }

  function DigitChar(d: nat): (c: char)
    requires d < 16
    ensures DigitValue(c) == d && !IsSpace(c) && c != '-' && c != '+' && c != 'x' && c != 'X'
    ensures d < 10 ==> IsDigit(c)
    ensures c == '0' <==> d == 0
  {
    if d < 10 then '0' + d as char else 'a' + (d - 10) as char
  }

  /** The digits of `n` in `base`, without leading zeros. */
  function Digits(n: nat, base: nat): (s: string)
    requires base == 10 || base == 16
    ensures |s| > 0
    ensures forall c :: c in s ==> DigitValue(c) < base && !IsSpace(c) && c != '-' && c != '+' && c != 'x' && c != 'X'
    decreases n
  {
    if n < base then [DigitChar(n)] else Digits(n / base, base) + [DigitChar(n % base)]
  }

  /** printf("%lld"). */
  function PrintDecimal(x: int): string {
    if x < 0 then "-" + Digits(-x, 10) else Digits(x, 10)
  }

  /** printf("0x%llx"): a negative number prints as its 64-bit two's complement. */
  function PrintHex(x: int): string
    requires LLONG_MIN <= x <= LLONG_MAX
  {
    "0x" + Digits(if x < 0 then x + TWO_64 else x, 16)
  }

  lemma DigitsValueSnoc(front: string, c: char, base: nat)
    ensures DigitsValue(front + [c], base) == DigitsValue(front, base) * base + DigitValue(c)
  {
    assert (front + [c])[..|front|] == front;
  }

  lemma DigitStep(n: nat, base: nat)
    requires base == 10 || base == 16
    ensures n / base * base + n % base == n
  {
    if base == 10 { assert n / 10 * 10 + n % 10 == n; } else { assert n / 16 * 16 + n % 16 == n; }
  }

  lemma {:induction false} DigitsValueOfDigits(n: nat, base: nat)
    requires base == 10 || base == 16
    ensures DigitsValue(Digits(n, base), base) == n
    decreases n
  {
    if n < base {
      DigitsValueSnoc([], DigitChar(n), base);
      assert [] + [DigitChar(n)] == Digits(n, base);
    } else {
      DigitsValueOfDigits(n / base, base);
      DigitsValueSnoc(Digits(n / base, base), DigitChar(n % base), base);
      DigitStep(n, base);
    }
  }

  /** A string of digits is one digit run. */
  lemma {:induction false} DigitRunOfDigits(s: string, i: nat, base: nat)
    requires i <= |s| && base <= 16
    requires forall k :: i <= k < |s| ==> DigitValue(s[k]) < base
    ensures DigitRun(s, i, base) == |s| - i
    decreases |s| - i
  {
    if i < |s| { DigitRunOfDigits(s, i + 1, base); }
  }

  /** A string whose digits start at `j`, after nothing but a possible minus sign. */
  lemma ScanDecimal(s: string, j: nat)
    requires j < |s| && (j == 0 || (j == 1 && s[0] == '-'))
    requires forall k :: j <= k < |s| ==> DigitValue(s[k]) < 10
    ensures ScanNumber(s, 10) == Scan(DigitsValue(s[j..], 10), j == 1, |s|)
  {
    DigitRunOfDigits(s, j, 10);
    assert s[j..j + (|s| - j)] == s[j..];
    assert DigitValue(s[j]) < 10;
    assert SkipSpace(s, 0) == 0;
  }

  lemma ScanHex(s: string)
    requires |s| > 2 && s[0] == '0' && s[1] == 'x'
    requires forall k :: 2 <= k < |s| ==> DigitValue(s[k]) < 16
    ensures ScanNumber(s, 16) == Scan(DigitsValue(s[2..], 16), false, |s|)
  {
    DigitRunOfDigits(s, 2, 16);
    assert s[2..2 + (|s| - 2)] == s[2..];
    assert SkipSpace(s, 0) == 0 && HexPrefix(s, 0);
  }

  /** Printing in decimal and parsing in base ten are inverse on every `long long`. */
  lemma DecimalRoundTrip(x: int)
    requires LLONG_MIN <= x <= LLONG_MAX
    ensures Strtoll(PrintDecimal(x), 10) == Parsed(x, |PrintDecimal(x)|, false)
  {
    var m: nat := if x < 0 then -x else x;
    var s, j, digits := PrintDecimal(x), if x < 0 then 1 else 0, Digits(m, 10);
    assert s[j..] == digits;
    forall k | j <= k < |s| ensures DigitValue(s[k]) < 10 {
      assert s[k] == digits[k - j] && digits[k - j] in digits;
    }
    ScanDecimal(s, j);
    DigitsValueOfDigits(m, 10);
  }

  /** Printing in hexadecimal and parsing in base sixteen are inverse on non-negative numbers. */
  lemma HexRoundTrip(x: int)
    requires 0 <= x <= LLONG_MAX
    ensures Strtoll(PrintHex(x), 16) == Parsed(x, |PrintHex(x)|, false)
  {
    var s, digits := PrintHex(x), Digits(x, 16);
    assert s[2..] == digits;
    forall k | 2 <= k < |s| ensures DigitValue(s[k]) < 16 {
      assert s[k] == digits[k - 2] && digits[k - 2] in digits;
    }
    ScanHex(s);
    DigitsValueOfDigits(x, 16);
  }
}
