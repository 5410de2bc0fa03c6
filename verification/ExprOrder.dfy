/**
 * What the six relations of Kconfig expressions mean: between numbers, between logical symbols, and
 * between texts (expr_parse_string and expr_calc_value of scripts/config/expr.c).
 */
module ExprOrder {
  import opened Basics
  import opened CNumbers
  import opened Exprs

  /** Two numbers stand in a relation. */
  predicate Stands(rel: Rel, x: int, y: int) {
    match rel
    case Equal => x == y
    case Unequal => x != y
    case Less => x < y
    case LessEq => x <= y
    case Greater => x > y
    case GreaterEq => x >= y
  }

  // ----- numbers -----

  lemma {:induction false} FirstDigit(n: nat)
    requires n > 0
    ensures Digits(n, 10)[0] != '0'
    decreases n
  {
    if n >= 10 { FirstDigit(n / 10); }
  }

  /** A number that starts with another digit than 0 is decimal where the text tells the base. */
  lemma BaseOfText(s: string, j: nat)
    requires j < |s| && (j == 0 || (j == 1 && s[0] == '-')) && s[j] != '0' && DigitValue(s[j]) < 10
    ensures ScanNumber(s, 0) == ScanNumber(s, 10)
  {
    hide DigitRun, DigitsValue;
    assert !IsSpace(s[0]);
    assert SkipSpace(s, 0) == 0;
  }

  lemma NoDigits(base: nat)
    ensures DigitsValue([], base) == 0
  {
  }

  lemma ZeroTellsBase(s: string)
    requires |s| == 1 && s[0] == '0'
    ensures Strtoll(s, 0) == Parsed(0, 1, false)
  {
    hide DigitRun, DigitsValue;
    DigitRunOfDigits(s, 0, 8);
    DigitsValueSnoc([], '0', 8);
    NoDigits(8);
    assert s[0..1] == [] + ['0'];
    assert SkipSpace(s, 0) == 0 && !HexPrefix(s, 0);
  }

  /** A printed decimal number reads as itself where the text tells the base. */
  lemma DecimalTellsBase(x: int)
    requires LLONG_MIN <= x <= LLONG_MAX
    ensures Strtoll(PrintDecimal(x), 0) == Parsed(x, |PrintDecimal(x)|, false)
  {
    hide ScanNumber;
    if x == 0 {
      ZeroTellsBase(PrintDecimal(x));
    } else {
      var m: nat := if x < 0 then -x else x;
      var s, j, digits := PrintDecimal(x), if x < 0 then 1 else 0, Digits(m, 10);
      FirstDigit(m);
      assert s[j] == digits[0] && digits[0] in digits;
      BaseOfText(s, j);
      DecimalRoundTrip(x);
    }
  }

  /** A printed hexadecimal number reads back modulo 2^64. */
  lemma HexReadsBack(x: int)
    requires LLONG_MIN <= x <= LLONG_MAX
    ensures Strtoull(PrintHex(x), 16) == Parsed(x % TWO_64, |PrintHex(x)|, false)
  {
    hide Digits, ScanNumber, DigitsValue;
    var n: nat := if x < 0 then x + TWO_64 else x;
    assert x % TWO_64 == n;
    HexDigitsScan(n);
  }

  lemma HexDigitsScan(n: nat)
    ensures ScanNumber("0x" + Digits(n, 16), 16) == Scan(n, false, |"0x" + Digits(n, 16)|)
  {
    hide ScanNumber, DigitsValue;
    var s, digits := "0x" + Digits(n, 16), Digits(n, 16);
    assert s[2..] == digits;
    forall k | 2 <= k < |s| ensures DigitValue(s[k]) < 16 {
      assert s[k] == digits[k - 2] && digits[k - 2] in digits;
    }
    ScanHex(s);
    DigitsValueOfDigits(n, 16);
  }

  /** The text of a number, as a symbol of this type has it: 0x in front for hex. */
  function NumberText(kind: SymbolType, x: int): string
    requires LLONG_MIN <= x <= LLONG_MAX
  {
    if kind == HexType then PrintHex(x) else PrintDecimal(x)
  }

  /** An int or hex symbol with the text of a number, or a constant that is one. */
  predicate IsNumber(s: Symbol, x: int, v: Valuation) {
    && LLONG_MIN <= x <= LLONG_MAX
    && (s.Kind() == IntType || s.Kind() == HexType || s.Kind() == UnknownType)
    && v.str(s) == NumberText(s.Kind(), x)
  }

  lemma NumberReads(s: Symbol, x: int, v: Valuation)
    requires IsNumber(s, x, v)
    ensures ParseString(v.str(s), s.Kind())
         == if s.Kind() == HexType then (KUnsigned, x % TWO_64) else (KSigned, x)
  {
    hide Digits, Strtoll, Strtoull;
    var t := v.str(s);
    if s.Kind() == HexType {
      HexReadsBack(x);
      assert t[|t| - 1] == Digits(if x < 0 then x + TWO_64 else x, 16)[|t| - 3];
    } else {
      if s.Kind() == IntType { DecimalRoundTrip(x); } else { DecimalTellsBase(x); }
      var digits := Digits(if x < 0 then -x else x, 10);
      assert t[|t| - 1] == digits[|digits| - 1] && digits[|digits| - 1] in digits;
    }
  }

  /**
   * Numbers are compared as numbers, in each of the six relations: as signed ones, and
   * modulo 2^64 if one of them is hexadecimal.
   */
  lemma NumbersCompare(rel: Rel, l: Symbol, r: Symbol, x: int, y: int, v: Valuation)
    requires IsNumber(l, x, v) && IsNumber(r, y, v)
    ensures Eval(Cmp(rel, l, r), v) == TriOf(
              if l.Kind() == HexType || r.Kind() == HexType then Stands(rel, x % TWO_64, y % TWO_64)
              else Stands(rel, x, y))
  {
    hide ParseString, NumberText;
    NumberReads(l, x, v);
    NumberReads(r, y, v);
    assert x % TWO_64 % TWO_64 == x % TWO_64 && y % TWO_64 % TWO_64 == y % TWO_64;
  }

  // ----- logical symbols -----

  /** Two logical symbols are compared by value. */
  lemma LogicalsCompare(rel: Rel, l: Symbol, r: Symbol, v: Valuation)
    requires WellFormed(v) && l.IsLogical() && r.IsLogical()
    ensures Eval(Cmp(rel, l, r), v) == TriOf(Stands(rel, v.tri(l), v.tri(r)))
  {
    assert TriOfName(TriName(v.tri(l))) == v.tri(l) && TriOfName(TriName(v.tri(r))) == v.tri(r);
  }

  /** The place of y, m and n in the order of their names. */
  function NameOrder(t: Tristate): nat { if t == MOD then 0 else if t == NO then 1 else 2 }

  lemma NamesCompare(t: Tristate, u: Tristate)
    ensures Sign(StrCmp(TriName(t), TriName(u)), 0) == Sign(NameOrder(t), NameOrder(u))
  {
  }

  /** A logical symbol and y, m or n are compared by name, and in the order of names m comes before n. */
  lemma ConstantsCompareByName(rel: Rel, l: Symbol, c: Symbol, v: Valuation)
    requires WellFormed(v) && l.IsLogical() && IsTristateConst(c)
    ensures Eval(Cmp(rel, l, c), v) == TriOf(Stands(rel, NameOrder(v.tri(l)), NameOrder(v.tri(c))))
  {
    hide StrCmp;
    TristateConstIsText(c);
    assert v.str(l) == TriName(v.tri(l)) && v.str(c) == c.name == TriName(v.tri(c));
    NamesCompare(v.tri(l), v.tri(c));
  }

  predicate AreNoAndMod(t: Tristate, u: Tristate) { (t == NO && u == MOD) || (t == MOD && u == NO) }

  /** So the values decide, exactly if the relation is a test for equality or the two are not n and m. */
  lemma ConstantsCompareExactly(rel: Rel, l: Symbol, c: Symbol, v: Valuation)
    requires WellFormed(v) && l.IsLogical() && IsTristateConst(c)
    ensures Eval(Cmp(rel, l, c), v) == TriOf(Stands(rel, v.tri(l), v.tri(c)))
            <==> rel == Equal || rel == Unequal || !AreNoAndMod(v.tri(l), v.tri(c))
  {
    hide Eval, WellFormed;
    ConstantsCompareByName(rel, l, c, v);
  }

  /** A tristate at m is not greater than n, as the source compares them. */
  lemma ModIsNotGreater(a: Symbol) returns (v: Valuation)
    requires a.Kind() == TristateType
    ensures WellFormed(v) && v.tri(a) == MOD && Eval(Cmp(Greater, a, SYM_NO), v) == NO
  {
    var tri := (s: Symbol) =>
      if s == SYM_YES then YES else if s == SYM_MOD || s == a then MOD else NO;
    v := Valuation(tri, (s: Symbol) =>
      if s.IsLogical() then TriName(tri(s)) else if s.Kind() == UnknownType then s.name else "");
    ConstantsCompareByName(Greater, a, SYM_NO, v);
  }

  // ----- texts -----

  /**
   * The first character in which the texts differ decides, or that the first text is a proper beginning of the
   * other.
   */
  ghost predicate Before(a: string, b: string) {
    exists k: nat :: FirstDifference(a, b, k)
  }

  predicate FirstDifference(a: string, b: string, k: nat) {
    k <= |a| && k < |b| && a[..k] == b[..k] && (k == |a| || a[k] < b[k])
  }

  lemma {:induction false} StrCmpIsOrder(a: string, b: string)
    ensures StrCmp(a, b) < 0 <==> Before(a, b)
    decreases |a|
  {
    if a == [] || b == [] {
      assert b != [] ==> FirstDifference(a, b, 0);
    } else if a[0] != b[0] {
      if a[0] < b[0] { assert FirstDifference(a, b, 0); }
      forall k: nat | FirstDifference(a, b, k) ensures a[0] < b[0] {
        if k > 0 { assert a[..k][0] == b[..k][0]; }
      }
    } else {
      StrCmpIsOrder(a[1..], b[1..]);
      if StrCmp(a, b) < 0 {
        var k: nat :| FirstDifference(a[1..], b[1..], k);
        assert a[..k + 1] == [a[0]] + a[1..][..k] && b[..k + 1] == [b[0]] + b[1..][..k];
        assert FirstDifference(a, b, k + 1);
      }
      forall k: nat | FirstDifference(a, b, k) ensures StrCmp(a, b) < 0 {
        assert k > 0;
        assert a[1..][..k - 1] == a[..k][1..] && b[1..][..k - 1] == b[..k][1..];
        assert FirstDifference(a[1..], b[1..], k - 1);
      }
    }
  }

  lemma {:induction false} StrCmpSwaps(a: string, b: string)
    ensures StrCmp(a, b) == -StrCmp(b, a)
    decreases |a|
  {
    if a != [] && b != [] && a[0] == b[0] { StrCmpSwaps(a[1..], b[1..]); }
  }

  /** Two string symbols are compared as texts, in each of the six relations. */
  lemma StringsCompare(rel: Rel, l: Symbol, r: Symbol, v: Valuation)
    requires l.Kind() == StringType && r.Kind() == StringType
    ensures var a, b := v.str(l), v.str(r);
            Eval(Cmp(rel, l, r), v) == TriOf(match rel
                                             case Equal => a == b
                                             case Unequal => a != b
                                             case Less => Before(a, b)
                                             case LessEq => !Before(b, a)
                                             case Greater => Before(b, a)
                                             case GreaterEq => !Before(a, b))
  {
    hide StrCmp;
    StrCmpIsOrder(v.str(l), v.str(r));
    StrCmpIsOrder(v.str(r), v.str(l));
    StrCmpSwaps(v.str(l), v.str(r));
  }
}
