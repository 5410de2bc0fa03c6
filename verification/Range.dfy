/**
 * Values of int and hex symbols and their ranges: sym_string_valid,
 * sym_string_within_range, sym_set_string_value, sym_validate_range and the
 * text part of sym_calc_value (scripts/config/symbol.c).
 */
module Range {
  import opened Basics
  import opened CNumbers
  import opened Exprs

  // ----- valid strings -----

  predicate AllDigits(s: string, base: nat) {
    forall k :: 0 <= k < |s| ==> DigitValue(s[k]) < base
  }

  function WithoutMinus(s: string): string {
    if s != "" && s[0] == '-' then s[1..] else s
  }

  predicate HasHexPrefix(s: string) {
    |s| >= 2 && s[0] == '0' && (s[1] == 'x' || s[1] == 'X')
  }

  function WithoutPrefix(s: string): string {
    if HasHexPrefix(s) then s[2..] else s
  }

  /** A decimal number without superfluous zeros, a hexadecimal number, or any text. */
  predicate ValidText(kind: SymbolType, s: string) {
    match kind
    case IntType =>
      var digits := WithoutMinus(s);
      digits != "" && AllDigits(digits, 10) && (digits[0] == '0' ==> |digits| == 1)
    case HexType => WithoutPrefix(s) != "" && AllDigits(WithoutPrefix(s), 16)
    case StringType => true
    case _ => false
  }

  /** sym_string_valid, for symbols with text values. */
  method StringValid(kind: SymbolType, s: string) returns (ok: bool)
    requires kind != BooleanType && kind != TristateType
    ensures ok == ValidText(kind, s)
  {
    match kind
    case StringType => return true;
    case IntType =>
      var p := 0;
      if p < |s| && s[p] == '-' { p := p + 1; }
      assert WithoutMinus(s) == s[p..];
      if p == |s| || !IsDigit(s[p]) { return false; }
      if s[p] == '0' && p + 1 < |s| { return false; }
      ok := AllDigitsFrom(s, p, 10);
    case HexType =>
      var p := if HasHexPrefix(s) then 2 else 0;
      assert WithoutPrefix(s) == s[p..];
      if p == |s| { return false; }
      ok := AllDigitsFrom(s, p, 16);
    case _ => return false;
  }

  method AllDigitsFrom(s: string, p: nat, base: nat) returns (ok: bool)
    requires p <= |s|
    ensures ok == AllDigits(s[p..], base)
  {
    var i := p;
    while i < |s|
      invariant p <= i <= |s| && forall k :: p <= k < i ==> DigitValue(s[k]) < base
    {
      if DigitValue(s[i]) >= base {
        assert s[p..][i - p] == s[i];
        return false;
      }
      i := i + 1;
    }
    ok := true;
  }

  // ----- ranges -----

  /** A symbol used as a bound: its type and its current text. */
  datatype Bound = Bound(kind: SymbolType, text: string)

  datatype RangeProp = RangeProp(cond: Tristate, lo: Bound, hi: Bound)

  /** The first range whose condition is not n. */
  function ActiveRange(ranges: seq<RangeProp>): Option<RangeProp> {
    if ranges == [] then None
    else if ranges[0].cond != NO then Some(ranges[0])
    else ActiveRange(ranges[1..])
  }

  function BoundValue(b: Bound, base: nat): int
    requires base == 10 || base == 16
  {
    Strtoll(b.text, if b.kind == IntType then 10 else if b.kind == HexType then 16 else base).value
  }

  function Base(kind: SymbolType): (b: nat)
    ensures b == 10 || b == 16
  {
    if kind == HexType then 16 else 10
  }

  function ValueOf(kind: SymbolType, s: string): int { Strtoll(s, Base(kind)).value }

  predicate Numeric(kind: SymbolType) { kind == IntType || kind == HexType }

  predicate Within(kind: SymbolType, s: string, r: RangeProp) {
    BoundValue(r.lo, Base(kind)) <= ValueOf(kind, s) <= BoundValue(r.hi, Base(kind))
  }

  /** sym_string_within_range, for symbols with text values. */
  predicate WithinRange(kind: SymbolType, s: string, ranges: seq<RangeProp>) {
    && ValidText(kind, s)
    && (Numeric(kind) && ActiveRange(ranges).Some? ==> Within(kind, s, ActiveRange(ranges).value))
  }

  /** The bound that replaces a value outside its range: the lower one below it, else the upper one. */
  function Nearest(kind: SymbolType, s: string, r: RangeProp): (x: int)
    ensures LLONG_MIN <= x <= LLONG_MAX
  {
    BoundValue(if ValueOf(kind, s) < BoundValue(r.lo, Base(kind)) then r.lo else r.hi, Base(kind))
  }

  function Print(kind: SymbolType, x: int): string
    requires LLONG_MIN <= x <= LLONG_MAX
  {
    if kind == IntType then PrintDecimal(x) else PrintHex(x)
  }

  function Clamped(kind: SymbolType, s: string, ranges: seq<RangeProp>): string {
    if !Numeric(kind) then s
    else match ActiveRange(ranges)
      case None => s
      case Some(r) => if Within(kind, s, r) then s else Print(kind, Nearest(kind, s, r))
  }

  // ----- laws -----

  /** The active range is the first one whose condition is not n. */
  lemma {:induction false} ActiveRangeIsFirst(ranges: seq<RangeProp>, k: nat)
    ensures ActiveRange(ranges).None? <==> forall j :: 0 <= j < |ranges| ==> ranges[j].cond == NO
    ensures k < |ranges| && ranges[k].cond != NO && (forall j :: 0 <= j < k ==> ranges[j].cond == NO) ==>
              ActiveRange(ranges) == Some(ranges[k])
  {
    if ranges != [] && ranges[0].cond == NO {
      ActiveRangeIsFirst(ranges[1..], if k > 0 then k - 1 else 0);
      assert forall j :: 1 <= j < |ranges| ==> ranges[j] == ranges[1..][j - 1];
    }
  }

  function Distance(x: int, y: int): nat { if x < y then y - x else x - y }

  /** With the bounds in order no number of the range is nearer to the value than the bound put in its place. */
  lemma NoNearerNumber(kind: SymbolType, s: string, r: RangeProp, x: int)
    requires BoundValue(r.lo, Base(kind)) <= x <= BoundValue(r.hi, Base(kind)) && !Within(kind, s, r)
    ensures Distance(ValueOf(kind, s), Nearest(kind, s, r)) <= Distance(ValueOf(kind, s), x)
  {
    hide BoundValue, ValueOf;
  }

  /** A bound is read as its own symbol prints it, whatever the symbol that it bounds. */
  lemma BoundReadsBack(kind: SymbolType, x: int, base: nat)
    requires base == 10 || base == 16
    requires Numeric(kind) && LLONG_MIN <= x <= LLONG_MAX && (kind == HexType ==> x >= 0)
    ensures BoundValue(Bound(kind, Print(kind, x)), base) == x
  {
    if kind == IntType { DecimalRoundTrip(x); } else { HexRoundTrip(x); }
  }

  lemma {:induction false} NegativeHexReadsAsMaximum(x: int)
    requires LLONG_MIN <= x < 0
    ensures Strtoll(PrintHex(x), 16).value == LLONG_MAX
  {
    var n: nat := x + TWO_64;
    var s, digits := PrintHex(x), Digits(n, 16);
    assert s[2..] == digits;
    forall k | 2 <= k < |s| ensures DigitValue(s[k]) < 16 {
      assert s[k] == digits[k - 2] && digits[k - 2] in digits;
    }
    ScanHex(s);
    DigitsValueOfDigits(n, 16);
  }

  /** What a printed bound reads as: itself, but a negative hexadecimal number as the greatest number. */
  lemma PrintedValue(kind: SymbolType, x: int)
    requires Numeric(kind) && LLONG_MIN <= x <= LLONG_MAX
    ensures ValueOf(kind, Print(kind, x)) == if kind == HexType && x < 0 then LLONG_MAX else x
  {
    if kind == IntType { DecimalRoundTrip(x); }
    else if x < 0 { NegativeHexReadsAsMaximum(x); }
    else { HexRoundTrip(x); }
  }

  /**
   * Validation leaves a value in the range exactly if the bounds are in order and,
   * for a hexadecimal symbol, the bound put in place is not negative (or the range is open above).
   */
  lemma ClampedIsWithin(kind: SymbolType, s: string, ranges: seq<RangeProp>)
    requires Numeric(kind) && ActiveRange(ranges).Some?
    ensures var r := ActiveRange(ranges).value;
            var lo, hi := BoundValue(r.lo, Base(kind)), BoundValue(r.hi, Base(kind));
            Within(kind, Clamped(kind, s, ranges), r) <==>
              lo <= hi && (kind == HexType && !Within(kind, s, r) && Nearest(kind, s, r) < 0 ==> hi == LLONG_MAX)
  {
    hide Print, BoundValue, ValueOf;
    var r := ActiveRange(ranges).value;
    if !Within(kind, s, r) { PrintedValue(kind, Nearest(kind, s, r)); }
    BoundValueFits(r.lo, Base(kind));
    BoundValueFits(r.hi, Base(kind));
  }

  lemma BoundValueFits(b: Bound, base: nat)
    requires base == 10 || base == 16
    ensures LLONG_MIN <= BoundValue(b, base) <= LLONG_MAX
  {
  }

  /** What a bound given by a number reads as for a symbol of this type. */
  function NumberBound(x: int): Bound
    requires LLONG_MIN <= x <= LLONG_MAX
  {
    Bound(IntType, PrintDecimal(x))
  }

  lemma NumberBoundIs(x: int, base: nat)
    requires LLONG_MIN <= x <= LLONG_MAX && (base == 10 || base == 16)
    ensures BoundValue(NumberBound(x), base) == x
  {
    DecimalRoundTrip(x);
  }

  /** In the range from 9 to 3 the value 7 becomes 9, which becomes 3, which becomes 9 again. */
  lemma BoundsOutOfOrder() returns (ranges: seq<RangeProp>)
    ensures ActiveRange(ranges).Some?
    ensures Clamped(IntType, PrintDecimal(7), ranges) == PrintDecimal(9)
    ensures Clamped(IntType, PrintDecimal(9), ranges) == PrintDecimal(3)
    ensures Clamped(IntType, PrintDecimal(3), ranges) == PrintDecimal(9)
    ensures forall s :: !Within(IntType, Clamped(IntType, s, ranges), ActiveRange(ranges).value)
  {
    hide BoundValue, ValueOf, PrintDecimal;
    var r := RangeProp(YES, NumberBound(9), NumberBound(3));
    ranges := [r];
    NumberBoundIs(9, 10);
    NumberBoundIs(3, 10);
    PrintedValue(IntType, 7);
    PrintedValue(IntType, 9);
    PrintedValue(IntType, 3);
    forall s ensures !Within(IntType, Clamped(IntType, s, ranges), r) { ClampedIsWithin(IntType, s, ranges); }
  }

  /** A hexadecimal value above a range that ends with -1 is replaced by a text that reads as the greatest number. */
  lemma NegativeHexBound() returns (ranges: seq<RangeProp>)
    ensures ActiveRange(ranges).Some?
    ensures var s := Clamped(HexType, PrintHex(5), ranges);
            s == PrintHex(-1) && ValueOf(HexType, s) == LLONG_MAX && !Within(HexType, s, ActiveRange(ranges).value)
  {
    hide BoundValue, ValueOf, PrintHex;
    var r := RangeProp(YES, NumberBound(-2), NumberBound(-1));
    ranges := [r];
    NumberBoundIs(-2, 16);
    NumberBoundIs(-1, 16);
    PrintedValue(HexType, 5);
    PrintedValue(HexType, -1);
  }

  /** Validating an int symbol twice is validating it once, exactly if the bounds are in order. */
  lemma ClampingTwice(s: string, ranges: seq<RangeProp>)
    requires ActiveRange(ranges).Some?
    ensures var r := ActiveRange(ranges).value;
            var once := Clamped(IntType, s, ranges);
            Clamped(IntType, once, ranges) == once <==> BoundValue(r.lo, 10) <= BoundValue(r.hi, 10)
  {
    hide Print, BoundValue, ValueOf;
    var r := ActiveRange(ranges).value;
    var once := Clamped(IntType, s, ranges);
    ClampedIsWithin(IntType, s, ranges);
    if !Within(IntType, once, r) {
      PrintedValue(IntType, Nearest(IntType, s, r));
      PrintedValue(IntType, Nearest(IntType, once, r));
    }
  }

  /** A value in the range is left as it is, to the letter. */
  lemma AcceptedIsKept(kind: SymbolType, s: string, ranges: seq<RangeProp>)
    requires WithinRange(kind, s, ranges)
    ensures Clamped(kind, s, ranges) == s
  {
  }

  /** The text that sym_set_string_value stores: a hexadecimal number always with its prefix. */
  function Stored(kind: SymbolType, s: string): string {
    if kind == HexType && !HasHexPrefix(s) then "0x" + s else s
  }

  lemma ScanPlainHex(s: string)
    requires s != "" && AllDigits(s, 16)
    ensures ScanNumber(s, 16) == Scan(DigitsValue(s, 16), false, |s|)
  {
    hide DigitsValue, DigitRun;
    DigitRunOfDigits(s, 0, 16);
    assert s[0..|s|] == s && DigitValue(s[0]) < 16 && SkipSpace(s, 0) == 0;
    assert |s| > 1 ==> DigitValue(s[1]) < 16;
    assert !HexPrefix(s, 0);
  }

  lemma PrefixKeepsScan(s: string)
    requires s != "" && AllDigits(s, 16)
    ensures ScanNumber("0x" + s, 16) == Scan(DigitsValue(s, 16), false, |s| + 2)
  {
    hide DigitsValue, ScanNumber;
    var t := "0x" + s;
    assert t[2..] == s;
    forall k | 2 <= k < |t| ensures DigitValue(t[k]) < 16 { assert t[k] == s[k - 2]; }
    ScanHex(t);
  }

  lemma StoredKeepsValue(kind: SymbolType, s: string)
    requires ValidText(kind, s) && Numeric(kind)
    ensures ValidText(kind, Stored(kind, s)) && ValueOf(kind, Stored(kind, s)) == ValueOf(kind, s)
  {
    hide ScanNumber, DigitsValue;
    if kind == HexType && !HasHexPrefix(s) {
      assert ("0x" + s)[2..] == s;
      ScanPlainHex(s);
      PrefixKeepsScan(s);
    }
  }

  /** Storing keeps what the range test said, so a stored value is not changed by validation. */
  lemma StoredIsKept(kind: SymbolType, s: string, ranges: seq<RangeProp>)
    requires WithinRange(kind, s, ranges)
    ensures WithinRange(kind, Stored(kind, s), ranges)
    ensures Clamped(kind, Stored(kind, s), ranges) == Stored(kind, s)
  {
    hide ValueOf, BoundValue, Print, Nearest, ValidText, ActiveRange;
    if Numeric(kind) {
      StoredKeepsValue(kind, s);
    } else {
      StoredText(kind, s);
    }
  }

  lemma StoredText(kind: SymbolType, s: string)
    requires !Numeric(kind)
    ensures Stored(kind, s) == s
  {
  }

  // ----- a symbol -----

  /** A symbol with a text value: its visibility, the value set by the user, and the current value. */
  class TextSymbol {
    const kind: SymbolType
    var visible: Tristate
    var user: bool
    var userVal: Option<string>
    var curr: string

    constructor (kind: SymbolType)
      requires Numeric(kind) || kind == StringType
      ensures this.kind == kind && !user && userVal.None? && curr == ""
    {
      this.kind := kind;
      visible, user, userVal, curr := NO, false, None, "";
    }

    ghost predicate Valid()
      reads this
    {
      (Numeric(kind) || kind == StringType) && (user ==> userVal.Some?)
    }

    method FindRange(ranges: seq<RangeProp>) returns (r: Option<RangeProp>)
      ensures r == ActiveRange(ranges)
    {
      var i := 0;
      while i < |ranges|
        invariant 0 <= i <= |ranges| && ActiveRange(ranges) == ActiveRange(ranges[i..])
      {
        if ranges[i].cond != NO { return Some(ranges[i]); }
        i := i + 1;
      }
      r := None;
    }

    /** sym_validate_range */
    method ValidateRange(ranges: seq<RangeProp>)
      modifies `curr
      ensures curr == Clamped(kind, old(curr), ranges)
    {
      hide PrintDecimal, PrintHex, Strtoll;
      if kind != IntType && kind != HexType { return; }
      var base := if kind == IntType then 10 else 16;
      var r := FindRange(ranges);
      if r.None? { return; }
      var val := Strtoll(curr, base).value;
      var val2 := BoundValue(r.value.lo, base);
      if val >= val2 {
        val2 := BoundValue(r.value.hi, base);
        if val <= val2 { return; }
      }
      BoundValueFits(r.value.lo, base);
      BoundValueFits(r.value.hi, base);
      curr := if kind == IntType then PrintDecimal(val2) else PrintHex(val2);
    }

    /** The text part of sym_calc_value; `fallback` is the text of the default. */
    method CalcValue(visible: Tristate, fallback: string, ranges: seq<RangeProp>)
      requires Valid()
      modifies `visible, `curr
      ensures Valid() && this.visible == visible
      ensures curr == Clamped(kind, if visible != NO && user then userVal.value else fallback, ranges)
    {
      this.visible := visible;
      curr := if visible != NO && user then userVal.value else fallback;
      ValidateRange(ranges);
    }

    /** sym_set_string_value */
    method SetString(s: string, ranges: seq<RangeProp>) returns (ok: bool)
      requires Valid()
      modifies `user, `userVal
      ensures Valid() && ok == WithinRange(kind, s, ranges)
      ensures if ok then user && userVal == Some(Stored(kind, s)) else user == old(user) && userVal == old(userVal)
    {
      hide Strtoll, ValidText, ActiveRange, BoundValue;
      var valid := StringValid(kind, s);
      if !valid { return false; }
      var r := FindRange(ranges);
      if Numeric(kind) && r.Some? {
        var val := Strtoll(s, Base(kind)).value;
        if !(BoundValue(r.value.lo, Base(kind)) <= val <= BoundValue(r.value.hi, Base(kind))) { return false; }
      }
      user := true;
      if kind == HexType && !HasHexPrefix(s) {
        userVal := Some("0x" + s);
      } else if userVal.None? || userVal.value != s {
        userVal := Some(s);
      }
      ok := true;
    }
  }

  /**
   * An accepted text survives any number of recalculations of a visible symbol, whatever
   * its default, while its ranges stay the same: the symbol has the stored text, with the value given.
   */
  method SetAndCalculate(sym: TextSymbol, s: string, fallbacks: seq<string>, visible: Tristate, ranges: seq<RangeProp>)
    returns (ok: bool)
    requires sym.Valid() && visible != NO
    modifies sym
    ensures ok == WithinRange(sym.kind, s, ranges)
    ensures ok && fallbacks != [] ==> sym.curr == Stored(sym.kind, s)
    ensures ok && fallbacks != [] && Numeric(sym.kind) ==> ValueOf(sym.kind, sym.curr) == ValueOf(sym.kind, s)
  {
    ok := sym.SetString(s, ranges);
    if ok {
      StoredIsKept(sym.kind, s, ranges);
      if Numeric(sym.kind) { StoredKeepsValue(sym.kind, s); }
    }
    for k := 0 to |fallbacks|
      invariant sym.Valid() && (ok ==> sym.user && sym.userVal == Some(Stored(sym.kind, s)))
      invariant ok && k > 0 ==> sym.curr == Stored(sym.kind, s)
    {
      sym.CalcValue(visible, fallbacks[k], ranges);
    }
  }
}
