/**
 * Kconfig expressions and their three-valued meaning (scripts/config/expr.h and
 * the evaluator of scripts/config/expr.c).
 */
module Exprs {
  import opened Basics
  import opened CNumbers

  /** no, mod and yes, in the order of the C enumeration. */
  type Tristate = x: int | 0 <= x <= 2

  const NO: Tristate := 0
  const MOD: Tristate := 1
  const YES: Tristate := 2

  function TriAnd(a: Tristate, b: Tristate): Tristate { if a < b then a else b }

  function TriOr(a: Tristate, b: Tristate): Tristate { if a > b then a else b }

  function TriNot(a: Tristate): Tristate { 2 - a }

  function TriOf(b: bool): Tristate { if b then YES else NO }

  function TriName(a: Tristate): string {
    if a == NO then "n" else if a == MOD then "m" else "y"
  }

  datatype SymbolType = UnknownType | BooleanType | TristateType | IntType | HexType | StringType

  /**
   * A symbol. The interning table makes pointer equality the equality of this
   * datatype: one constant per name (the three built-in constants among them),
   * and one configuration symbol per number.
   */
  datatype Symbol =
    | Const(name: string)
    | Config(id: nat, name: string, kind: SymbolType)
  {
    function Kind(): SymbolType { if Const? then UnknownType else kind }

    predicate IsLogical() { Kind() == BooleanType || Kind() == TristateType }
  }

  const SYM_YES := Const("y")
  const SYM_MOD := Const("m")
  const SYM_NO := Const("n")

  predicate IsTristateConst(s: Symbol) {
    s == SYM_YES || s == SYM_MOD || s == SYM_NO
  }

  datatype Rel = Equal | Unequal | Less | LessEq | Greater | GreaterEq

  datatype Op = AndOp | OrOp

  datatype Expr =
    | Sym(sym: Symbol)
    | Cmp(rel: Rel, lhs: Symbol, rhs: Symbol)
    | Not(e: Expr)
    | Bin(op: Op, left: Expr, right: Expr)

  function Size(e: Expr): (n: nat)
    ensures n >= 1
  {
    match e
    case Sym(_) => 1
    case Cmp(_, _, _) => 1
    case Not(e) => 1 + Size(e)
    case Bin(_, l, r) => 1 + Size(l) + Size(r)
  }

  /** The current values of all symbols: the three-valued one and the one read as text. */
  datatype Valuation = Valuation(tri: Symbol -> Tristate, str: Symbol -> string)

  /**
   * What symbol calculation guarantees of the current values: a boolean is never
   * m, the text of a boolean or tristate symbol is that of its value, a symbol
   * without type stands for its own name, and only the logical symbols and the
   * built-in constants differ from n.
   */
  ghost predicate WellFormed(v: Valuation) {
    && v.tri(SYM_YES) == YES && v.tri(SYM_MOD) == MOD && v.tri(SYM_NO) == NO
    && forall s: Symbol ::
         && (s.Kind() == BooleanType ==> v.tri(s) != MOD)
         && (s.IsLogical() ==> v.str(s) == TriName(v.tri(s)))
         && (s.Kind() == UnknownType ==> v.str(s) == s.name)
         && (!s.IsLogical() && !IsTristateConst(s) ==> v.tri(s) == NO)
  }

  datatype StringKind = KString | KSigned | KUnsigned

  function ParseString(s: string, kind: SymbolType): (StringKind, int) {
    match kind
    case BooleanType => (KSigned, TriOfName(s))
    case TristateType => (KSigned, TriOfName(s))
    case IntType => Accept(s, KSigned, Strtoll(s, 10))
    case HexType => Accept(s, KUnsigned, Strtoull(s, 16))
    case UnknownType => Accept(s, KSigned, Strtoll(s, 0))
    case StringType => Accept(s, KSigned, Strtoll(s, 0))
  }

  function TriOfName(s: string): int {
    if s == "n" then 0 else if s == "m" then 1 else if s == "y" then 2 else -1
  }

  function Accept(s: string, kind: StringKind, p: Parsed): (StringKind, int) {
    (if !p.erange && p.tail == |s| && p.tail > 0 && DigitValue(s[p.tail - 1]) < 16 then kind else KString,
     p.value)
  }

  function StrCmp(a: string, b: string): (r: int)
    ensures r == 0 <==> a == b
  {
    if a == [] || b == [] then |a| - |b|
    else if a[0] != b[0] then a[0] as int - b[0] as int
    else
      assert a == [a[0]] + a[1..] && b == [b[0]] + b[1..];
      StrCmp(a[1..], b[1..])
  }

  function Sign(x: int, y: int): int {
    if x > y then 1 else if x < y then -1 else 0
  }

  /** The number whose sign decides a comparison: numeric where both sides read as numbers. */
  function Compare(l: Symbol, r: Symbol, v: Valuation): int {
    var s1, s2 := v.str(l), v.str(r);
    var text := l.Kind() == StringType && r.Kind() == StringType;
    var (k1, x1) := if text then (KString, 0) else ParseString(s1, l.Kind());
    var (k2, x2) := if text then (KString, 0) else ParseString(s2, r.Kind());
    if k1 == KString || k2 == KString then StrCmp(s1, s2)
    else if k1 == KUnsigned || k2 == KUnsigned then Sign(x1 % TWO_64, x2 % TWO_64)
    else Sign(x1, x2)
  }

  function Holds(rel: Rel, res: int): bool {
    match rel
    case Equal => res == 0
    case Unequal => res != 0
    case Less => res < 0
    case LessEq => res <= 0
    case Greater => res > 0
    case GreaterEq => res >= 0
  }

  function Apply(op: Op, a: Tristate, b: Tristate): Tristate {
    if op == AndOp then TriAnd(a, b) else TriOr(a, b)
  }

  /** expr_calc_value on calculated symbols. */
  function Eval(e: Expr, v: Valuation): Tristate {
    match e
    case Sym(s) => v.tri(s)
    case Cmp(rel, l, r) => TriOf(Holds(rel, Compare(l, r, v)))
    case Not(e) => TriNot(Eval(e, v))
    case Bin(op, l, r) => Apply(op, Eval(l, v), Eval(r, v))
  }

  /** A missing expression counts as yes. */
  function EvalDep(e: Option<Expr>, v: Valuation): Tristate {
    if e.None? then YES else Eval(e.value, v)
  }

  /** expr_alloc_and */
  function AllocAnd(a: Option<Expr>, b: Option<Expr>): (r: Option<Expr>)
    ensures forall v :: EvalDep(r, v) == TriAnd(EvalDep(a, v), EvalDep(b, v))
  {
    if a.None? then b else if b.None? then a else Some(Bin(AndOp, a.value, b.value))
  }

  /** A constant that reads as one of the numbers 0, 1, 2 compares equal to n, m, y. */
  predicate NumericConst(s: Symbol) {
    s.Const? && ParseString(s.name, UnknownType).0 == KSigned && 0 <= ParseString(s.name, UnknownType).1 <= 2
  }

  /** No equality test of a tristate symbol against a constant that reads as 0, 1 or 2. */
  predicate PlainTests(e: Expr) {
    match e
    case Sym(_) => true
    case Cmp(_, l, r) => l.Kind() == TristateType ==> !NumericConst(r)
    case Not(e) => PlainTests(e)
    case Bin(_, l, r) => PlainTests(l) && PlainTests(r)
  }

  predicate PlainDep(e: Option<Expr>) {
    e.Some? ==> PlainTests(e.value)
  }

  /** The values of a tristate symbol at which `a = c` holds, for a constant `c`. */
  predicate Denotes(c: Symbol, t: Tristate)
    requires c.Const?
  {
    var (k, x) := ParseString(c.name, UnknownType);
    if k == KSigned then x == t else c.name == TriName(t)
  }

  lemma TristateConstIsText(c: Symbol)
    requires IsTristateConst(c)
    ensures ParseString(c.name, UnknownType).0 == KString
    ensures !NumericConst(c)
  {
    assert SkipSpace(c.name, 0) == 0;
    assert ScanNumber(c.name, 0) == Scan(0, false, 0);
  }

  /** Testing a logical symbol against a constant reads off what the constant denotes. */
  lemma CompareWithConst(l: Symbol, c: Symbol, v: Valuation)
    requires WellFormed(v) && l.IsLogical() && c.Const?
    ensures Compare(l, c, v) == 0 <==> Denotes(c, v.tri(l))
  {
    hide Strtoll, Strtoull, StrCmp;
    assert v.str(c) == c.name;
    assert v.str(l) == TriName(v.tri(l));
    assert TriOfName(TriName(v.tri(l))) == v.tri(l);
  }

  /** Testing a logical symbol against y, m or n is a test of its value. */
  lemma CompareWithTristate(l: Symbol, c: Symbol, v: Valuation)
    requires WellFormed(v) && l.IsLogical() && IsTristateConst(c)
    ensures Compare(l, c, v) == 0 <==> v.tri(l) == v.tri(c)
  {
    CompareWithConst(l, c, v);
    TristateConstIsText(c);
  }
}
