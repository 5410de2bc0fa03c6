/**
 * Removal of duplicate and redundant operands (expr_join_or, expr_join_and,
 * expr_eliminate_dups1 and expr_eliminate_dups of scripts/config/expr.c).
 */
module ExprDups {
  import opened Basics
  import opened Exprs
  import opened ExprEq
  import opened ExprTransform

  // ----- joining two operands -----

  /** The symbol that the first operand is about, if it has one of the shapes that can be joined. */
  function FirstSubject(e: Expr): Option<Symbol> {
    match e
    case Sym(s) => Some(s)
    case Cmp(rel, l, _) => if rel == Equal || rel == Unequal then Some(l) else None
    case Not(Sym(s)) => Some(s)
    case Not(Cmp(rel, l, _)) => if rel == Equal || rel == Unequal then Some(l) else None
    case _ => None
  }

  /** The same for the second operand, where a negated test is not accepted. */
  function SecondSubject(e: Expr): Option<Symbol> {
    if e.Not? && !e.e.Sym? then None else FirstSubject(e)
  }

  predicate IsTest(e: Expr, rel: Rel, c: Symbol) { e.Cmp? && e.rel == rel && e.rhs == c }

  predicate TestsOf(e1: Expr, e2: Expr, rel: Rel, c: Symbol, d: Symbol) {
    (IsTest(e1, rel, c) && IsTest(e2, rel, d)) || (IsTest(e1, rel, d) && IsTest(e2, rel, c))
  }

  predicate SymbolAndTest(e1: Expr, e2: Expr, rel: Rel, c: Symbol) {
    (e1.Sym? && IsTest(e2, rel, c)) || (e2.Sym? && IsTest(e1, rel, c))
  }

  predicate SymbolAndNegation(e1: Expr, e2: Expr) {
    e1.Sym? && e2.Not? && e2.e.Sym?
  }

  /** expr_join_or */
  function JoinOr(e1: Expr, e2: Expr): Option<Expr> {
    var sym := FirstSubject(e1);
    if Eq(e1, e2) then Some(e1)
    else if sym.None? || SecondSubject(e2) != sym || !sym.value.IsLogical() then None
    else if sym.value.Kind() == TristateType then
      if TestsOf(e1, e2, Equal, SYM_YES, SYM_MOD) then Some(Cmp(Unequal, sym.value, SYM_NO))
      else if TestsOf(e1, e2, Equal, SYM_YES, SYM_NO) then Some(Cmp(Unequal, sym.value, SYM_MOD))
      else if TestsOf(e1, e2, Equal, SYM_MOD, SYM_NO) then Some(Cmp(Unequal, sym.value, SYM_YES))
      else None
    else if SymbolAndNegation(e1, e2) || SymbolAndNegation(e2, e1) then Some(Sym(SYM_YES))
    else None
  }

  /** expr_join_and */
  function JoinAnd(e1: Expr, e2: Expr): Option<Expr> {
    var sym := FirstSubject(e1);
    if Eq(e1, e2) then Some(e1)
    else if sym.None? || SecondSubject(e2) != sym || !sym.value.IsLogical() then None
    else if SymbolAndTest(e1, e2, Equal, SYM_YES) then Some(Cmp(Equal, sym.value, SYM_YES))
    else if SymbolAndTest(e1, e2, Unequal, SYM_NO) then Some(Sym(sym.value))
    else if SymbolAndTest(e1, e2, Unequal, SYM_MOD) then Some(Cmp(Equal, sym.value, SYM_YES))
    else if sym.value.Kind() != TristateType then None
    else if e1.Cmp? && e2.Cmp? && e1.rel == Equal && e2.rel == Unequal && e1.rhs.Const? && e2.rhs.Const? then
      Some(if e1.rhs != e2.rhs then Cmp(Equal, sym.value, e1.rhs) else Sym(SYM_NO))
    else if e1.Cmp? && e2.Cmp? && e1.rel == Unequal && e2.rel == Equal && e1.rhs.Const? && e2.rhs.Const? then
      Some(if e2.rhs != e1.rhs then Cmp(Equal, sym.value, e2.rhs) else Sym(SYM_NO))
    else if TestsOf(e1, e2, Unequal, SYM_YES, SYM_NO) then Some(Cmp(Equal, sym.value, SYM_MOD))
    else if TestsOf(e1, e2, Unequal, SYM_YES, SYM_MOD) then Some(Cmp(Equal, sym.value, SYM_NO))
    else if TestsOf(e1, e2, Unequal, SYM_MOD, SYM_NO) then Some(Cmp(Equal, sym.value, SYM_YES))
    else None
  }

  function Join(op: Op, e1: Expr, e2: Expr): Option<Expr> {
    if op == AndOp then JoinAnd(e1, e2) else JoinOr(e1, e2)
  }

  /** y, m and n, in some order. */
  predicate AreYmn(c1: Symbol, c2: Symbol, c3: Symbol) {
    IsTristateConst(c1) && IsTristateConst(c2) && IsTristateConst(c3) && c1 != c2 && c1 != c3 && c2 != c3
  }

  /** Of a tristate symbol, two values accepted leave one rejected, and two rejected leave one accepted. */
  lemma TwoTestsAreJoined(a: Symbol, c1: Symbol, c2: Symbol, c3: Symbol)
    requires a.Kind() == TristateType && AreYmn(c1, c2, c3)
    ensures JoinOr(Cmp(Equal, a, c1), Cmp(Equal, a, c2)) == Some(Cmp(Unequal, a, c3))
    ensures JoinAnd(Cmp(Unequal, a, c1), Cmp(Unequal, a, c2)) == Some(Cmp(Equal, a, c3))
    ensures JoinAnd(Cmp(Equal, a, c1), Cmp(Unequal, a, c1)) == Some(Sym(SYM_NO))
    ensures JoinAnd(Cmp(Unequal, a, c1), Cmp(Equal, a, c1)) == Some(Sym(SYM_NO))
    ensures JoinAnd(Cmp(Equal, a, c1), Cmp(Unequal, a, c2)) == Some(Cmp(Equal, a, c1))
    ensures JoinAnd(Cmp(Unequal, a, c2), Cmp(Equal, a, c1)) == Some(Cmp(Equal, a, c1))
  {
  }

  /** A symbol and a test of it, in either order. */
  lemma SymbolAndTestAreJoined(a: Symbol)
    requires a.IsLogical()
    ensures JoinAnd(Sym(a), Cmp(Equal, a, SYM_YES)) == Some(Cmp(Equal, a, SYM_YES))
    ensures JoinAnd(Cmp(Equal, a, SYM_YES), Sym(a)) == Some(Cmp(Equal, a, SYM_YES))
    ensures JoinAnd(Sym(a), Cmp(Unequal, a, SYM_NO)) == Some(Sym(a))
    ensures JoinAnd(Cmp(Unequal, a, SYM_NO), Sym(a)) == Some(Sym(a))
    ensures JoinAnd(Sym(a), Cmp(Unequal, a, SYM_MOD)) == Some(Cmp(Equal, a, SYM_YES))
    ensures JoinAnd(Cmp(Unequal, a, SYM_MOD), Sym(a)) == Some(Cmp(Equal, a, SYM_YES))
  {
  }

  /** A boolean and its negation leave nothing open. */
  lemma NegationIsJoined(a: Symbol)
    requires a.Kind() == BooleanType
    ensures JoinOr(Sym(a), Not(Sym(a))) == Some(Sym(SYM_YES)) == JoinOr(Not(Sym(a)), Sym(a))
  {
  }

  /** Equal operands are one. */
  lemma EqualsAreJoined(op: Op, e1: Expr, e2: Expr)
    requires Eq(e1, e2)
    ensures Join(op, e1, e2) == Some(e1)
  {
  }

  /**
   * The value of an operand about one symbol, from the value `t` of that symbol
   * and the outcome `eq` of its equality tests.
   */
  function ShapeValue(e: Expr, t: Tristate, eq: Symbol -> bool): Tristate {
    match e
    case Sym(_) => t
    case Cmp(rel, _, c) => TriOf(eq(c) == (rel == Equal))
    case Not(x) => TriNot(ShapeValue(x, t, eq))
    case Bin(_, _, _) => NO
  }

  function EqualTo(s: Symbol, v: Valuation): Symbol -> bool {
    c => Compare(s, c, v) == 0
  }

  lemma ShapeValueIsEval(e: Expr, s: Symbol, v: Valuation)
    requires FirstSubject(e) == Some(s)
    ensures ShapeValue(e, v.tri(s), EqualTo(s, v)) == Eval(e, v)
  {
    if e.Not? { assert FirstSubject(e.e) == Some(s); }
  }

  /** Equality tests against y, m and n read off the value. */
  predicate ReadsTristate(t: Tristate, eq: Symbol -> bool) {
    eq(SYM_YES) == (t == YES) && eq(SYM_MOD) == (t == MOD) && eq(SYM_NO) == (t == NO)
  }

  lemma LogicalReadsTristate(s: Symbol, v: Valuation)
    requires WellFormed(v) && s.IsLogical()
    ensures ReadsTristate(v.tri(s), EqualTo(s, v))
  {
    CompareWithTristate(s, SYM_YES, v);
    CompareWithTristate(s, SYM_MOD, v);
    CompareWithTristate(s, SYM_NO, v);
  }

  lemma JoinOrByShape(e1: Expr, e2: Expr, s: Symbol, t: Tristate, eq: Symbol -> bool)
    requires JoinOr(e1, e2).Some? && !Eq(e1, e2) && FirstSubject(e1) == Some(s)
    requires ReadsTristate(t, eq) && (s.Kind() == BooleanType ==> t != MOD)
    ensures var x := JoinOr(e1, e2).value;
            var both := TriOr(ShapeValue(e1, t, eq), ShapeValue(e2, t, eq));
            if x == Sym(SYM_YES) then both == YES
            else FirstSubject(x) == Some(s) && ShapeValue(x, t, eq) == both
  {
  }

  /** One operand tests a tristate symbol for a constant, the other one tests it against another constant. */
  predicate OppositeTests(e1: Expr, e2: Expr) {
    && e1.Cmp? && e2.Cmp? && e1.lhs == e2.lhs && e1.lhs.Kind() == TristateType
    && ((e1.rel == Equal && e2.rel == Unequal) || (e1.rel == Unequal && e2.rel == Equal))
    && e1.rhs.Const? && e2.rhs.Const? && e1.rhs != e2.rhs
  }

  /** Of two operands that are joined with And, at least one is not a test: a symbol and a test of it. */
  lemma JoinSymbolAndTest(e1: Expr, e2: Expr, s: Symbol, t: Tristate, eq: Symbol -> bool)
    requires !(e1.Cmp? && e2.Cmp?)
    requires JoinAnd(e1, e2).Some? && !Eq(e1, e2) && FirstSubject(e1) == Some(s)
    requires ReadsTristate(t, eq) && (s.Kind() == BooleanType ==> t != MOD)
    ensures var x := JoinAnd(e1, e2).value;
            var both := TriAnd(ShapeValue(e1, t, eq), ShapeValue(e2, t, eq));
            if x == Sym(SYM_NO) then both == NO
            else FirstSubject(x) == Some(s) && ShapeValue(x, t, eq) == both
  {
    assert SymbolAndTest(e1, e2, Equal, SYM_YES) || SymbolAndTest(e1, e2, Unequal, SYM_NO)
        || SymbolAndTest(e1, e2, Unequal, SYM_MOD);
  }

  /** Two tests that are joined with And. */
  lemma JoinTests(e1: Expr, e2: Expr, s: Symbol, t: Tristate, eq: Symbol -> bool)
    requires e1.Cmp? && e2.Cmp?
    requires JoinAnd(e1, e2).Some? && !Eq(e1, e2) && FirstSubject(e1) == Some(s)
    requires ReadsTristate(t, eq) && (s.Kind() == BooleanType ==> t != MOD)
    requires OppositeTests(e1, e2) ==> !(eq(e1.rhs) && eq(e2.rhs))
    ensures var x := JoinAnd(e1, e2).value;
            var both := TriAnd(ShapeValue(e1, t, eq), ShapeValue(e2, t, eq));
            if x == Sym(SYM_NO) then both == NO
            else FirstSubject(x) == Some(s) && ShapeValue(x, t, eq) == both
  {
    assert e1.lhs == s && e2.lhs == s && s.Kind() == TristateType;
  }

  lemma JoinAndByShape(e1: Expr, e2: Expr, s: Symbol, t: Tristate, eq: Symbol -> bool)
    requires JoinAnd(e1, e2).Some? && !Eq(e1, e2) && FirstSubject(e1) == Some(s)
    requires ReadsTristate(t, eq) && (s.Kind() == BooleanType ==> t != MOD)
    requires OppositeTests(e1, e2) ==> !(eq(e1.rhs) && eq(e2.rhs))
    ensures var x := JoinAnd(e1, e2).value;
            var both := TriAnd(ShapeValue(e1, t, eq), ShapeValue(e2, t, eq));
            if x == Sym(SYM_NO) then both == NO
            else FirstSubject(x) == Some(s) && ShapeValue(x, t, eq) == both
  {
    if e1.Cmp? && e2.Cmp? { JoinTests(e1, e2, s, t, eq); } else { JoinSymbolAndTest(e1, e2, s, t, eq); }
  }

  /** expr_join_or keeps the value under every valuation. */
  lemma JoinOrKeepsValue(e1: Expr, e2: Expr, v: Valuation)
    requires WellFormed(v) && JoinOr(e1, e2).Some?
    ensures Eval(JoinOr(e1, e2).value, v) == TriOr(Eval(e1, v), Eval(e2, v))
  {
    if Eq(e1, e2) {
      EqIsSound(e1, e2, v);
    } else {
      var s, x := FirstSubject(e1).value, JoinOr(e1, e2).value;
      LogicalReadsTristate(s, v);
      JoinOrByShape(e1, e2, s, v.tri(s), EqualTo(s, v));
      ShapeValueIsEval(e1, s, v);
      ShapeValueIsEval(e2, s, v);
      if x != Sym(SYM_YES) { ShapeValueIsEval(x, s, v); }
    }
  }

  /** Some value of a tristate symbol equals both constants. */
  ghost predicate Overlap(b: Symbol, c: Symbol)
    requires b.Const? && c.Const?
  {
    exists t: Tristate :: Denotes(b, t) && Denotes(c, t)
  }

  /** Opposite tests against constants that a tristate value can equal at once. */
  ghost predicate Clash(e1: Expr, e2: Expr) {
    OppositeTests(e1, e2) && Overlap(e1.rhs, e2.rhs)
  }

  /** Tests against constants that do not read as 0, 1 or 2 never clash. */
  lemma PlainTestsDoNotClash(e1: Expr, e2: Expr)
    requires PlainTests(e1) && PlainTests(e2)
    ensures !Clash(e1, e2)
  {
    if OppositeTests(e1, e2) {
      forall t: Tristate ensures !(Denotes(e1.rhs, t) && Denotes(e2.rhs, t)) {
        DenotesOfPlain(e1.rhs, t);
        DenotesOfPlain(e2.rhs, t);
      }
    }
  }

  lemma DenotesOfPlain(c: Symbol, t: Tristate)
    requires c.Const? && !NumericConst(c)
    ensures Denotes(c, t) ==> c.name == TriName(t)
  {
  }

  /** expr_join_and keeps the value under every valuation, unless the operands clash. */
  lemma JoinAndKeepsValue(e1: Expr, e2: Expr, v: Valuation)
    requires WellFormed(v) && JoinAnd(e1, e2).Some? && !Clash(e1, e2)
    ensures Eval(JoinAnd(e1, e2).value, v) == TriAnd(Eval(e1, v), Eval(e2, v))
  {
    if Eq(e1, e2) {
      EqIsSound(e1, e2, v);
    } else {
      var s, x := FirstSubject(e1).value, JoinAnd(e1, e2).value;
      LogicalReadsTristate(s, v);
      if OppositeTests(e1, e2) {
        CompareWithConst(s, e1.rhs, v);
        CompareWithConst(s, e2.rhs, v);
      }
      JoinAndByShape(e1, e2, s, v.tri(s), EqualTo(s, v));
      ShapeValueIsEval(e1, s, v);
      ShapeValueIsEval(e2, s, v);
      if x != Sym(SYM_NO) { ShapeValueIsEval(x, s, v); }
    }
  }

  /** (a='b') && (a!='c') evaluates as the rule says, a='b', under `v`. */
  predicate TestJoinRight(a: Symbol, b: Symbol, c: Symbol, v: Valuation) {
    Eval(Bin(AndOp, Cmp(Equal, a, b), Cmp(Unequal, a, c)), v) == Eval(Cmp(Equal, a, b), v)
  }

  lemma TestJoinAt(a: Symbol, b: Symbol, c: Symbol, v: Valuation)
    ensures TestJoinRight(a, b, c, v) <==> !(EqualTo(a, v)(b) && EqualTo(a, v)(c))
  {
    var e1, e2 := Cmp(Equal, a, b), Cmp(Unequal, a, c);
    ShapeValueIsEval(e1, a, v);
    ShapeValueIsEval(e2, a, v);
    assert Eval(Bin(AndOp, e1, e2), v) == TriAnd(Eval(e1, v), Eval(e2, v));
  }

  lemma TestJoinRightApart(a: Symbol, b: Symbol, c: Symbol, v: Valuation)
    requires WellFormed(v) && a.Kind() == TristateType && b.Const? && c.Const? && !Overlap(b, c)
    ensures TestJoinRight(a, b, c, v)
  {
    TestJoinAt(a, b, c, v);
    CompareWithConst(a, b, v);
    CompareWithConst(a, c, v);
  }

  lemma TestJoinWrongAt(a: Symbol, b: Symbol, c: Symbol, v: Valuation)
    requires WellFormed(v) && a.Kind() == TristateType && b.Const? && c.Const?
    requires Denotes(b, v.tri(a)) && Denotes(c, v.tri(a))
    ensures !TestJoinRight(a, b, c, v)
  {
    TestJoinAt(a, b, c, v);
    CompareWithConst(a, b, v);
    CompareWithConst(a, c, v);
  }

  lemma TestJoinWrongOnOverlap(a: Symbol, b: Symbol, c: Symbol) returns (v: Valuation)
    requires a.Kind() == TristateType && b.Const? && c.Const? && Overlap(b, c)
    ensures WellFormed(v) && !TestJoinRight(a, b, c, v)
  {
    var t: Tristate :| Denotes(b, t) && Denotes(c, t);
    v := SomeTristatesAt(a, t);
    TestJoinWrongAt(a, b, c, v);
  }

  lemma SomeTristatesAt(a: Symbol, t: Tristate) returns (v: Valuation)
    requires a.Kind() == TristateType
    ensures WellFormed(v) && v.tri(a) == t
  {
    v := AllTristatesAt(t);
  }

  lemma TestJoinResult(a: Symbol, b: Symbol, c: Symbol)
    requires a.Kind() == TristateType && b.Const? && c.Const? && b != c
    ensures JoinAnd(Cmp(Equal, a, b), Cmp(Unequal, a, c)) == Some(Cmp(Equal, a, b))
  {
  }

  /**
   * The rule (a='b') && (a!='c') -> a='b' for distinct constants is right under
   * every valuation exactly if no value of `a` equals both constants.
   */
  lemma TestJoinIsExact(a: Symbol, b: Symbol, c: Symbol)
    requires a.Kind() == TristateType && b.Const? && c.Const? && b != c
    ensures JoinAnd(Cmp(Equal, a, b), Cmp(Unequal, a, c)) == Some(Cmp(Equal, a, b))
    ensures (forall v :: WellFormed(v) ==> TestJoinRight(a, b, c, v)) <==> !Overlap(b, c)
  {
    TestJoinResult(a, b, c);
    if Overlap(b, c) {
      var v := TestJoinWrongOnOverlap(a, b, c);
    } else {
      forall v | WellFormed(v) ensures TestJoinRight(a, b, c, v) {
        TestJoinRightApart(a, b, c, v);
      }
    }
  }

  /**
   * For every pair that expr_join_and joins, in either order: the value is kept under
   * every valuation exactly if the operands do not clash.
   */
  lemma JoinAndIsExact(e1: Expr, e2: Expr)
    requires JoinAnd(e1, e2).Some?
    ensures (forall v :: WellFormed(v) ==> Eval(JoinAnd(e1, e2).value, v) == TriAnd(Eval(e1, v), Eval(e2, v)))
            <==> !Clash(e1, e2)
  {
    hide Compare, Denotes, Overlap;
    if Clash(e1, e2) {
      var (b, c) := if e1.rel == Equal then (e1.rhs, e2.rhs) else (e2.rhs, e1.rhs);
      OverlapIsSymmetric(e1.rhs, e2.rhs);
      JoinOfOpposites(e1, e2);
      var v := TestJoinWrongOnOverlap(e1.lhs, b, c);
      assert Eval(Bin(AndOp, Cmp(Equal, e1.lhs, b), Cmp(Unequal, e1.lhs, c)), v) == TriAnd(Eval(e1, v), Eval(e2, v));
    } else {
      forall v | WellFormed(v) ensures Eval(JoinAnd(e1, e2).value, v) == TriAnd(Eval(e1, v), Eval(e2, v)) {
        JoinAndKeepsValue(e1, e2, v);
      }
    }
  }

  lemma OverlapIsSymmetric(b: Symbol, c: Symbol)
    requires b.Const? && c.Const?
    ensures Overlap(b, c) <==> Overlap(c, b)
  {
  }

  lemma JoinOfOpposites(e1: Expr, e2: Expr)
    requires OppositeTests(e1, e2)
    ensures JoinAnd(e1, e2) == Some(if e1.rel == Equal then e1 else e2)
  {
  }

  /** Two distinct constants for which the rule is wrong: '0' and '00' both equal n. */
  lemma TestJoinOfZeros(a: Symbol)
    requires a.Kind() == TristateType
    ensures exists v :: WellFormed(v) && !TestJoinRight(a, Const("0"), Const("00"), v)
  {
    ZeroReadsAsNo("0");
    ZeroReadsAsNo("00");
    assert Denotes(Const("0"), NO) && Denotes(Const("00"), NO);
    var v := TestJoinWrongOnOverlap(a, Const("0"), Const("00"));
  }

  lemma {:induction false} ZerosDenoteZero(s: string, base: nat)
    requires forall k :: 0 <= k < |s| ==> s[k] == '0'
    ensures CNumbers.DigitsValue(s, base) == 0
  {
    if s != [] { ZerosDenoteZero(s[..|s| - 1], base); }
  }

  lemma ZeroReadsAsNo(s: string)
    requires s == "0" || s == "00"
    ensures ParseString(s, UnknownType) == (KSigned, 0)
  {
    hide CNumbers.DigitsValue, CNumbers.DigitRun;
    ZerosDenoteZero(s, 8);
    CNumbers.DigitRunOfDigits(s, 0, 8);
    assert CNumbers.SkipSpace(s, 0) == 0 && !CNumbers.HexPrefix(s, 0);
    assert s[0..|s|] == s;
    assert CNumbers.ScanNumber(s, 0) == CNumbers.Scan(0, false, |s|);
  }

  // ----- positions of a tree -----

  /** A position: the way down from the root, false for the left operand. */
  type Path = seq<bool>

  function Child(e: Expr, right: bool): Expr
    requires e.Bin?
  {
    if right then e.right else e.left
  }

  /** Every node strictly above `p` is an `op`. */
  predicate OnLevel(op: Op, t: Expr, p: Path) {
    p == [] || (IsLevel(t, op) && OnLevel(op, Child(t, p[0]), p[1..]))
  }

  function Sub(op: Op, t: Expr, p: Path): (e: Expr)
    requires OnLevel(op, t, p)
    ensures p != [] ==> Size(e) < Size(t)
  {
    if p == [] then t else Sub(op, Child(t, p[0]), p[1..])
  }

  /** The tree with the expression at `p` overwritten. */
  function Replace(op: Op, t: Expr, p: Path, x: Expr): Expr
    requires OnLevel(op, t, p)
  {
    if p == [] then x
    else if p[0] then Bin(op, t.left, Replace(op, t.right, p[1..], x))
    else Bin(op, Replace(op, t.left, p[1..], x), t.right)
  }

  predicate IsLeaf(op: Op, t: Expr, p: Path) {
    OnLevel(op, t, p) && !IsLevel(Sub(op, t, p), op)
  }

  /** The operator nodes of the top level. */
  function LevelSize(op: Op, t: Expr): nat {
    if IsLevel(t, op) then 1 + LevelSize(op, t.left) + LevelSize(op, t.right) else 0
  }

  predicate SameShape(op: Op, t: Expr, u: Expr) {
    if IsLevel(t, op)
    then IsLevel(u, op) && SameShape(op, t.left, u.left) && SameShape(op, t.right, u.right)
    else !IsLevel(u, op)
  }

  lemma {:induction false} SameShapeAt(op: Op, t: Expr, u: Expr, p: Path)
    requires SameShape(op, t, u) && OnLevel(op, t, p)
    ensures OnLevel(op, u, p) && SameShape(op, Sub(op, t, p), Sub(op, u, p))
  {
    if p != [] { SameShapeAt(op, Child(t, p[0]), Child(u, p[0]), p[1..]); }
  }

  lemma {:induction false} SameShapeSize(op: Op, t: Expr, u: Expr)
    requires SameShape(op, t, u)
    ensures LevelSize(op, t) == LevelSize(op, u)
  {
    if IsLevel(t, op) {
      SameShapeSize(op, t.left, u.left);
      SameShapeSize(op, t.right, u.right);
    }
  }

  lemma {:induction false} SameShapeTransitive(op: Op, t: Expr, u: Expr, w: Expr)
    requires SameShape(op, t, u) && SameShape(op, u, w)
    ensures SameShape(op, t, w)
  {
    if IsLevel(t, op) {
      SameShapeTransitive(op, t.left, u.left, w.left);
      SameShapeTransitive(op, t.right, u.right, w.right);
    }
  }

  lemma {:induction false} SameShapeReflexive(op: Op, t: Expr)
    ensures SameShape(op, t, t)
  {
    if IsLevel(t, op) {
      SameShapeReflexive(op, t.left);
      SameShapeReflexive(op, t.right);
    }
  }

  /** One step further down from `p`. */
  lemma {:induction false} StepDown(op: Op, t: Expr, p: Path, right: bool)
    requires OnLevel(op, t, p) && IsLevel(Sub(op, t, p), op)
    ensures OnLevel(op, t, p + [right]) && Sub(op, t, p + [right]) == Child(Sub(op, t, p), right)
  {
    if p != [] {
      StepDown(op, Child(t, p[0]), p[1..], right);
      assert (p + [right])[1..] == p[1..] + [right];
    }
  }

  /** A leaf below an operator is below one of its operands. */
  lemma {:induction false} LeafBelow(op: Op, t: Expr, p: Path, q: Path)
    requires OnLevel(op, t, p) && IsLevel(Sub(op, t, p), op) && IsLeaf(op, t, q) && p <= q
    ensures |p| < |q| && p + [q[|p|]] <= q
  {
    if p == [] {
      assert q != [];
    } else {
      LeafBelow(op, Child(t, p[0]), p[1..], q[1..]);
      assert p + [q[|p|]] == [p[0]] + (p[1..] + [q[1..][|p[1..]|]]);
    }
  }

  /** A leaf has nothing of its level below it. */
  lemma {:induction false} LeafIsLast(op: Op, t: Expr, p: Path, q: Path)
    requires IsLeaf(op, t, p) && OnLevel(op, t, q) && p <= q
    ensures p == q
  {
    if p != [] { LeafIsLast(op, Child(t, p[0]), p[1..], q[1..]); }
  }

  // ----- what overwriting a leaf changes -----

  /** Overwriting a leaf by a leaf, seen at the place itself and at every other leaf. */
  lemma {:induction false} ReplaceAt(op: Op, t: Expr, p: Path, x: Expr)
    requires IsLeaf(op, t, p) && !IsLevel(x, op)
    ensures SameShape(op, t, Replace(op, t, p, x))
    ensures IsLeaf(op, Replace(op, t, p, x), p) && Sub(op, Replace(op, t, p, x), p) == x
  {
    if p == [] {
    } else {
      ReplaceAt(op, Child(t, p[0]), p[1..], x);
      SameShapeReflexive(op, Child(t, !p[0]));
    }
  }

  lemma {:induction false} ReplaceElsewhere(op: Op, t: Expr, p: Path, x: Expr, q: Path)
    requires IsLeaf(op, t, p) && IsLeaf(op, t, q) && p != q && !IsLevel(x, op)
    ensures IsLeaf(op, Replace(op, t, p, x), q) && Sub(op, Replace(op, t, p, x), q) == Sub(op, t, q)
  {
    if p == [] {
      LeafIsLast(op, t, p, q);
    } else if q == [] {
      LeafIsLast(op, t, q, p);
    } else if p[0] == q[0] {
      assert p == [p[0]] + p[1..] && q == [q[0]] + q[1..];
      ReplaceElsewhere(op, Child(t, p[0]), p[1..], x, q[1..]);
    }
  }

  lemma {:induction false} ReplaceBySame(op: Op, t: Expr, p: Path)
    requires OnLevel(op, t, p)
    ensures Replace(op, t, p, Sub(op, t, p)) == t
  {
    if p != [] { ReplaceBySame(op, Child(t, p[0]), p[1..]); }
  }

  /** The value of a level is the value of any leaf, combined with the rest. */
  lemma {:induction false} ReplaceValue(op: Op, t: Expr, p: Path, x: Expr, v: Valuation)
    requires WellFormed(v) && OnLevel(op, t, p)
    ensures Eval(Replace(op, t, p, x), v) == Apply(op, Eval(x, v), Eval(Replace(op, t, p, Neutral(op)), v))
  {
    if p != [] {
      var child, other := Child(t, p[0]), Eval(Child(t, !p[0]), v);
      ReplaceValue(op, child, p[1..], x, v);
      var rest := Eval(Replace(op, child, p[1..], Neutral(op)), v);
      assert Eval(Replace(op, t, p, Neutral(op)), v) == Apply(op, rest, other);
      ApplyAssociative(op, Eval(x, v), rest, other, other);
    }
  }

  /** What the passes of expr_eliminate_dups shrink: y and n weigh least. */
  function Mass(e: Expr): (n: nat)
    ensures n >= 1
    ensures n == 1 <==> IsYesOrNo(e)
  {
    match e
    case Sym(_) => if IsYesOrNo(e) then 1 else 2
    case Cmp(_, _, _) => 2
    case Not(x) => 1 + Mass(x)
    case Bin(_, l, r) => 1 + Mass(l) + Mass(r)
  }

  /** How deep And and Or alternate below a level of `op`. */
  function Rank(op: Op, e: Expr): nat
    decreases e, if IsLevel(e, op) then 0 else 1
  {
    if IsLevel(e, op) then
      var a, b := Rank(op, e.left), Rank(op, e.right);
      if a < b then b else a
    else if e.Bin? then 1 + Rank(e.op, e)
    else 0
  }

  lemma {:induction false} ReplaceMass(op: Op, t: Expr, p: Path, x: Expr)
    requires OnLevel(op, t, p)
    ensures Mass(Replace(op, t, p, x)) == Mass(t) - Mass(Sub(op, t, p)) + Mass(x)
  {
    if p != [] { ReplaceMass(op, Child(t, p[0]), p[1..], x); }
  }

  lemma {:induction false} RankAt(op: Op, t: Expr, p: Path)
    requires OnLevel(op, t, p)
    ensures Rank(op, Sub(op, t, p)) <= Rank(op, t)
  {
    if p != [] { RankAt(op, Child(t, p[0]), p[1..]); }
  }

  lemma {:induction false} ReplaceRank(op: Op, t: Expr, p: Path, x: Expr, k: nat)
    requires OnLevel(op, t, p) && Rank(op, t) <= k && Rank(op, x) <= k
    ensures Rank(op, Replace(op, t, p, x)) <= k
  {
    if p != [] { ReplaceRank(op, Child(t, p[0]), p[1..], x, k); }
  }

  lemma {:induction false} ConstOperandAt(op: Op, t: Expr, p: Path)
    requires OnLevel(op, t, p)
    ensures p != [] && IsYesOrNo(Sub(op, t, p)) ==> !NoConstOperand(t)
    ensures !NoConstOperand(Sub(op, t, p)) ==> !NoConstOperand(t)
  {
    if p != [] { ConstOperandAt(op, Child(t, p[0]), p[1..]); }
  }

  lemma {:induction false} FormsAt(op: Op, t: Expr, p: Path)
    requires OnLevel(op, t, p)
    ensures Nnf(t) ==> Nnf(Sub(op, t, p))
    ensures PlainTests(t) ==> PlainTests(Sub(op, t, p))
  {
    if p != [] { FormsAt(op, Child(t, p[0]), p[1..]); }
  }

  lemma {:induction false} ReplaceForms(op: Op, t: Expr, p: Path, x: Expr)
    requires OnLevel(op, t, p)
    ensures Nnf(t) && Nnf(x) ==> Nnf(Replace(op, t, p, x))
    ensures PlainTests(t) && PlainTests(x) ==> PlainTests(Replace(op, t, p, x))
  {
    if p != [] { ReplaceForms(op, Child(t, p[0]), p[1..], x); }
  }

  // ----- one pass -----

  ghost predicate SameValue(t: Expr, u: Expr) {
    forall v :: WellFormed(v) ==> Eval(t, v) == Eval(u, v)
  }

  /** What a pass over `t` that counts `n` simplifications may turn it into. */
  ghost predicate Improves(op: Op, t: Expr, u: Expr, n: nat) {
    && SameShape(op, t, u)
    && Rank(op, u) <= Rank(op, t)
    && Mass(u) <= Mass(t)
    && (n == 0 ==> u == t)
    && (n > 0 ==> Mass(u) < Mass(t) || !NoConstOperand(u))
    && (Nnf(t) ==> Nnf(u))
    && (PlainTests(t) ==> PlainTests(u) && SameValue(t, u))
  }

  lemma ImprovesTransitive(op: Op, t: Expr, u: Expr, w: Expr, m: nat, n: nat)
    requires Improves(op, t, u, m) && Improves(op, u, w, n)
    ensures Improves(op, t, w, m + n)
  {
    SameShapeTransitive(op, t, u, w);
  }

  lemma ImprovesReflexive(op: Op, t: Expr)
    ensures Improves(op, t, t, 0)
  {
    SameShapeReflexive(op, t);
  }

  /** Simplifying one leaf on its own improves the whole level. */
  lemma ImproveLeaf(op: Op, t: Expr, p: Path, x: Expr, n: nat)
    requires IsLeaf(op, t, p) && Sub(op, t, p).Bin? && Improves(Sub(op, t, p).op, Sub(op, t, p), x, n)
    ensures Improves(op, t, Replace(op, t, p, x), n)
    ensures SameShape(op, t, Replace(op, t, p, x)) && !IsLevel(x, op)
  {
    var e := Sub(op, t, p);
    var u := Replace(op, t, p, x);
    ReplaceAt(op, t, p, x);
    RankAt(op, t, p);
    ReplaceRank(op, t, p, x, Rank(op, t));
    ReplaceMass(op, t, p, x);
    ReplaceBySame(op, t, p);
    ConstOperandAt(op, u, p);
    FormsAt(op, t, p);
    ReplaceForms(op, t, p, x);
    if PlainTests(t) {
      forall v | WellFormed(v) ensures Eval(t, v) == Eval(u, v) {
        ReplaceValue(op, t, p, e, v);
        ReplaceValue(op, t, p, x, v);
      }
    }
  }

  /** The joined operand is the first one, a symbol, or a test with a constant already there or one of y, m, n. */
  lemma JoinedShape(op: Op, e1: Expr, e2: Expr)
    requires !IsLevel(e1, op) && Join(op, e1, e2).Some?
    ensures var x := Join(op, e1, e2).value;
            && 1 + Mass(x) <= Mass(e1) + Mass(e2)
            && (x == e1 || x.Sym? || (x.Cmp? && (IsTristateConst(x.rhs) || SameTest(x, e1) || SameTest(x, e2))))
  {
    if !Eq(e1, e2) { assert Mass(e1) >= 2 && Mass(e2) >= 2; }
  }

  predicate SameTest(x: Expr, e: Expr) { x.Cmp? && e.Cmp? && x.lhs == e.lhs && x.rhs == e.rhs }

  lemma JoinedForms(op: Op, e1: Expr, e2: Expr)
    requires !IsLevel(e1, op) && Join(op, e1, e2).Some?
    ensures var x := Join(op, e1, e2).value;
            && !IsLevel(x, op)
            && Rank(op, x) <= Rank(op, e1)
            && (Nnf(e1) ==> Nnf(x))
            && (PlainTests(e1) && PlainTests(e2) ==> PlainTests(x))
  {
    JoinedShape(op, e1, e2);
    var x := Join(op, e1, e2).value;
    if x.Cmp? && IsTristateConst(x.rhs) { TristateConstIsText(x.rhs); }
  }

  lemma JoinKeepsValue(op: Op, e1: Expr, e2: Expr, v: Valuation)
    requires WellFormed(v) && Join(op, e1, e2).Some? && PlainTests(e1) && PlainTests(e2)
    ensures Eval(Join(op, e1, e2).value, v) == Apply(op, Eval(e1, v), Eval(e2, v))
  {
    PlainTestsDoNotClash(e1, e2);
    if op == AndOp { JoinAndKeepsValue(e1, e2, v); } else { JoinOrKeepsValue(e1, e2, v); }
  }

  /** The two assignments that follow a successful join. */
  function PutJoined(op: Op, t: Expr, p1: Path, p2: Path, x: Expr): Expr
    requires IsLeaf(op, t, p1) && IsLeaf(op, t, p2) && p1 != p2
  {
    ReplaceElsewhere(op, t, p1, Neutral(op), p2);
    Replace(op, Replace(op, t, p1, Neutral(op)), p2, x)
  }

  /** A joined pair of leaves improves the level. */
  lemma ImproveByJoin(op: Op, t: Expr, p1: Path, p2: Path)
    requires IsLeaf(op, t, p1) && IsLeaf(op, t, p2) && p1 != p2
    requires Join(op, Sub(op, t, p1), Sub(op, t, p2)).Some?
    ensures Improves(op, t, PutJoined(op, t, p1, p2, Join(op, Sub(op, t, p1), Sub(op, t, p2)).value), 1)
  {
    var e1, e2 := Sub(op, t, p1), Sub(op, t, p2);
    var x := Join(op, e1, e2).value;
    var t1 := Replace(op, t, p1, Neutral(op));
    ReplaceAt(op, t, p1, Neutral(op));
    ReplaceElsewhere(op, t, p1, Neutral(op), p2);
    var u := Replace(op, t1, p2, x);
    JoinedShape(op, e1, e2);
    JoinedForms(op, e1, e2);
    ReplaceAt(op, t1, p2, x);
    ReplaceElsewhere(op, t1, p2, x, p1);
    SameShapeTransitive(op, t, t1, u);
    RankAt(op, t, p1);
    ReplaceRank(op, t, p1, Neutral(op), Rank(op, t));
    ReplaceRank(op, t1, p2, x, Rank(op, t));
    ReplaceMass(op, t, p1, Neutral(op));
    ReplaceMass(op, t1, p2, x);
    if p1 == [] { LeafIsLast(op, t, p1, p2); }
    ConstOperandAt(op, u, p1);
    FormsAt(op, t, p1);
    FormsAt(op, t, p2);
    ReplaceForms(op, t, p1, Neutral(op));
    ReplaceForms(op, t1, p2, x);
    if PlainTests(t) {
      forall v | WellFormed(v) ensures Eval(t, v) == Eval(u, v) {
        PutJoinedValue(op, t, p1, p2, x, v);
      }
    }
  }

  lemma PutJoinedValue(op: Op, t: Expr, p1: Path, p2: Path, x: Expr, v: Valuation)
    requires WellFormed(v) && PlainTests(t)
    requires IsLeaf(op, t, p1) && IsLeaf(op, t, p2) && p1 != p2
    requires Join(op, Sub(op, t, p1), Sub(op, t, p2)) == Some(x)
    ensures Eval(t, v) == Eval(PutJoined(op, t, p1, p2, x), v)
  {
    var e1, e2 := Sub(op, t, p1), Sub(op, t, p2);
    var t1 := Replace(op, t, p1, Neutral(op));
    ReplaceElsewhere(op, t, p1, Neutral(op), p2);
    var rest := Eval(Replace(op, t1, p2, Neutral(op)), v);
    FormsAt(op, t, p1);
    FormsAt(op, t, p2);
    JoinKeepsValue(op, e1, e2, v);
    ReplaceBySame(op, t, p1);
    ReplaceValue(op, t, p1, e1, v);
    ReplaceBySame(op, t1, p2);
    ReplaceValue(op, t1, p2, e2, v);
    ReplaceValue(op, t1, p2, x, v);
    ApplyAssociative(op, Eval(e1, v), Eval(e2, v), rest, rest);
  }

  /** Nothing can be joined between two different operands of any one level inside `e`. */
  ghost predicate Settled(e: Expr)
    decreases Size(e), 2
  {
    e.Bin? ==> SettledBelow(e.op, e, [], [])
  }

  /** The part of that which the pointers `p1` and `p2` of a pass cover. */
  ghost predicate SettledBelow(op: Op, t: Expr, p1: Path, p2: Path)
    decreases Size(t), 1
  {
    forall q1, q2 :: IsLeaf(op, t, q1) && IsLeaf(op, t, q2) && p1 <= q1 && p2 <= q2 && q1 != q2 ==>
      SettledPair(op, t, q1, q2)
  }

  ghost predicate SettledPair(op: Op, t: Expr, q1: Path, q2: Path)
    requires IsLeaf(op, t, q1) && IsLeaf(op, t, q2)
    decreases Size(t), 0
  {
    && Join(op, Sub(op, t, q1), Sub(op, t, q2)).None?
    && (q1 != [] ==> Settled(Sub(op, t, q1)))
  }

  /**
   * expr_eliminate_dups1: `p1` and `p2` are where the two pointers point into the
   * one tree `t`, so that pointer equality is equality of positions; `n` counts
   * the simplifications.
   */
  method EliminateDups1(op: Op, t: Expr, p1: Path, p2: Path) returns (u: Expr, n: nat)
    requires OnLevel(op, t, p1) && OnLevel(op, t, p2)
    ensures Improves(op, t, u, n)
    ensures n == 0 <==> SettledBelow(op, t, p1, p2)
    decreases Rank(op, t), LevelSize(op, Sub(op, t, p1)), LevelSize(op, Sub(op, t, p2)), 1
  {
    hide SettledBelow, SameValue, Mass, NoConstOperand, SameShape;
    var e1, e2 := Sub(op, t, p1), Sub(op, t, p2);
    if IsLevel(e1, op) {
      StepDown(op, t, p1, false);
      StepDown(op, t, p1, true);
      u, n := EliminateDups1(op, t, p1 + [false], p2);
      SameShapeAt(op, t, u, p1 + [true]);
      SameShapeAt(op, t, u, p2);
      SameShapeSize(op, Sub(op, t, p1 + [true]), Sub(op, u, p1 + [true]));
      ghost var mid, m := u, n;
      var k;
      u, k := EliminateDups1(op, u, p1 + [true], p2);
      ImprovesTransitive(op, t, mid, u, m, k);
      n := n + k;
      SettledFirst(op, t, p1, p2);
    } else if IsLevel(e2, op) {
      StepDown(op, t, p2, false);
      StepDown(op, t, p2, true);
      u, n := EliminateDups1(op, t, p1, p2 + [false]);
      SameShapeAt(op, t, u, p1);
      SameShapeAt(op, t, u, p2 + [true]);
      SameShapeSize(op, Sub(op, t, p1), Sub(op, u, p1));
      SameShapeSize(op, Sub(op, t, p2 + [true]), Sub(op, u, p2 + [true]));
      ghost var mid, m := u, n;
      var k;
      u, k := EliminateDups1(op, u, p1, p2 + [true]);
      ImprovesTransitive(op, t, mid, u, m, k);
      n := n + k;
      SettledSecond(op, t, p1, p2);
    } else if p1 == p2 {
      u, n := t, 0;
      ImprovesReflexive(op, t);
      SettledLeaves(op, t, p1, p2);
    } else {
      u, n := JoinLeaves(op, t, p1, p2);
      SettledLeaves(op, t, p1, p2);
    }
  }

  /** The part of expr_eliminate_dups1 that deals with two different leaves. */
  method JoinLeaves(op: Op, t: Expr, p1: Path, p2: Path) returns (u: Expr, n: nat)
    requires IsLeaf(op, t, p1) && IsLeaf(op, t, p2) && p1 != p2
    ensures Improves(op, t, u, n)
    ensures n == 0 <==> SettledPair(op, t, p1, p2)
    decreases Rank(op, t), 0, 0, 0, 1
  {
    u, n := SimplifyLeaf(op, t, p1, p2);
    ghost var mid, m := u, n;
    var joined := Join(op, Sub(op, u, p1), Sub(op, u, p2));
    if joined.Some? {
      ImproveByJoin(op, u, p1, p2);
      u := PutJoined(op, u, p1, p2, joined.value);
      n := n + 1;
      ImprovesTransitive(op, t, mid, u, m, 1);
    }
  }

  /** The nested pass over a leaf that is itself an And or Or of the other kind. */
  method SimplifyLeaf(op: Op, t: Expr, p: Path, ghost other: Path) returns (u: Expr, n: nat)
    requires IsLeaf(op, t, p) && IsLeaf(op, t, other) && p != other
    ensures Improves(op, t, u, n)
    ensures IsLeaf(op, u, p) && IsLeaf(op, u, other)
    ensures n == 0 <==> Settled(Sub(op, t, p))
    decreases Rank(op, t), 0, 0, 0, 0
  {
    var e := Sub(op, t, p);
    u, n := t, 0;
    if e.Bin? {
      RankAt(op, t, p);
      var x;
      x, n := EliminateDups1(e.op, e, [], []);
      ImproveLeaf(op, t, p, x, n);
      ReplaceAt(op, t, p, x);
      ReplaceElsewhere(op, t, p, x, other);
      u := Replace(op, t, p, x);
    } else {
      ImprovesReflexive(op, t);
    }
  }

  lemma SettledFirst(op: Op, t: Expr, p1: Path, p2: Path)
    requires OnLevel(op, t, p1) && IsLevel(Sub(op, t, p1), op)
    ensures SettledBelow(op, t, p1, p2)
            <==> SettledBelow(op, t, p1 + [false], p2) && SettledBelow(op, t, p1 + [true], p2)
  {
    if SettledBelow(op, t, p1 + [false], p2) && SettledBelow(op, t, p1 + [true], p2) {
      SettledFromFirst(op, t, p1, p2);
    }
  }

  lemma SettledFromFirst(op: Op, t: Expr, p1: Path, p2: Path)
    requires OnLevel(op, t, p1) && IsLevel(Sub(op, t, p1), op)
    requires SettledBelow(op, t, p1 + [false], p2) && SettledBelow(op, t, p1 + [true], p2)
    ensures SettledBelow(op, t, p1, p2)
  {
    forall q1, q2 | IsLeaf(op, t, q1) && IsLeaf(op, t, q2) && p1 <= q1 && p2 <= q2 && q1 != q2
      ensures SettledPair(op, t, q1, q2)
    {
      LeafBelow(op, t, p1, q1);
      assert if q1[|p1|] then p1 + [true] <= q1 else p1 + [false] <= q1;
    }
  }

  lemma SettledSecond(op: Op, t: Expr, p1: Path, p2: Path)
    requires OnLevel(op, t, p2) && IsLevel(Sub(op, t, p2), op)
    ensures SettledBelow(op, t, p1, p2)
            <==> SettledBelow(op, t, p1, p2 + [false]) && SettledBelow(op, t, p1, p2 + [true])
  {
    if SettledBelow(op, t, p1, p2 + [false]) && SettledBelow(op, t, p1, p2 + [true]) {
      SettledFromSecond(op, t, p1, p2);
    }
  }

  lemma SettledFromSecond(op: Op, t: Expr, p1: Path, p2: Path)
    requires OnLevel(op, t, p2) && IsLevel(Sub(op, t, p2), op)
    requires SettledBelow(op, t, p1, p2 + [false]) && SettledBelow(op, t, p1, p2 + [true])
    ensures SettledBelow(op, t, p1, p2)
  {
    forall q1, q2 | IsLeaf(op, t, q1) && IsLeaf(op, t, q2) && p1 <= q1 && p2 <= q2 && q1 != q2
      ensures SettledPair(op, t, q1, q2)
    {
      LeafBelow(op, t, p2, q2);
      assert if q2[|p2|] then p2 + [true] <= q2 else p2 + [false] <= q2;
    }
  }

  lemma SettledLeaves(op: Op, t: Expr, p1: Path, p2: Path)
    requires IsLeaf(op, t, p1) && IsLeaf(op, t, p2)
    ensures SettledBelow(op, t, p1, p2) <==> (p1 != p2 ==> SettledPair(op, t, p1, p2))
  {
    if p1 != p2 ==> SettledPair(op, t, p1, p2) {
      SettledFromLeaves(op, t, p1, p2);
    }
  }

  lemma SettledFromLeaves(op: Op, t: Expr, p1: Path, p2: Path)
    requires IsLeaf(op, t, p1) && IsLeaf(op, t, p2)
    requires p1 != p2 ==> SettledPair(op, t, p1, p2)
    ensures SettledBelow(op, t, p1, p2)
  {
    forall q1, q2 | IsLeaf(op, t, q1) && IsLeaf(op, t, q2) && p1 <= q1 && p2 <= q2 && q1 != q2
      ensures SettledPair(op, t, q1, q2)
    {
      LeafIsLast(op, t, p1, q1);
      LeafIsLast(op, t, p2, q2);
    }
  }

  /** Cleaning up constants makes a tree lighter if there is any to clean up. */
  lemma {:induction false} EliminateYnShrinks(e: Expr)
    ensures Mass(EliminateYn(e)) <= Mass(e)
    ensures !NoConstOperand(e) ==> Mass(EliminateYn(e)) < Mass(e)
    ensures Nnf(e) ==> Nnf(EliminateYn(e))
  {
    if e.Bin? {
      EliminateYnShrinks(e.left);
      EliminateYnShrinks(e.right);
    }
  }

  lemma {:induction false} EliminateYnKeepsPlainTests(e: Expr)
    requires PlainTests(e)
    ensures PlainTests(EliminateYn(e))
  {
    if e.Bin? {
      EliminateYnKeepsPlainTests(e.left);
      EliminateYnKeepsPlainTests(e.right);
    }
  }

  /**
   * expr_eliminate_dups: the passes end, and the result has the value of `e`, no
   * more weight, and no two operands of one level left to join. Without any to join
   * it is `e` itself.
   */
  method EliminateDups(e: Expr) returns (r: Expr)
    ensures PlainTests(e) ==> PlainTests(r) && SameValue(e, r)
    ensures Nnf(e) ==> Nnf(r)
    ensures Mass(r) <= Mass(e)
    ensures Settled(r) && (Settled(e) ==> r == e)
  {
    r := e;
    while true
      invariant PlainTests(e) ==> PlainTests(r) && SameValue(e, r)
      invariant Nnf(e) ==> Nnf(r)
      invariant Mass(r) <= Mass(e)
      invariant Settled(e) ==> r == e
      decreases Mass(r)
    {
      var count := 0;
      ghost var before := r;
      if r.Bin? {
        r, count := EliminateDups1(r.op, r, [], []);
      }
      if count == 0 { break; }
      EliminateYnShrinks(r);
      if PlainTests(r) {
        EliminateYnKeepsPlainTests(r);
        forall v | WellFormed(v) ensures Eval(EliminateYn(r), v) == Eval(r, v) {
          EliminateYnKeepsValue(r, v);
        }
      }
      r := EliminateYn(r);
    }
  }

  method EliminateDupsDep(e: Option<Expr>) returns (r: Option<Expr>)
    ensures PlainDep(e) ==> PlainDep(r) && forall v :: WellFormed(v) ==> EvalDep(r, v) == EvalDep(e, v)
    ensures NnfDep(e) ==> NnfDep(r)
    ensures r.Some? <==> e.Some?
  {
    if e.None? { return None; }
    var d := EliminateDups(e.value);
    r := Some(d);
  }
}
