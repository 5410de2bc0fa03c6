/**
 * Normalisation of expressions: negations pushed down to symbols, tests of
 * booleans turned into symbols, and the rewritings that menu finalisation needs
 * (scripts/config/expr.c, rewrite_m of scripts/config/menu.c).
 */
module ExprTransform {
  import opened Basics
  import opened Exprs

  function Dual(op: Op): Op { if op == AndOp then OrOp else AndOp }

  function Negate(rel: Rel): Rel {
    match rel
    case Equal => Unequal
    case Unequal => Equal
    case Less => GreaterEq
    case LessEq => Greater
    case Greater => LessEq
    case GreaterEq => Less
  }

  /** What decreases where the size does not: De Morgan's laws add a node. */
  function Weight(e: Expr): (n: nat)
    ensures n >= 1
  {
    match e
    case Sym(_) => 1
    case Cmp(_, _, _) => 2
    case Not(e) => 2 * Weight(e)
    case Bin(_, l, r) => Weight(l) + Weight(r) + 1
  }

  lemma DeMorganShrinks(op: Op, a: Expr, b: Expr)
    ensures Weight(Bin(Dual(op), Not(a), Not(b))) + 1 == Weight(Not(Bin(op, a, b)))
  {
    assert Weight(Not(a)) == 2 * Weight(a) && Weight(Not(b)) == 2 * Weight(b);
  }

  /** expr_transform */
  function Transform(e: Expr): (r: Expr)
    ensures Weight(r) <= Weight(e)
    decreases Weight(e)
  {
    match e
    case Sym(_) => e
    case Cmp(rel, l, r) =>
      if l.Kind() != BooleanType || (rel != Equal && rel != Unequal) then e
      else if r == SYM_NO then (if rel == Equal then Not(Sym(l)) else Sym(l))
      else if r == SYM_MOD then (if rel == Equal then Sym(SYM_NO) else Sym(SYM_YES))
      else if r == SYM_YES then (if rel == Equal then Sym(l) else Not(Sym(l)))
      else e
    case Bin(op, l, r) => Bin(op, Transform(l), Transform(r))
    case Not(x) =>
      match Transform(x)
      case Not(y) => Transform(y)
      case Cmp(rel, l, r) => Cmp(Negate(rel), l, r)
      case Bin(op, a, b) => DeMorganShrinks(op, a, b); Transform(Bin(Dual(op), Not(a), Not(b)))
      case Sym(s) =>
        if s == SYM_YES then Sym(SYM_NO)
        else if s == SYM_MOD then Sym(SYM_MOD)
        else if s == SYM_NO then Sym(SYM_YES)
        else Not(Sym(s))
  }

  function TransformDep(e: Option<Expr>): Option<Expr> {
    if e.None? then None else Some(Transform(e.value))
  }

  lemma NegateIsNot(rel: Rel, res: int)
    ensures Holds(Negate(rel), res) == !Holds(rel, res)
  {
  }

  /** Turning a test of a boolean into the symbol keeps its value. */
  lemma TransformTestKeepsValue(rel: Rel, l: Symbol, r: Symbol, v: Valuation)
    requires WellFormed(v)
    ensures Eval(Transform(Cmp(rel, l, r)), v) == Eval(Cmp(rel, l, r), v)
  {
    if l.Kind() == BooleanType && IsTristateConst(r) { CompareWithTristate(l, r, v); }
  }

  /** expr_transform preserves the value under every valuation. */
  lemma {:induction false} TransformKeepsValue(e: Expr, v: Valuation)
    requires WellFormed(v)
    ensures Eval(Transform(e), v) == Eval(e, v)
    decreases Weight(e), 1
  {
    match e
    case Sym(_) =>
    case Cmp(rel, l, r) => TransformTestKeepsValue(rel, l, r, v);
    case Bin(_, l, r) =>
      TransformKeepsValue(l, v);
      TransformKeepsValue(r, v);
    case Not(x) =>
      TransformKeepsValue(x, v);
      TransformNegation(x, v);
  }

  lemma {:induction false} TransformNegation(x: Expr, v: Valuation)
    requires WellFormed(v)
    ensures Eval(Transform(Not(x)), v) == TriNot(Eval(Transform(x), v))
    decreases Weight(Not(x)), 0
  {
    match Transform(x)
    case Not(y) => TransformKeepsValue(y, v);
    case Cmp(rel, l, r) => NegateIsNot(rel, Compare(l, r, v));
    case Bin(op, a, b) =>
      DeMorganShrinks(op, a, b);
      TransformKeepsValue(Bin(Dual(op), Not(a), Not(b)), v);
    case Sym(_) =>
  }

  /** Negation only around a symbol that is not y, m or n; no boolean tested against y, m or n. */
  predicate NormalForm(e: Expr) {
    match e
    case Sym(_) => true
    case Cmp(rel, l, r) => !((rel == Equal || rel == Unequal) && l.Kind() == BooleanType && IsTristateConst(r))
    case Not(x) => x.Sym? && !IsTristateConst(x.sym)
    case Bin(_, l, r) => NormalForm(l) && NormalForm(r)
  }

  lemma {:induction false} TransformNormalises(e: Expr)
    ensures NormalForm(Transform(e))
    decreases Weight(e)
  {
    match e
    case Bin(_, l, r) =>
      TransformNormalises(l);
      TransformNormalises(r);
    case Not(x) =>
      TransformNormalises(x);
      match Transform(x) {
        case Not(y) => TransformNormalises(y);
        case Bin(op, a, b) =>
          DeMorganShrinks(op, a, b);
          TransformNormalises(Bin(Dual(op), Not(a), Not(b)));
        case _ =>
      }
    case _ =>
  }

  lemma {:induction false} NormalFormIsFixed(e: Expr)
    requires NormalForm(e)
    ensures Transform(e) == e
  {
    if e.Bin? {
      NormalFormIsFixed(e.left);
      NormalFormIsFixed(e.right);
    }
  }

  /** The normal forms are exactly the expressions that expr_transform leaves alone. */
  lemma TransformFixesExactlyNormalForms(e: Expr)
    ensures Transform(e) == e <==> NormalForm(e)
    ensures Transform(Transform(e)) == Transform(e)
  {
    TransformNormalises(e);
    NormalFormIsFixed(Transform(e));
    if NormalForm(e) { NormalFormIsFixed(e); }
  }

  lemma {:induction false} TransformKeepsPlainTests(e: Expr)
    requires PlainTests(e)
    ensures PlainTests(Transform(e))
    decreases Weight(e), 1
  {
    match e
    case Bin(_, l, r) =>
      TransformKeepsPlainTests(l);
      TransformKeepsPlainTests(r);
    case Not(x) =>
      TransformKeepsPlainTests(x);
      TransformNegationPlain(x);
    case Cmp(_, _, _) => TransformedTest(e);
    case Sym(_) =>
  }

  lemma TransformedTest(e: Expr)
    requires e.Cmp?
    ensures Transform(e) == e || Transform(e).Sym? || (Transform(e).Not? && Transform(e).e.Sym?)
  {
  }

  lemma {:induction false} TransformNegationPlain(x: Expr)
    requires PlainTests(Transform(x))
    ensures PlainTests(Transform(Not(x)))
    decreases Weight(Not(x)), 0
  {
    match Transform(x)
    case Not(y) => TransformKeepsPlainTests(y);
    case Bin(op, a, b) =>
      DeMorganShrinks(op, a, b);
      assert PlainTests(Not(a)) && PlainTests(Not(b));
      TransformKeepsPlainTests(Bin(Dual(op), Not(a), Not(b)));
    case _ =>
  }

  // ----- m && MODULES -----

  /** rewrite_m */
  function RewriteM(e: Expr, modules: Symbol): Expr {
    match e
    case Sym(s) => if s == SYM_MOD then Bin(AndOp, e, Sym(modules)) else e
    case Cmp(_, _, _) => e
    case Not(x) => Not(RewriteM(x, modules))
    case Bin(op, l, r) => Bin(op, RewriteM(l, modules), RewriteM(r, modules))
  }

  function RewriteMDep(e: Option<Expr>, modules: Symbol): Option<Expr> {
    if e.None? then None else Some(RewriteM(e.value, modules))
  }

  /** The same symbols, except that the constant m counts only as far as modules are enabled. */
  function WithModules(v: Valuation, modules: Symbol): Valuation {
    var m := TriAnd(MOD, v.tri(modules));
    Valuation((s: Symbol) => if s == SYM_MOD then m else v.tri(s), v.str)
  }

  /** rewrite_m makes the constant m mean "m if modules are enabled", and changes nothing else. */
  lemma {:induction false} RewriteMReadsModules(e: Expr, modules: Symbol, v: Valuation)
    requires WellFormed(v)
    ensures Eval(RewriteM(e, modules), v) == Eval(e, WithModules(v, modules))
    ensures v.tri(modules) != NO ==> Eval(RewriteM(e, modules), v) == Eval(e, v)
    ensures PlainTests(e) ==> PlainTests(RewriteM(e, modules))
  {
    match e
    case Sym(_) =>
    case Cmp(_, l, r) => assert Compare(l, r, v) == Compare(l, r, WithModules(v, modules));
    case Not(x) => RewriteMReadsModules(x, modules, v);
    case Bin(_, l, r) =>
      RewriteMReadsModules(l, modules, v);
      RewriteMReadsModules(r, modules, v);
  }

  // ----- conditions of symbols that cannot be m -----

  /** Negation only around symbols. */
  predicate Nnf(e: Expr) {
    match e
    case Not(x) => x.Sym?
    case Bin(_, l, r) => Nnf(l) && Nnf(r)
    case _ => true
  }

  predicate NnfDep(e: Option<Expr>) { e.Some? ==> Nnf(e.value) }

  lemma {:induction false} NormalFormIsNnf(e: Expr)
    requires NormalForm(e)
    ensures Nnf(e)
  {
    if e.Bin? {
      NormalFormIsNnf(e.left);
      NormalFormIsNnf(e.right);
    }
  }

  /** expr_trans_bool */
  function TransBool(e: Expr): Expr {
    match e
    case Sym(_) => e
    case Cmp(rel, l, r) => if rel == Unequal && l.Kind() == TristateType && r == SYM_NO then Sym(l) else e
    case Not(x) => Not(TransBool(x))
    case Bin(op, l, r) => Bin(op, TransBool(l), TransBool(r))
  }

  function TransBoolDep(e: Option<Expr>): Option<Expr> {
    if e.None? then None else Some(TransBool(e.value))
  }

  lemma {:induction false} TransBoolKeepsNo(e: Expr, v: Valuation)
    requires WellFormed(v) && Nnf(e)
    ensures Eval(TransBool(e), v) <= Eval(e, v)
    ensures Eval(TransBool(e), v) == NO <==> Eval(e, v) == NO
    ensures Nnf(TransBool(e))
  {
    hide Compare;
    match e
    case Cmp(rel, l, r) =>
      if l.Kind() == TristateType && r == SYM_NO { CompareWithTristate(l, r, v); }
    case Bin(_, l, r) =>
      TransBoolKeepsNo(l, v);
      TransBoolKeepsNo(r, v);
    case _ =>
  }

  /** No test `A != n` of a tristate symbol. */
  predicate Untested(e: Expr) {
    match e
    case Sym(_) => true
    case Cmp(rel, l, r) => !(rel == Unequal && l.Kind() == TristateType && r == SYM_NO)
    case Not(x) => Untested(x)
    case Bin(_, l, r) => Untested(l) && Untested(r)
  }

  predicate UntestedDep(e: Option<Expr>) { e.Some? ==> Untested(e.value) }

  lemma {:induction false} TransBoolDropsTests(e: Expr)
    ensures Untested(TransBool(e))
    ensures Untested(e) <==> TransBool(e) == e
  {
    match e
    case Not(x) => TransBoolDropsTests(x);
    case Bin(_, l, r) =>
      TransBoolDropsTests(l);
      TransBoolDropsTests(r);
    case _ =>
  }

  /** The prompt part of sym_calc_visibility for a symbol outside any choice. */
  function PromptVisibility(prompts: seq<Option<Expr>>, kind: SymbolType, modules: Tristate, v: Valuation): Tristate {
    var tri := AnyPrompt(prompts, v);
    if tri == MOD && (kind != TristateType || modules == NO) then YES else tri
  }

  function AnyPrompt(prompts: seq<Option<Expr>>, v: Valuation): Tristate {
    if prompts == [] then NO
    else TriOr(AnyPrompt(prompts[..|prompts| - 1], v), EvalDep(prompts[|prompts| - 1], v))
  }

  /** A symbol that is not tristate is visible to the same degree with and without expr_trans_bool. */
  lemma {:induction false} TransBoolKeepsVisibility(prompts: seq<Option<Expr>>, after: seq<Option<Expr>>,
                                                    kind: SymbolType, modules: Tristate, v: Valuation)
    requires WellFormed(v) && kind != TristateType
    requires |after| == |prompts|
    requires forall i :: 0 <= i < |prompts| ==> NnfDep(prompts[i]) && after[i] == TransBoolDep(prompts[i])
    ensures PromptVisibility(after, kind, modules, v) == PromptVisibility(prompts, kind, modules, v)
  {
    AnyPromptKeepsNo(prompts, after, v);
  }

  lemma {:induction false} AnyPromptKeepsNo(prompts: seq<Option<Expr>>, after: seq<Option<Expr>>, v: Valuation)
    requires WellFormed(v) && |after| == |prompts|
    requires forall i :: 0 <= i < |prompts| ==> NnfDep(prompts[i]) && after[i] == TransBoolDep(prompts[i])
    ensures AnyPrompt(after, v) == NO <==> AnyPrompt(prompts, v) == NO
  {
    if prompts != [] {
      var n := |prompts| - 1;
      AnyPromptKeepsNo(prompts[..n], after[..n], v);
      if prompts[n].Some? { TransBoolKeepsNo(prompts[n].value, v); }
    }
  }

  /** The valuation in which every tristate symbol is `t` and every other symbol is n or empty. */
  function AllTristatesAt(t: Tristate): Valuation {
    var tri := (s: Symbol) =>
      if s == SYM_YES then YES else if s == SYM_MOD then MOD
      else if s.Kind() == TristateType then t else NO;
    Valuation(tri, (s: Symbol) =>
      if s.IsLogical() then TriName(tri(s)) else if s.Kind() == UnknownType then s.name else "")
  }

  /** Below a negation, where !(A!=n) becomes !A, it keeps whether a condition is n exactly if A is not m. */
  lemma TransBoolOfNegation(a: Symbol, v: Valuation)
    requires WellFormed(v) && a.Kind() == TristateType
    ensures var e := Not(Cmp(Unequal, a, SYM_NO));
            (Eval(TransBool(e), v) == NO <==> Eval(e, v) == NO) <==> v.tri(a) != MOD
  {
    CompareWithTristate(a, SYM_NO, v);
    var test := Cmp(Unequal, a, SYM_NO);
    assert TransBool(Not(test)) == Not(Sym(a));
    assert Eval(Not(test), v) == TriNot(Eval(test, v)) && Eval(Not(Sym(a)), v) == TriNot(v.tri(a));
  }

  /** Below a negation expr_trans_bool does change whether a condition is n: !(A!=n) at A = m. */
  lemma TransBoolUnderNegation(a: Symbol)
    requires a.Kind() == TristateType
    ensures exists v ::
      && WellFormed(v)
      && Eval(Not(Cmp(Unequal, a, SYM_NO)), v) == NO
      && Eval(TransBool(Not(Cmp(Unequal, a, SYM_NO))), v) == MOD
  {
    var v := AllTristatesAt(MOD);
    assert WellFormed(v);
    CompareWithTristate(a, SYM_NO, v);
    var test := Cmp(Unequal, a, SYM_NO);
    assert TransBool(test) == Sym(a);
    assert Eval(Not(test), v) == TriNot(Eval(test, v)) == NO;
    assert Eval(TransBool(Not(test)), v) == TriNot(Eval(Sym(a), v)) == MOD;
  }

  // ----- explicit comparisons with a constant -----

  /** expr_trans_compare for an equality test against y, m or n. */
  function TransCompare(e: Expr, rel: Rel, c: Symbol): Expr
    requires (rel == Equal || rel == Unequal) && IsTristateConst(c)
  {
    match e
    case Sym(s) => Cmp(rel, s, c)
    case Not(x) => TransCompare(x, Negate(rel), c)
    case Bin(op, l, r) =>
      var l', r' := TransCompare(l, Equal, c), TransCompare(r, Equal, c);
      var e' := if c == SYM_YES then Bin(op, l', r') else if c == SYM_NO then Bin(Dual(op), l', r') else e;
      if rel == Unequal then Not(e') else e'
    case Cmp(_, _, _) =>
      if c == SYM_MOD then Sym(if rel == Equal then SYM_NO else SYM_YES)
      else if (rel == Equal) == (c == SYM_YES) then e
      else Not(e)
  }

  function TransCompareDep(e: Option<Expr>, rel: Rel, c: Symbol): Expr
    requires (rel == Equal || rel == Unequal) && IsTristateConst(c)
  {
    if e.Some? then TransCompare(e.value, rel, c)
    else if rel == Unequal then Not(Sym(c)) else Sym(c)
  }

  /** Every symbol used as a condition is boolean, tristate, or one of y, m and n. */
  predicate LogicalLeaves(e: Expr) {
    match e
    case Sym(s) => s.IsLogical() || IsTristateConst(s)
    case Cmp(_, _, _) => true
    case Not(x) => LogicalLeaves(x)
    case Bin(_, l, r) => LogicalLeaves(l) && LogicalLeaves(r)
  }

  /** No negated operand is m. */
  predicate NoModUnderNot(e: Expr, v: Valuation) {
    match e
    case Not(x) => Eval(x, v) != MOD
    case Bin(_, l, r) => NoModUnderNot(l, v) && NoModUnderNot(r, v)
    case _ => true
  }

  lemma CompareConstants(c: Symbol, d: Symbol, v: Valuation)
    requires WellFormed(v) && IsTristateConst(c) && IsTristateConst(d)
    ensures Compare(c, d, v) == 0 <==> c == d
  {
    TristateConstIsText(c);
    TristateConstIsText(d);
  }

  /** The comparison with n inserted by expr_trans_compare is exact where no negated operand is m. */
  lemma {:induction false} TransCompareIsExact(e: Expr, rel: Rel, v: Valuation)
    requires WellFormed(v) && (rel == Equal || rel == Unequal)
    requires Nnf(e) && LogicalLeaves(e) && NoModUnderNot(e, v)
    ensures Eval(TransCompare(e, rel, SYM_NO), v) == TriOf((Eval(e, v) == NO) == (rel == Equal))
  {
    match e
    case Sym(s) => SymbolAgainstNo(s, v);
    case Not(x) => SymbolAgainstNo(x.sym, v);
    case Cmp(_, _, _) =>
    case Bin(_, l, r) =>
      TransCompareIsExact(l, Equal, v);
      TransCompareIsExact(r, Equal, v);
  }

  /** And so is the comparison with y; a test is never m. */
  lemma {:induction false} TransCompareWithYes(e: Expr, rel: Rel, v: Valuation)
    requires WellFormed(v) && (rel == Equal || rel == Unequal)
    requires Nnf(e) && LogicalLeaves(e) && NoModUnderNot(e, v)
    ensures Eval(TransCompare(e, rel, SYM_YES), v) == TriOf((Eval(e, v) == YES) == (rel == Equal))
    ensures e.Cmp? || e.Sym? ==>
              Eval(TransCompare(e, rel, SYM_MOD), v) == TriOf((Eval(e, v) == MOD) == (rel == Equal))
  {
    match e
    case Sym(s) => SymbolAgainst(s, v);
    case Not(x) => SymbolAgainst(x.sym, v);
    case Cmp(_, _, _) =>
    case Bin(_, l, r) =>
      TransCompareWithYes(l, Equal, v);
      TransCompareWithYes(r, Equal, v);
  }

  lemma SymbolAgainst(s: Symbol, v: Valuation)
    requires WellFormed(v) && (s.IsLogical() || IsTristateConst(s))
    ensures Compare(s, SYM_YES, v) == 0 <==> v.tri(s) == YES
    ensures Compare(s, SYM_MOD, v) == 0 <==> v.tri(s) == MOD
  {
    if s.IsLogical() {
      CompareWithTristate(s, SYM_YES, v);
      CompareWithTristate(s, SYM_MOD, v);
    } else {
      CompareConstants(s, SYM_YES, v);
      CompareConstants(s, SYM_MOD, v);
    }
  }

  lemma {:induction false} TransCompareKeepsPlainTests(e: Expr, rel: Rel, c: Symbol)
    requires (rel == Equal || rel == Unequal) && IsTristateConst(c) && PlainTests(e)
    ensures PlainTests(TransCompare(e, rel, c))
  {
    TristateConstIsText(c);
    match e
    case Not(x) => TransCompareKeepsPlainTests(x, Negate(rel), c);
    case Bin(_, l, r) =>
      TransCompareKeepsPlainTests(l, Equal, c);
      TransCompareKeepsPlainTests(r, Equal, c);
    case _ =>
  }

  lemma SymbolAgainstNo(s: Symbol, v: Valuation)
    requires WellFormed(v) && (s.IsLogical() || IsTristateConst(s))
    ensures Compare(s, SYM_NO, v) == 0 <==> v.tri(s) == NO
  {
    if s.IsLogical() { CompareWithTristate(s, SYM_NO, v); } else { CompareConstants(s, SYM_NO, v); }
  }

  /** A negated symbol is where it goes wrong, and only at m: !A != n becomes A = n. */
  lemma TransCompareOfNegation(s: Symbol, v: Valuation)
    requires WellFormed(v) && s.IsLogical()
    ensures Eval(TransCompare(Not(Sym(s)), Unequal, SYM_NO), v) == TriOf(Eval(Not(Sym(s)), v) != NO)
            <==> v.tri(s) != MOD
  {
    SymbolAgainstNo(s, v);
  }

  // ----- the syntactic dependency tests -----

  /** expr_contains_symbol */
  predicate ContainsSymbol(e: Expr, s: Symbol) {
    match e
    case Sym(t) => t == s
    case Cmp(_, l, r) => l == s || r == s
    case Not(x) => ContainsSymbol(x, s)
    case Bin(_, l, r) => ContainsSymbol(l, s) || ContainsSymbol(r, s)
  }

  /** expr_depends_symbol */
  predicate DependsSymbol(e: Expr, s: Symbol) {
    match e
    case Sym(t) => t == s
    case Cmp(rel, l, r) =>
      l == s && ((rel == Equal && (r == SYM_YES || r == SYM_MOD)) || (rel == Unequal && r == SYM_NO))
    case Bin(op, l, r) => op == AndOp && (DependsSymbol(l, s) || DependsSymbol(r, s))
    case Not(_) => false
  }

  /** An expression that expr_depends_symbol accepts is n whenever the symbol is n. */
  lemma {:induction false} DependsSymbolIsSound(e: Expr, s: Symbol, v: Valuation)
    requires WellFormed(v) && s.IsLogical() && DependsSymbol(e, s)
    ensures v.tri(s) == NO ==> Eval(e, v) == NO
    ensures ContainsSymbol(e, s)
  {
    match e
    case Sym(_) =>
    case Cmp(_, _, r) => CompareWithTristate(s, r, v);
    case Bin(_, l, r) =>
      if DependsSymbol(l, s) { DependsSymbolIsSound(l, s, v); } else { DependsSymbolIsSound(r, s, v); }
  }
}
