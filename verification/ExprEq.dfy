/**
 * Comparison of expressions up to reordering, and the removal of operands that
 * two expressions share (scripts/config/expr.c).
 */
module ExprEq {
  import opened Basics
  import opened Exprs

  /** The operand that `op` ignores, and the one that decides it. */
  function Neutral(op: Op): Expr { Sym(if op == AndOp then SYM_YES else SYM_NO) }

  function Deciding(op: Op): Expr { Sym(if op == AndOp then SYM_NO else SYM_YES) }

  predicate IsYesOrNo(e: Expr) { e == Sym(SYM_YES) || e == Sym(SYM_NO) }

  predicate IsLevel(e: Expr, op: Op) { e.Bin? && e.op == op }

  /** expr_eliminate_yn */
  function EliminateYn(e: Expr): Expr {
    match e
    case Bin(op, l, r) =>
      var l', r' := EliminateYn(l), EliminateYn(r);
      if l' == Deciding(op) || r' == Deciding(op) then Deciding(op)
      else if l' == Neutral(op) then r'
      else if r' == Neutral(op) then l'
      else Bin(op, l', r')
    case _ => e
  }

  /** __expr_eliminate_eq: every pair of equal operands of `op` becomes a pair of neutral ones. */
  function StripCommon(op: Op, e1: Expr, e2: Expr): (r: (Expr, Expr))
    ensures Size(r.0) <= Size(e1) && Size(r.1) <= Size(e2)
    ensures IsLevel(e1, op) ==> IsLevel(r.0, op)
    ensures IsLevel(e2, op) ==> IsLevel(r.1, op)
    decreases Size(e1) + Size(e2), if IsLevel(e1, op) || IsLevel(e2, op) then 0 else 3
  {
    if IsLevel(e1, op) then
      var (l, f) := StripCommon(op, e1.left, e2);
      var (r, g) := StripCommon(op, e1.right, f);
      (Bin(op, l, r), g)
    else if IsLevel(e2, op) then
      var (f, l) := StripCommon(op, e1, e2.left);
      var (g, r) := StripCommon(op, f, e2.right);
      (g, Bin(op, l, r))
    else if e1 == e2 && IsYesOrNo(e1) then (e1, e2)
    else if !Eq(e1, e2) then (e1, e2)
    else (Neutral(op), Neutral(op))
  }

  /** The two passes of expr_eliminate_eq, before the clean-up of constants. */
  function StripBoth(e1: Expr, e2: Expr): (r: (Expr, Expr))
    ensures Size(r.0) <= Size(e1) && Size(r.1) <= Size(e2)
    decreases Size(e1) + Size(e2), 1, 0
  {
    var (f1, f2) := if e1.Bin? then StripCommon(e1.op, e1, e2) else (e1, e2);
    if f2.Bin? && !IsLevel(f1, f2.op) then StripCommon(f2.op, f1, f2) else (f1, f2)
  }

  /** expr_eliminate_eq */
  function EliminateEq(e1: Expr, e2: Expr): (Expr, Expr)
    decreases Size(e1) + Size(e2), 1, 1
  {
    var (f1, f2) := StripBoth(e1, e2);
    (EliminateYn(f1), EliminateYn(f2))
  }

  /** expr_eq on two expressions that are present. */
  predicate Eq(e1: Expr, e2: Expr)
    decreases Size(e1) + Size(e2), 2
  {
    match (e1, e2)
    case (Sym(s), Sym(t)) => s == t
    case (Cmp(_, _, _), Cmp(_, _, _)) => e1 == e2
    case (Not(a), Not(b)) => Eq(a, b)
    case (Bin(op, _, _), Bin(op2, _, _)) =>
      if op != op2 then false
      else
        var (f1, f2) := EliminateEq(e1, e2);
        f1.Sym? && f2.Sym? && f1 == f2
    case _ => false
  }

  /** expr_eq, a missing expression standing for yes. */
  predicate EqDep(e1: Option<Expr>, e2: Option<Expr>) {
    if e1.None? || e2.None?
    then (e1.None? || e1.value == Sym(SYM_YES)) && (e2.None? || e2.value == Sym(SYM_YES))
    else Eq(e1.value, e2.value)
  }

  // ----- meaning -----

  lemma {:induction false} EliminateYnKeepsValue(e: Expr, v: Valuation)
    requires WellFormed(v)
    ensures Eval(EliminateYn(e), v) == Eval(e, v)
  {
    if e.Bin? {
      EliminateYnKeepsValue(e.left, v);
      EliminateYnKeepsValue(e.right, v);
    }
  }

  /** `op` has no operand left that it could drop or that decides it, at any depth below And and Or. */
  predicate NoConstOperand(e: Expr) {
    e.Bin? ==>
      && !IsYesOrNo(e.left) && !IsYesOrNo(e.right)
      && NoConstOperand(e.left) && NoConstOperand(e.right)
  }

  lemma {:induction false} EliminateYnRemovesConstants(e: Expr)
    ensures NoConstOperand(EliminateYn(e))
  {
    if e.Bin? {
      EliminateYnRemovesConstants(e.left);
      EliminateYnRemovesConstants(e.right);
    }
  }

  /** `a` and `b` are `a'` and `b'` with one common operand put back. */
  ghost predicate Factors(op: Op, a: Tristate, b: Tristate, a': Tristate, b': Tristate) {
    exists c: Tristate :: a == Apply(op, a', c) && b == Apply(op, b', c)
  }

  lemma ApplyAssociative(op: Op, a: Tristate, b: Tristate, c: Tristate, d: Tristate)
    ensures Apply(op, Apply(op, a, b), Apply(op, c, d)) == Apply(op, Apply(op, a, c), Apply(op, b, d))
    ensures Apply(op, Apply(op, a, b), c) == Apply(op, a, Apply(op, b, c)) == Apply(op, a, Apply(op, c, b))
  {
    if op == AndOp {
      assert TriAnd(TriAnd(a, b), c) == TriAnd(a, TriAnd(b, c));
    } else {
      assert TriOr(TriOr(a, b), c) == TriOr(a, TriOr(b, c));
    }
  }

  /** Stripping an operator's two children in turn strips the operator. */
  lemma FactorsOfPair(op: Op, l: Tristate, r: Tristate, e: Tristate, l': Tristate, r': Tristate, f: Tristate,
                      g: Tristate)
    requires Factors(op, l, e, l', f) && Factors(op, r, f, r', g)
    ensures Factors(op, Apply(op, l, r), e, Apply(op, l', r'), g)
  {
    hide Apply;
    var c: Tristate :| l == Apply(op, l', c) && e == Apply(op, f, c);
    var d: Tristate :| r == Apply(op, r', d) && f == Apply(op, g, d);
    ApplyAssociative(op, l', c, r', d);
    ApplyAssociative(op, g, d, c, c);
    var both: Tristate := Apply(op, c, d);
    assert Apply(op, l, r) == Apply(op, Apply(op, l', r'), both) && e == Apply(op, g, both);
  }

  lemma FactorsSwap(op: Op, a: Tristate, b: Tristate, a': Tristate, b': Tristate)
    requires Factors(op, a, b, a', b')
    ensures Factors(op, b, a, b', a')
  {
  }

  /** The factoring invariant: what is stripped from one side is stripped from the other. */
  lemma {:induction false} StripCommonFactors(op: Op, e1: Expr, e2: Expr, v: Valuation)
    requires WellFormed(v)
    ensures var (r1, r2) := StripCommon(op, e1, e2);
            Factors(op, Eval(e1, v), Eval(e2, v), Eval(r1, v), Eval(r2, v))
    decreases Size(e1) + Size(e2), if IsLevel(e1, op) || IsLevel(e2, op) then 0 else 3
  {
    hide Compare, WellFormed, Factors, Eval;
    if IsLevel(e1, op) {
      var (l, f) := StripCommon(op, e1.left, e2);
      var (r, g) := StripCommon(op, e1.right, f);
      StripCommonFactors(op, e1.left, e2, v);
      StripCommonFactors(op, e1.right, f, v);
      EvalOperands(e1, v);
      EvalOperands(Bin(op, l, r), v);
      FactorsOfPair(op, Eval(e1.left, v), Eval(e1.right, v), Eval(e2, v),
                    Eval(l, v), Eval(r, v), Eval(f, v), Eval(g, v));
    } else if IsLevel(e2, op) {
      var (f, l) := StripCommon(op, e1, e2.left);
      var (g, r) := StripCommon(op, f, e2.right);
      StripCommonFactors(op, e1, e2.left, v);
      StripCommonFactors(op, f, e2.right, v);
      EvalOperands(e2, v);
      EvalOperands(Bin(op, l, r), v);
      FactorsSwap(op, Eval(e1, v), Eval(e2.left, v), Eval(f, v), Eval(l, v));
      FactorsSwap(op, Eval(f, v), Eval(e2.right, v), Eval(g, v), Eval(r, v));
      FactorsOfPair(op, Eval(e2.left, v), Eval(e2.right, v), Eval(e1, v),
                    Eval(l, v), Eval(r, v), Eval(f, v), Eval(g, v));
      FactorsSwap(op, Eval(e2, v), Eval(e1, v), Eval(Bin(op, l, r), v), Eval(g, v));
    } else {
      if !(e1 == e2 && IsYesOrNo(e1)) && Eq(e1, e2) { EqIsSound(e1, e2, v); }
      StripLeaves(op, e1, e2, v);
    }
  }

  lemma EvalOperands(e: Expr, v: Valuation)
    requires e.Bin?
    ensures Eval(e, v) == Apply(e.op, Eval(e.left, v), Eval(e.right, v))
  {
  }

  lemma StripLeaves(op: Op, e1: Expr, e2: Expr, v: Valuation)
    requires WellFormed(v) && !IsLevel(e1, op) && !IsLevel(e2, op)
    requires !(e1 == e2 && IsYesOrNo(e1)) && Eq(e1, e2) ==> Eval(e1, v) == Eval(e2, v)
    ensures var (r1, r2) := StripCommon(op, e1, e2);
            Factors(op, Eval(e1, v), Eval(e2, v), Eval(r1, v), Eval(r2, v))
  {
    hide Compare, Eq;
    if (e1 == e2 && IsYesOrNo(e1)) || !Eq(e1, e2) {
      var c: Tristate := if op == AndOp then YES else NO;
      assert Eval(e1, v) == Apply(op, Eval(e1, v), c) && Eval(e2, v) == Apply(op, Eval(e2, v), c);
    } else {
      var c := Eval(e1, v);
      assert c == Apply(op, Eval(Neutral(op), v), c);
    }
  }

  /** `a'` and `b'` are ordered as `a` and `b` are, up to ties that come from what was removed. */
  predicate OrderReflected(a: Tristate, b: Tristate, a': Tristate, b': Tristate) {
    (a' <= b' ==> a <= b) && (b' <= a' ==> b <= a)
  }

  lemma FactorsReflectOrder(op: Op, a: Tristate, b: Tristate, a': Tristate, b': Tristate)
    requires Factors(op, a, b, a', b')
    ensures OrderReflected(a, b, a', b')
  {
  }

  /** Whatever expr_eliminate_eq leaves is ordered only if the given expressions are. */
  lemma {:induction false} EliminateEqReflectsOrder(e1: Expr, e2: Expr, v: Valuation)
    requires WellFormed(v)
    ensures var (r1, r2) := EliminateEq(e1, e2);
            OrderReflected(Eval(e1, v), Eval(e2, v), Eval(r1, v), Eval(r2, v))
    decreases Size(e1) + Size(e2), 1
  {
    var (f1, f2) := if e1.Bin? then StripCommon(e1.op, e1, e2) else (e1, e2);
    var (g1, g2) := StripBoth(e1, e2);
    if e1.Bin? {
      StripCommonFactors(e1.op, e1, e2, v);
      FactorsReflectOrder(e1.op, Eval(e1, v), Eval(e2, v), Eval(f1, v), Eval(f2, v));
    }
    if f2.Bin? && !IsLevel(f1, f2.op) {
      StripCommonFactors(f2.op, f1, f2, v);
      FactorsReflectOrder(f2.op, Eval(f1, v), Eval(f2, v), Eval(g1, v), Eval(g2, v));
    }
    EliminateYnKeepsValue(g1, v);
    EliminateYnKeepsValue(g2, v);
  }

  /** expr_eq is sound: expressions it calls equal have equal values. */
  lemma {:induction false} EqIsSound(e1: Expr, e2: Expr, v: Valuation)
    requires WellFormed(v) && Eq(e1, e2)
    ensures Eval(e1, v) == Eval(e2, v)
    decreases Size(e1) + Size(e2), 2
  {
    match (e1, e2)
    case (Not(a), Not(b)) => EqIsSound(a, b, v);
    case (Bin(_, _, _), Bin(_, _, _)) => EliminateEqReflectsOrder(e1, e2, v);
    case _ =>
  }

  lemma EqDepIsSound(e1: Option<Expr>, e2: Option<Expr>, v: Valuation)
    requires WellFormed(v) && EqDep(e1, e2)
    ensures EvalDep(e1, v) == EvalDep(e2, v)
  {
    if e1.Some? && e2.Some? { EqIsSound(e1.value, e2.value, v); }
  }

  /** The "superset" test of automatic submenus: what is left of `base` being y, `dep` implies `base`. */
  lemma SupersetTestIsSound(dep: Expr, base: Expr, v: Valuation)
    requires WellFormed(v) && EliminateEq(dep, base).1 == Sym(SYM_YES)
    ensures Eval(dep, v) <= Eval(base, v)
  {
    EliminateEqReflectsOrder(dep, base, v);
  }
}
