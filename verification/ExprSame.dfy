/**
 * Which expressions expr_eq calls equal and what expr_eliminate_eq strikes out, in terms of the operands of
 * And and Or, whatever their order and nesting (scripts/config/expr.c, scripts/config/menu.c).
 */
module ExprSame {
  import opened Basics
  import opened Exprs
  import opened ExprEq
  import opened ExprTransform
  import opened ExprDups

  /** The operands of a level of `op`. */
  function Leaves(op: Op, e: Expr): (r: seq<Expr>)
    ensures r != []
    ensures forall x :: x in r ==> !IsLevel(x, op) && Size(x) <= Size(e) && (IsLevel(e, op) ==> Size(x) < Size(e))
  {
    if IsLevel(e, op) then Leaves(op, e.left) + Leaves(op, e.right) else [e]
  }

  /** The same expression up to the order and the nesting of the operands of And and Or. */
  ghost predicate Same(a: Expr, b: Expr)
    decreases Size(a)
  {
    match (a, b)
    case (Not(x), Not(y)) => Same(x, y)
    case (Bin(op, _, _), Bin(op2, _, _)) =>
      && op == op2
      && (forall x | x in Leaves(op, a) :: exists y :: y in Leaves(op, b) && Same(x, y))
      && (forall y | y in Leaves(op, b) :: exists x | x in Leaves(op, a) :: Same(x, y))
    case _ => a == b
  }

  /** One of the operands in `m` is the same as `x`. */
  ghost predicate Occurs(x: Expr, m: seq<Expr>) {
    exists y :: y in m && Same(x, y)
  }

  /** Every operand in `a` occurs in `b`. */
  ghost predicate AllOccur(a: seq<Expr>, b: seq<Expr>) {
    forall x :: x in a ==> Occurs(x, b)
  }

  lemma {:induction false} SameReflexive(a: Expr)
    ensures Same(a, a)
    decreases Size(a)
  {
    match a
    case Not(x) => SameReflexive(x);
    case Bin(op, _, _) => forall x | x in Leaves(op, a) ensures Same(x, x) { SameReflexive(x); }
    case _ =>
  }

  lemma {:induction false} SameSymmetric(a: Expr, b: Expr)
    ensures Same(a, b) == Same(b, a)
    decreases Size(a) + Size(b)
  {
    match (a, b)
    case (Not(x), Not(y)) => SameSymmetric(x, y);
    case (Bin(op, _, _), Bin(op2, _, _)) =>
      if op == op2 {
        forall x, y | x in Leaves(op, a) && y in Leaves(op, b) ensures Same(x, y) == Same(y, x) { SameSymmetric(x, y); }
      }
    case _ =>
  }

  /** Two levels are the same if each operand of one occurs in the other. */
  lemma SameLevels(op: Op, a: Expr, b: Expr)
    requires IsLevel(a, op) && IsLevel(b, op)
    ensures Same(a, b) <==> AllOccur(Leaves(op, a), Leaves(op, b)) && AllOccur(Leaves(op, b), Leaves(op, a))
  {
    var la, lb := Leaves(op, a), Leaves(op, b);
    hide Leaves;
    forall x, y ensures Same(x, y) == Same(y, x) { SameSymmetric(x, y); }
  }

  lemma {:induction false} SameTransitive(a: Expr, b: Expr, c: Expr)
    requires Same(a, b) && Same(b, c)
    ensures Same(a, c)
    decreases Size(a) + Size(b) + Size(c)
  {
    if a.Bin? {
      LevelsTransitive(a.op, a, b, c);
    } else if a.Not? {
      SameTransitive(a.e, b.e, c.e);
    }
  }

  lemma LevelsTransitive(op: Op, a: Expr, b: Expr, c: Expr)
    requires IsLevel(a, op) && IsLevel(b, op) && IsLevel(c, op) && Same(a, b) && Same(b, c)
    ensures Same(a, c)
    decreases Size(a) + Size(b) + Size(c), 1
  {
    hide Same, Occurs, Leaves;
    SameLevels(op, a, b);
    SameLevels(op, b, c);
    SameLevels(op, a, c);
    forall x | x in Leaves(op, a) ensures Occurs(x, Leaves(op, c)) { OccursThrough(op, x, a, b, c); }
    forall x | x in Leaves(op, c) ensures Occurs(x, Leaves(op, a)) { OccursThrough(op, x, c, b, a); }
  }

  lemma OccursThrough(op: Op, x: Expr, a: Expr, b: Expr, c: Expr)
    requires IsLevel(a, op) && IsLevel(b, op) && IsLevel(c, op) && x in Leaves(op, a)
    requires AllOccur(Leaves(op, a), Leaves(op, b)) && AllOccur(Leaves(op, b), Leaves(op, c))
    ensures Occurs(x, Leaves(op, c))
    decreases Size(a) + Size(b) + Size(c), 0
  {
    hide Same, AllOccur;
    var y := Found(x, Leaves(op, a), Leaves(op, b));
    var z := Found(y, Leaves(op, b), Leaves(op, c));
    SameTransitive(x, y, z);
  }

  lemma Found(x: Expr, a: seq<Expr>, b: seq<Expr>) returns (y: Expr)
    requires AllOccur(a, b) && x in a
    ensures y in b && Same(x, y)
  {
    hide Same;
    assert Occurs(x, b);
    y :| y in b && Same(x, y);
  }

  // ----- what is struck out -----

  /** The level with every operand that occurs in `m` overwritten by the neutral one. */
  ghost function Strike(op: Op, e: Expr, m: seq<Expr>): Expr {
    if IsLevel(e, op) then Bin(op, Strike(op, e.left, m), Strike(op, e.right, m))
    else if Occurs(e, m) then Neutral(op) else e
  }

  /** No operand of the level is y or n. */
  ghost predicate NoConstLeaf(op: Op, e: Expr) {
    forall x :: x in Leaves(op, e) ==> !IsYesOrNo(x)
  }

  lemma NoConstBelow(op: Op, e: Expr)
    requires IsLevel(e, op)
    ensures NoConstLeaf(op, e) <==> NoConstLeaf(op, e.left) && NoConstLeaf(op, e.right)
  {
    var l, r := Leaves(op, e.left), Leaves(op, e.right);
    assert forall x :: x in Leaves(op, e) <==> x in l || x in r;
  }

  /** No two operands of the level are the same, except the neutral one. */
  ghost predicate Distinct(op: Op, e: Expr) {
    IsLevel(e, op) ==>
      && Distinct(op, e.left) && Distinct(op, e.right)
      && forall x, y :: x in Leaves(op, e.left) && y in Leaves(op, e.right) && Same(x, y) ==> x == Neutral(op)
  }

  /** On these operands expr_eq is right. */
  ghost predicate EqRight(a: seq<Expr>, b: seq<Expr>) {
    forall x, y :: x in a && y in b ==> (Eq(x, y) <==> Same(x, y))
  }

  lemma {:induction false} StrikeLevel(op: Op, e: Expr, m: seq<Expr>)
    ensures IsLevel(e, op) == IsLevel(Strike(op, e, m), op)
    ensures forall x :: x in Leaves(op, Strike(op, e, m)) ==>
      (x == Neutral(op) && exists y :: y in Leaves(op, e) && Occurs(y, m)) || (x in Leaves(op, e) && !Occurs(x, m))
    ensures forall x :: x in Leaves(op, e) && !Occurs(x, m) ==> x in Leaves(op, Strike(op, e, m))
  {
    if IsLevel(e, op) {
      StrikeLevel(op, e.left, m);
      StrikeLevel(op, e.right, m);
    }
  }

  /** Striking only asks which operands occur. */
  lemma {:induction false} StrikeDepends(op: Op, e: Expr, m: seq<Expr>, n: seq<Expr>)
    requires forall x :: x in Leaves(op, e) ==> (Occurs(x, m) <==> Occurs(x, n))
    ensures Strike(op, e, m) == Strike(op, e, n)
  {
    hide Occurs;
    if IsLevel(e, op) {
      StrikeDepends(op, e.left, m, n);
      StrikeDepends(op, e.right, m, n);
    }
  }

  lemma {:induction false} StrikeNothing(op: Op, e: Expr, m: seq<Expr>)
    requires forall x :: x in Leaves(op, e) ==> !Occurs(x, m)
    ensures Strike(op, e, m) == e
  {
    hide Occurs;
    if IsLevel(e, op) {
      StrikeNothing(op, e.left, m);
      StrikeNothing(op, e.right, m);
    }
  }

  lemma {:induction false} StrikeTwice(op: Op, e: Expr, m: seq<Expr>, n: seq<Expr>)
    requires Neutral(op) !in n
    ensures Strike(op, Strike(op, e, m), n) == Strike(op, e, m + n)
  {
    if IsLevel(e, op) {
      StrikeTwice(op, e.left, m, n);
      StrikeTwice(op, e.right, m, n);
    } else {
      OccursInBoth(e, m, n);
      OnlyItself(Neutral(op), n);
    }
  }

  lemma OccursInBoth(x: Expr, m: seq<Expr>, n: seq<Expr>)
    ensures Occurs(x, m + n) <==> Occurs(x, m) || Occurs(x, n)
  {
    hide Same;
    if Occurs(x, m) {
      var y :| y in m && Same(x, y);
      assert y in m + n;
    } else if Occurs(x, n) {
      var y :| y in n && Same(x, y);
      assert y in m + n;
    }
  }

  /** A symbol is the same as itself alone, for `Same` and for expr_eq. */
  lemma OnlyItself(x: Expr, m: seq<Expr>)
    requires x.Sym?
    ensures Occurs(x, m) <==> x in m
    ensures forall y :: (Same(x, y) <==> x == y) && (Same(y, x) <==> x == y)
    ensures forall y :: (Eq(x, y) <==> x == y) && (Eq(y, x) <==> x == y)
  {
  }

  lemma {:induction false} StrikeDistinct(op: Op, e: Expr, m: seq<Expr>)
    requires Distinct(op, e)
    ensures Distinct(op, Strike(op, e, m))
  {
    hide Occurs;
    if IsLevel(e, op) {
      StrikeDistinct(op, e.left, m);
      StrikeDistinct(op, e.right, m);
      StrikeLevel(op, e.left, m);
      StrikeLevel(op, e.right, m);
      OnlyItself(Neutral(op), []);
    }
  }

  /** Nothing is struck out against an operand that is struck out already. */
  lemma {:induction false} NeutralStripsNothing(op: Op, e: Expr)
    ensures StripCommon(op, Neutral(op), e) == (Neutral(op), e)
  {
    if IsLevel(e, op) {
      NeutralStripsNothing(op, e.left);
      NeutralStripsNothing(op, e.right);
    }
  }

  /** The operands of `right` that occur in a level still occur after the operands of `left` are struck out there. */
  lemma StillOccurs(op: Op, e1: Expr, e2: Expr, x: Expr)
    requires IsLevel(e1, op) && Distinct(op, e1) && NoConstLeaf(op, e1) && x in Leaves(op, e1.right)
    ensures Occurs(x, Leaves(op, Strike(op, e2, Leaves(op, e1.left)))) <==> Occurs(x, Leaves(op, e2))
  {
    hide Same;
    var f := Strike(op, e2, Leaves(op, e1.left));
    StrikeLevel(op, e2, Leaves(op, e1.left));
    OnlyItself(Neutral(op), []);
    NoConstBelow(op, e1);
    if Occurs(x, Leaves(op, e2)) {
      var y :| y in Leaves(op, e2) && Same(x, y);
      if Occurs(y, Leaves(op, e1.left)) {
        var l :| l in Leaves(op, e1.left) && Same(y, l);
        SameTransitive(x, y, l);
        SameSymmetric(x, l);
        assert false;
      }
    }
  }

  lemma StripLevelOfFirst(op: Op, e1: Expr, e2: Expr)
    requires IsLevel(e1, op) && NoConstLeaf(op, e1) && Distinct(op, e1)
    ensures var f := Strike(op, e2, Leaves(op, e1.left));
      && Strike(op, e1.right, Leaves(op, f)) == Strike(op, e1.right, Leaves(op, e2))
      && Strike(op, f, Leaves(op, e1.right)) == Strike(op, e2, Leaves(op, e1))
  {
    var f := Strike(op, e2, Leaves(op, e1.left));
    forall x | x in Leaves(op, e1.right) ensures Occurs(x, Leaves(op, f)) <==> Occurs(x, Leaves(op, e2)) {
      StillOccurs(op, e1, e2, x);
    }
    StrikeDepends(op, e1.right, Leaves(op, f), Leaves(op, e2));
    NoConstBelow(op, e1);
    StrikeTwice(op, e2, Leaves(op, e1.left), Leaves(op, e1.right));
  }

  lemma StripLevelOfSecond(op: Op, x: Expr, e: Expr)
    requires IsLevel(e, op) && !IsLevel(x, op) && !IsYesOrNo(x) && Distinct(op, e)
    ensures Occurs(x, Leaves(op, e.left)) ==> Strike(op, e.right, [x]) == e.right
    ensures Occurs(x, Leaves(op, e)) <==> Occurs(x, Leaves(op, e.left)) || Occurs(x, Leaves(op, e.right))
  {
    OccursInBoth(x, Leaves(op, e.left), Leaves(op, e.right));
    if Occurs(x, Leaves(op, e.left)) {
      hide Same;
      var l :| l in Leaves(op, e.left) && Same(x, l);
      OnlyItself(Neutral(op), []);
      forall y | y in Leaves(op, e.right) ensures !Occurs(y, [x]) {
        if Same(y, x) {
          SameTransitive(y, x, l);
          SameSymmetric(y, l);
        }
      }
      StrikeNothing(op, e.right, [x]);
    }
  }

  lemma EqRightAfter(op: Op, a: seq<Expr>, e: Expr, m: seq<Expr>)
    requires EqRight(a, Leaves(op, e))
    ensures EqRight(a, Leaves(op, Strike(op, e, m)))
  {
    hide Same;
    StrikeLevel(op, e, m);
    OnlyItself(Neutral(op), []);
  }

  /**
   * What __expr_eliminate_eq does to two levels without repeated operands: it strikes out on either side the
   * operands that occur on the other one.
   */
  lemma {:induction false} StripIsStrike(op: Op, e1: Expr, e2: Expr)
    requires NoConstLeaf(op, e1) && Distinct(op, e1) && Distinct(op, e2)
    requires EqRight(Leaves(op, e1), Leaves(op, e2))
    ensures StripCommon(op, e1, e2) == (Strike(op, e1, Leaves(op, e2)), Strike(op, e2, Leaves(op, e1)))
    decreases Size(e1), Size(e2)
  {
    hide Same, Eq;
    if IsLevel(e1, op) {
      var f := Strike(op, e2, Leaves(op, e1.left));
      NoConstBelow(op, e1);
      StripIsStrike(op, e1.left, e2);
      StrikeDistinct(op, e2, Leaves(op, e1.left));
      EqRightAfter(op, Leaves(op, e1.right), e2, Leaves(op, e1.left));
      StripIsStrike(op, e1.right, f);
      StripLevelOfFirst(op, e1, e2);
    } else if IsLevel(e2, op) {
      StripLevelOfSecond(op, e1, e2);
      StripIsStrike(op, e1, e2.left);
      if Occurs(e1, Leaves(op, e2.left)) {
        NeutralStripsNothing(op, e2.right);
      } else {
        StripIsStrike(op, e1, e2.right);
      }
    } else {
      SameSymmetric(e1, e2);
    }
  }

  // ----- what is left -----

  /** Operands of the level that expr_eliminate_yn does not change, and neutral ones. */
  ghost predicate CleanLevel(op: Op, e: Expr) {
    forall x :: x in Leaves(op, e) ==> x == Neutral(op) || (NoConstOperand(x) && !IsYesOrNo(x))
  }

  lemma {:induction false} CleanStays(e: Expr)
    requires NoConstOperand(e)
    ensures EliminateYn(e) == e
  {
    if e.Bin? {
      CleanStays(e.left);
      CleanStays(e.right);
    }
  }

  ghost predicate AllNeutral(op: Op, e: Expr) {
    forall x :: x in Leaves(op, e) ==> x == Neutral(op)
  }

  /** Neutral operands are dropped: the neutral one is left if there is no other, and a single operand as it is. */
  lemma {:induction false} YnOfLevel(op: Op, e: Expr)
    requires CleanLevel(op, e)
    ensures var u := EliminateYn(e);
      && (u == Neutral(op) <==> AllNeutral(op, e))
      && u != Deciding(op)
      && (u.Sym? && u != Neutral(op) ==> u in Leaves(op, e))
  {
    if IsLevel(e, op) {
      assert forall x :: x in Leaves(op, e.left) ==> x in Leaves(op, e);
      assert forall x :: x in Leaves(op, e.right) ==> x in Leaves(op, e);
      YnOfLevel(op, e.left);
      YnOfLevel(op, e.right);
    } else {
      assert e in Leaves(op, e);
      if e != Neutral(op) { CleanStays(e); }
    }
  }

  // ----- trees without repeated operands -----

  /** At no level an operand is y or n, or is the same as another one. */
  ghost predicate Tidy(e: Expr)
    decreases Size(e)
  {
    match e
    case Not(x) => Tidy(x)
    case Bin(op, _, _) =>
      NoConstLeaf(op, e) && Distinct(op, e) && forall x | x in Leaves(op, e) :: Tidy(x)
    case _ => true
  }

  lemma {:induction false} LevelIsClean(op: Op, e: Expr)
    requires forall x :: x in Leaves(op, e) ==> !IsYesOrNo(x) && NoConstOperand(x)
    ensures NoConstOperand(e) && !IsYesOrNo(e)
  {
    if IsLevel(e, op) {
      assert forall x :: x in Leaves(op, e.left) ==> x in Leaves(op, e);
      assert forall x :: x in Leaves(op, e.right) ==> x in Leaves(op, e);
      LevelIsClean(op, e.left);
      LevelIsClean(op, e.right);
    } else {
      assert e in Leaves(op, e);
    }
  }

  lemma {:induction false} TidyIsClean(e: Expr)
    requires Tidy(e)
    ensures NoConstOperand(e)
    decreases Size(e)
  {
    if e.Bin? {
      forall x | x in Leaves(e.op, e) ensures NoConstOperand(x) { TidyIsClean(x); }
      LevelIsClean(e.op, e);
    }
  }

  lemma StruckLevel(op: Op, e: Expr, m: seq<Expr>)
    requires Tidy(e) && IsLevel(e, op)
    ensures var u := EliminateYn(Strike(op, e, m));
      && (u == Neutral(op) <==> AllOccur(Leaves(op, e), m))
      && u != Deciding(op)
      && (u.Sym? && u != Neutral(op) ==> u in Leaves(op, e) && !Occurs(u, m))
  {
    hide Same, Occurs;
    StrikeLevel(op, e, m);
    forall x | x in Leaves(op, e) ensures NoConstOperand(x) { TidyIsClean(x); }
    YnOfLevel(op, Strike(op, e, m));
  }

  lemma OccursItself(x: Expr, m: seq<Expr>)
    requires x in m
    ensures Occurs(x, m)
  {
    SameReflexive(x);
  }

  /** expr_eq of two levels of one operator. */
  lemma EqOfLevels(op: Op, a: Expr, b: Expr)
    requires Tidy(a) && Tidy(b) && IsLevel(a, op) && IsLevel(b, op)
    requires EqRight(Leaves(op, a), Leaves(op, b))
    ensures Eq(a, b) <==> Same(a, b)
  {
    hide Same, Occurs, Leaves;
    var la, lb := Leaves(op, a), Leaves(op, b);
    var ua, ub := EliminateYn(Strike(op, a, lb)), EliminateYn(Strike(op, b, la));
    StripIsStrike(op, a, b);
    assert EliminateEq(a, b) == (ua, ub);
    StruckLevel(op, a, lb);
    StruckLevel(op, b, la);
    SameLevels(op, a, b);
    if ua == ub && ua.Sym? && ua in la && ua in lb {
      OccursItself(ua, lb);
    }
  }

  /** expr_eq is complete: on trees without repeated operands it is equality up to order and nesting. */
  lemma {:induction false} EqIsSame(a: Expr, b: Expr)
    requires Tidy(a) && Tidy(b)
    ensures Eq(a, b) <==> Same(a, b)
    decreases Size(a) + Size(b)
  {
    match (a, b)
    case (Not(x), Not(y)) => EqIsSame(x, y);
    case (Bin(op, _, _), Bin(op2, _, _)) =>
      if op == op2 {
        hide Eq, Same;
        forall x, y | x in Leaves(op, a) && y in Leaves(op, b) ensures Eq(x, y) <==> Same(x, y) { EqIsSame(x, y); }
        EqOfLevels(op, a, b);
      }
    case _ =>
  }

  // ----- the superset test -----

  /** Every operand of And in `test` occurs among those of `own`, which is an And. */
  ghost predicate Includes(own: Expr, test: Expr) {
    IsLevel(own, AndOp) && AllOccur(Leaves(AndOp, test), Leaves(AndOp, own))
  }

  lemma TidyPair(op: Op, a: Expr, b: Expr)
    requires Tidy(a) && Tidy(b)
    ensures EqRight(Leaves(op, a), Leaves(op, b))
    ensures Distinct(op, a)
    ensures IsLevel(a, op) ==> NoConstLeaf(op, a)
  {
    hide Eq, Same;
    assert !IsLevel(a, op) ==> Leaves(op, a) == [a];
    assert !IsLevel(b, op) ==> Leaves(op, b) == [b];
    forall x, y | x in Leaves(op, a) && y in Leaves(op, b) ensures Eq(x, y) <==> Same(x, y) {
      EqIsSame(x, y);
    }
  }

  /** Against a single operand at most one operand of a level is struck out. */
  lemma OneOperandLeavesAnother(op: Op, x: Expr, e: Expr)
    requires IsLevel(e, op) && Tidy(e)
    ensures !AllOccur(Leaves(op, e), [x])
  {
    hide Same;
    var l, r := Leaves(op, e.left)[0], Leaves(op, e.right)[0];
    assert l in Leaves(op, e) && r in Leaves(op, e);
    if AllOccur(Leaves(op, e), [x]) {
      assert Occurs(l, [x]) && Occurs(r, [x]);
      SameSymmetric(r, x);
      SameTransitive(l, x, r);
      assert false;
    }
  }

  lemma {:induction false} AbsentSymbolStripsNothing(op: Op, x: Expr, e: Expr)
    requires x.Sym? && x !in Leaves(op, e)
    ensures StripCommon(op, x, e) == (x, e)
  {
    if IsLevel(e, op) {
      AbsentSymbolStripsNothing(op, x, e.left);
      AbsentSymbolStripsNothing(op, x, e.right);
    }
  }

  /** A single operand does not use up a level. */
  lemma OperandAgainstLevel(op: Op, x: Expr, e: Expr)
    requires Tidy(x) && Tidy(e) && !IsLevel(x, op) && IsLevel(e, op)
    ensures EliminateYn(StripCommon(op, x, e).1) != Sym(SYM_YES)
  {
    hide Same, Eq, StripCommon;
    if IsYesOrNo(x) {
      AbsentSymbolStripsNothing(op, x, e);
      TidyIsClean(e);
      CleanStays(e);
    } else {
      assert Leaves(op, x) == [x];
      TidyPair(op, x, e);
      TidyPair(op, e, x);
      StripIsStrike(op, x, e);
      StruckLevel(op, e, [x]);
      OneOperandLeavesAnother(op, x, e);
    }
  }

  /** A level against something that is not one of its kind: that is struck out as a whole, or nothing is. */
  lemma LevelAgainstOperand(op: Op, e: Expr, x: Expr)
    requires Tidy(e) && Tidy(x) && IsLevel(e, op) && !IsLevel(x, op)
    ensures Occurs(x, Leaves(op, e)) ==> StripCommon(op, e, x).1 == Neutral(op)
    ensures !Occurs(x, Leaves(op, e)) ==> StripCommon(op, e, x) == (e, x)
  {
    hide Same, Eq, StripCommon;
    assert Leaves(op, x) == [x];
    TidyPair(op, e, x);
    TidyPair(op, x, e);
    StripIsStrike(op, e, x);
    if !Occurs(x, Leaves(op, e)) {
      forall y | y in Leaves(op, e) ensures !Occurs(y, [x]) { SameSymmetric(x, y); }
      StrikeNothing(op, e, [x]);
    }
  }

  lemma LevelAgainstLevel(op: Op, a: Expr, b: Expr)
    requires Tidy(a) && Tidy(b) && IsLevel(a, op) && IsLevel(b, op)
    ensures EliminateEq(a, b).1 == Neutral(op) <==> AllOccur(Leaves(op, b), Leaves(op, a))
    ensures EliminateEq(a, b).1 != Deciding(op)
  {
    hide Same, Eq, Leaves;
    TidyPair(op, a, b);
    TidyPair(op, b, a);
    StripIsStrike(op, a, b);
    StruckLevel(op, b, Leaves(op, a));
  }

  /** A first expression that is not an And, or does not include the second one, leaves nothing but y of y. */
  lemma NothingIncluded(a: Expr, b: Expr)
    requires Tidy(a) && Tidy(b) && !(IsLevel(b, AndOp) && IsLevel(a, AndOp))
    requires IsLevel(a, AndOp) ==> !Occurs(b, Leaves(AndOp, a))
    ensures EliminateEq(a, b).1 == Sym(SYM_YES) <==> b == Sym(SYM_YES)
  {
    hide Same, Eq, StripCommon, Leaves;
    if a.Bin? && IsLevel(b, a.op) {
      LevelAgainstLevel(OrOp, a, b);
    } else {
      if a.Bin? {
        LevelAgainstOperand(a.op, a, b);
        NoYesOperand(a);
      }
      if b.Bin? { OperandAgainstLevel(b.op, a, b); }
    }
  }

  lemma NoYesOperand(a: Expr)
    requires Tidy(a) && a.Bin?
    ensures !Occurs(Sym(SYM_YES), Leaves(a.op, a))
  {
    OnlyItself(Sym(SYM_YES), Leaves(a.op, a));
  }

  /**
   * The "superset" test of automatic submenus is exact: nothing but y is left of the second expression if it is y,
   * or if the first one is an And and every operand of And of the second one occurs among its operands.
   */
  lemma SupersetIsInclusion(own: Expr, test: Expr)
    requires Tidy(own) && Tidy(test)
    ensures EliminateEq(own, test).1 == Sym(SYM_YES) <==> test == Sym(SYM_YES) || Includes(own, test)
  {
    hide Same, Eq, StripCommon;
    if IsLevel(own, AndOp) && IsLevel(test, AndOp) {
      LevelAgainstLevel(AndOp, own, test);
    } else {
      if IsLevel(own, AndOp) {
        assert Leaves(AndOp, test) == [test];
        LevelAgainstOperand(AndOp, own, test);
      }
      if !(IsLevel(own, AndOp) && Occurs(test, Leaves(AndOp, own))) { NothingIncluded(own, test); }
    }
  }

  // ----- the other uses of expr_eliminate_eq -----

  /** An operand against a level of And or Or: it is struck out on both sides if it occurs there. */
  lemma OperandIsEliminated(op: Op, x: Expr, e: Expr)
    requires Tidy(x) && Tidy(e) && !x.Bin? && !IsYesOrNo(x) && IsLevel(e, op)
    ensures Occurs(x, Leaves(op, e)) ==> EliminateEq(x, e).0 == EliminateEq(e, x).1 == Neutral(op)
    ensures !Occurs(x, Leaves(op, e)) ==> EliminateEq(x, e) == (x, e) && EliminateEq(e, x) == (e, x)
  {
    hide Same, Eq, StripCommon, Leaves;
    assert Leaves(op, x) == [x] by { LeavesOfOperand(op, x); }
    TidyPair(op, x, e);
    TidyPair(op, e, x);
    assert NoConstLeaf(op, x);
    StripIsStrike(op, x, e);
    LevelAgainstOperand(op, e, x);
    TidyIsClean(e);
    CleanStays(e);
    if !Occurs(x, Leaves(op, e)) {
      forall y | y in Leaves(op, e) ensures !Occurs(y, [x]) { SameSymmetric(x, y); }
      StrikeNothing(op, e, [x]);
    }
  }

  lemma LeavesOfOperand(op: Op, x: Expr)
    requires !IsLevel(x, op)
    ensures Leaves(op, x) == [x]
  {
  }

  lemma StripFirst(op: Op, e1: Expr, e2: Expr)
    requires IsLevel(e1, op)
    ensures var l := StripCommon(op, e1.left, e2);
            var r := StripCommon(op, e1.right, l.1);
            StripCommon(op, e1, e2) == (Bin(op, l.0, r.0), r.1)
  {
  }

  lemma StripSecond(op: Op, e1: Expr, e2: Expr)
    requires !IsLevel(e1, op) && IsLevel(e2, op)
    ensures var l := StripCommon(op, e1, e2.left);
            var r := StripCommon(op, l.0, e2.right);
            StripCommon(op, e1, e2) == (r.0, Bin(op, l.1, r.1))
  {
  }

  /** y and n are never struck out: a level that has its deciding operand on either side is decided on either side. */
  lemma {:induction false} DecidingStays(op: Op, e1: Expr, e2: Expr)
    ensures Deciding(op) in Leaves(op, e1) ==> Deciding(op) in Leaves(op, StripCommon(op, e1, e2).0)
    ensures Deciding(op) in Leaves(op, e2) ==> Deciding(op) in Leaves(op, StripCommon(op, e1, e2).1)
    decreases Size(e1) + Size(e2), if IsLevel(e1, op) || IsLevel(e2, op) then 0 else 1
  {
    if IsLevel(e1, op) {
      hide Leaves, Deciding, StripCommon;
      var l := StripCommon(op, e1.left, e2);
      var r := StripCommon(op, e1.right, l.1);
      StripFirst(op, e1, e2);
      DecidingStays(op, e1.left, e2);
      DecidingStays(op, e1.right, l.1);
      InLevel(op, e1.left, e1.right, Deciding(op));
      InLevel(op, l.0, r.0, Deciding(op));
    } else if IsLevel(e2, op) {
      hide Leaves, Deciding, StripCommon;
      var l := StripCommon(op, e1, e2.left);
      var r := StripCommon(op, l.0, e2.right);
      StripSecond(op, e1, e2);
      DecidingStays(op, e1, e2.left);
      DecidingStays(op, l.0, e2.right);
      InLevel(op, e2.left, e2.right, Deciding(op));
      InLevel(op, l.1, r.1, Deciding(op));
    } else {
      DecidingOperandStays(op, e1, e2);
    }
  }

  lemma DecidingOperandStays(op: Op, e1: Expr, e2: Expr)
    requires !IsLevel(e1, op) && !IsLevel(e2, op)
    ensures Deciding(op) in Leaves(op, e1) ==> Deciding(op) in Leaves(op, StripCommon(op, e1, e2).0)
    ensures Deciding(op) in Leaves(op, e2) ==> Deciding(op) in Leaves(op, StripCommon(op, e1, e2).1)
  {
    hide Eq, Leaves;
    LeavesOfOperand(op, e1);
    LeavesOfOperand(op, e2);
    if e1 == Deciding(op) || e2 == Deciding(op) {
      OnlyItself(Deciding(op), []);
      assert StripCommon(op, e1, e2) == (e1, e2);
    }
  }

  lemma InLevel(op: Op, l: Expr, r: Expr, x: Expr)
    ensures x in Leaves(op, Bin(op, l, r)) <==> x in Leaves(op, l) || x in Leaves(op, r)
  {
  }

  lemma {:induction false} DecidingDecides(op: Op, e: Expr)
    requires Deciding(op) in Leaves(op, e)
    ensures EliminateYn(e) == Deciding(op)
  {
    if IsLevel(e, op) {
      if Deciding(op) in Leaves(op, e.left) { DecidingDecides(op, e.left); } else { DecidingDecides(op, e.right); }
    }
  }

  /** expr_eq calls two levels equal that both have the deciding operand, whatever else they have. */
  lemma DecidedLevelsAreEqual(op: Op, a: Expr, b: Expr)
    requires IsLevel(a, op) && IsLevel(b, op) && Deciding(op) in Leaves(op, a) && Deciding(op) in Leaves(op, b)
    ensures Eq(a, b)
  {
    DecidingStays(op, a, b);
    DecidingDecides(op, StripCommon(op, a, b).0);
    DecidingDecides(op, StripCommon(op, a, b).1);
  }

  // ----- outright dependencies -----

  /** The operand is the symbol itself, or a test that it fails at n. */
  predicate Demands(x: Expr, s: Symbol) {
    || x == Sym(s)
    || x == Cmp(Equal, s, SYM_YES) || x == Cmp(Equal, s, SYM_MOD) || x == Cmp(Unequal, s, SYM_NO)
  }

  /** expr_depends_symbol looks for such an operand of And. */
  lemma {:induction false} DependsIsOperand(e: Expr, s: Symbol)
    ensures DependsSymbol(e, s) <==> exists x :: x in Leaves(AndOp, e) && Demands(x, s)
  {
    if IsLevel(e, AndOp) {
      DependsIsOperand(e.left, s);
      DependsIsOperand(e.right, s);
      assert forall x :: x in Leaves(AndOp, e) <==> x in Leaves(AndOp, e.left) || x in Leaves(AndOp, e.right);
    } else {
      assert e in Leaves(AndOp, e) && forall x :: x in Leaves(AndOp, e) ==> x == e;
      assert DependsSymbol(e, s) <==> Demands(e, s);
    }
  }

  // ----- what expr_eliminate_dups leaves alone -----

  lemma {:induction false} LeafAt(op: Op, e: Expr, x: Expr) returns (p: Path)
    requires x in Leaves(op, e)
    ensures IsLeaf(op, e, p) && Sub(op, e, p) == x
  {
    if !IsLevel(e, op) {
      p := [];
    } else if x in Leaves(op, e.left) {
      var q := LeafAt(op, e.left, x);
      p := [false] + q;
      assert p[1..] == q;
    } else {
      var q := LeafAt(op, e.right, x);
      p := [true] + q;
      assert p[1..] == q;
    }
  }

  /** Two positions of a level hold operands that expr_eq tells apart. */
  ghost predicate Apart(op: Op, t: Expr) {
    forall p, q :: IsLeaf(op, t, p) && IsLeaf(op, t, q) && p != q ==> !Eq(Sub(op, t, p), Sub(op, t, q))
  }

  lemma ApartBelow(op: Op, t: Expr)
    requires IsLevel(t, op) && Apart(op, t)
    ensures Apart(op, t.left) && Apart(op, t.right)
    ensures forall x, y :: x in Leaves(op, t.left) && y in Leaves(op, t.right) ==> !Eq(x, y)
  {
    hide Eq;
    ApartChild(op, t, false);
    ApartChild(op, t, true);
    forall x, y | x in Leaves(op, t.left) && y in Leaves(op, t.right) ensures !Eq(x, y) {
      var p := LeafAt(op, t.left, x);
      var q := LeafAt(op, t.right, y);
      LeafOfChild(op, t, false, p);
      LeafOfChild(op, t, true, q);
      assert ([false] + p)[0] != ([true] + q)[0];
    }
  }

  lemma ApartChild(op: Op, t: Expr, right: bool)
    requires IsLevel(t, op) && Apart(op, t)
    ensures Apart(op, Child(t, right))
  {
    hide Eq;
    var c := Child(t, right);
    forall p, q | IsLeaf(op, c, p) && IsLeaf(op, c, q) && p != q ensures !Eq(Sub(op, c, p), Sub(op, c, q)) {
      LeafOfChild(op, t, right, p);
      LeafOfChild(op, t, right, q);
      assert ([right] + p)[1..] == p && ([right] + q)[1..] == q;
    }
  }

  lemma LeafOfChild(op: Op, t: Expr, right: bool, p: Path)
    requires IsLevel(t, op) && IsLeaf(op, Child(t, right), p)
    ensures IsLeaf(op, t, [right] + p) && Sub(op, t, [right] + p) == Sub(op, Child(t, right), p)
  {
    assert ([right] + p)[1..] == p;
  }

  lemma {:induction false} ApartIsDistinct(op: Op, t: Expr)
    requires Apart(op, t) && NoConstLeaf(op, t) && forall x :: x in Leaves(op, t) ==> Tidy(x)
    ensures Distinct(op, t)
  {
    hide Eq, Same;
    if IsLevel(t, op) {
      ApartBelow(op, t);
      NoConstBelow(op, t);
      ApartIsDistinct(op, t.left);
      ApartIsDistinct(op, t.right);
      forall x, y | x in Leaves(op, t.left) && y in Leaves(op, t.right) ensures !Same(x, y) {
        EqIsSame(x, y);
      }
    }
  }

  /** Each operand of a settled level is settled, and no two of them are equal. */
  lemma SettledLevel(op: Op, t: Expr)
    requires IsLevel(t, op) && Settled(t)
    ensures Apart(op, t) && forall x :: x in Leaves(op, t) ==> Settled(x)
  {
    hide Eq, Settled;
    assert SettledBelow(op, t, [], []) by { SettledMeans(op, t); }
    forall p, q | IsLeaf(op, t, p) && IsLeaf(op, t, q) && p != q ensures !Eq(Sub(op, t, p), Sub(op, t, q)) {
      assert SettledPair(op, t, p, q);
    }
    forall x | x in Leaves(op, t) ensures Settled(x) {
      var p := LeafAt(op, t, x);
      var y := Leaves(op, Child(t, p[0] == false))[0];
      var q := LeafAt(op, Child(t, p[0] == false), y);
      LeafOfChild(op, t, p[0] == false, q);
      assert p != [p[0] == false] + q;
      assert SettledPair(op, t, p, [p[0] == false] + q);
    }
  }

  lemma SettledMeans(op: Op, t: Expr)
    requires IsLevel(t, op)
    ensures Settled(t) <==> SettledBelow(op, t, [], [])
  {
  }

  lemma {:induction false} CleanLeaves(op: Op, e: Expr)
    requires NoConstOperand(e)
    ensures forall x :: x in Leaves(op, e) ==> NoConstOperand(x) && (IsYesOrNo(x) ==> x == e)
  {
    if IsLevel(e, op) {
      CleanLeaves(op, e.left);
      CleanLeaves(op, e.right);
    }
  }

  /** Where no operands can be joined and no y or n is left, no operand is repeated. */
  lemma {:induction false} SettledIsTidy(e: Expr)
    requires Settled(e) && NoConstOperand(e) && Nnf(e)
    ensures Tidy(e)
    decreases Size(e)
  {
    if e.Bin? {
      hide Settled, Eq, Same;
      var op := e.op;
      SettledLevel(op, e);
      CleanLeaves(op, e);
      NnfLeaves(op, e);
      forall x | x in Leaves(op, e) ensures Tidy(x) { SettledIsTidy(x); }
      ApartIsDistinct(op, e);
    }
  }

  lemma {:induction false} NnfLeaves(op: Op, e: Expr)
    requires Nnf(e)
    ensures forall x :: x in Leaves(op, e) ==> Nnf(x)
  {
    if IsLevel(e, op) {
      NnfLeaves(op, e.left);
      NnfLeaves(op, e.right);
    }
  }

  // ----- conditions of menu items -----

  /** The question whether `e` differs from n, asked of each operand: a boolean answers it itself. */
  function AsTest(e: Expr): Expr {
    match e
    case Sym(s) => if s.Kind() == BooleanType then e else Cmp(Unequal, s, SYM_NO)
    case Not(x) => if x.Sym? && x.sym.Kind() != BooleanType then Cmp(Equal, x.sym, SYM_NO) else e
    case Cmp(_, _, _) => e
    case Bin(op, l, r) => Bin(op, AsTest(l), AsTest(r))
  }

  lemma {:induction false} BooleansAnswerThemselves(e: Expr)
    requires NormalForm(e) && BooleanOperands(e)
    ensures AsTest(e) == e
  {
    if e.Bin? {
      BooleansAnswerThemselves(e.left);
      BooleansAnswerThemselves(e.right);
    }
  }

  /** The symbols used as conditions are boolean. */
  predicate BooleanOperands(e: Expr) {
    match e
    case Sym(s) => s.Kind() == BooleanType
    case Not(x) => BooleanOperands(x)
    case Cmp(_, _, _) => true
    case Bin(_, l, r) => BooleanOperands(l) && BooleanOperands(r)
  }

  /** For conditions on booleans this is what expr_eliminate_dups leaves. */
  lemma SettledBooleans(e: Expr)
    requires NormalForm(e) && BooleanOperands(e) && Settled(e)
    ensures NothingToJoin(e)
  {
    BooleansAnswerThemselves(e);
  }

  /** expr_trans_compare and expr_transform ask this question. */
  lemma {:induction false} TransformedTestOf(e: Expr)
    requires NormalForm(e)
    ensures Transform(TransCompare(e, Unequal, SYM_NO)) == AsTest(e)
    ensures Transform(Not(TransCompare(e, Equal, SYM_NO))) == AsTest(e)
  {
    match e
    case Bin(op, l, r) =>
      TransformedTestOf(l);
      TransformedTestOf(r);
      NegatedLevel(Dual(op), TransCompare(l, Equal, SYM_NO), TransCompare(r, Equal, SYM_NO));
    case _ =>
  }

  /** De Morgan's law for expr_transform. */
  lemma NegatedLevel(op: Op, l: Expr, r: Expr)
    ensures Transform(Not(Bin(op, l, r))) == Bin(Dual(op), Transform(Not(l)), Transform(Not(r)))
  {
    TransformFixesExactlyNormalForms(l);
    TransformFixesExactlyNormalForms(r);
    DeMorganShrinks(op, Transform(l), Transform(r));
    TransformedNegation(l);
    TransformedNegation(r);
  }

  lemma TransformedNegation(x: Expr)
    ensures Transform(Not(Transform(x))) == Transform(Not(x))
  {
    TransformFixesExactlyNormalForms(x);
  }

  /** A condition in normal form of which no two operands of a level can be joined, as a test against n. */
  ghost predicate NothingToJoin(e: Expr) { NormalForm(e) && Settled(AsTest(e)) }

  lemma {:induction false} TestIsClean(e: Expr)
    requires NormalForm(e)
    ensures NoConstOperand(AsTest(e)) && !IsYesOrNo(AsTest(e)) && Nnf(AsTest(e))
  {
    if e.Bin? {
      TestIsClean(e.left);
      TestIsClean(e.right);
    }
  }

  /** The operands of a test are the tests of the operands. */
  lemma {:induction false} OperandsOfTest(op: Op, e: Expr)
    ensures IsLevel(AsTest(e), op) == IsLevel(e, op)
    ensures forall x :: x in Leaves(op, e) ==> AsTest(x) in Leaves(op, AsTest(e))
    ensures forall z :: z in Leaves(op, AsTest(e)) ==> exists x :: x in Leaves(op, e) && z == AsTest(x)
  {
    if IsLevel(e, op) {
      OperandsOfTest(op, e.left);
      OperandsOfTest(op, e.right);
      forall z | z in Leaves(op, AsTest(e)) ensures exists x :: x in Leaves(op, e) && z == AsTest(x) {
        if z in Leaves(op, AsTest(e.left)) {
          var x :| x in Leaves(op, e.left) && z == AsTest(x);
          assert x in Leaves(op, e);
        } else {
          var x :| x in Leaves(op, e.right) && z == AsTest(x);
          assert x in Leaves(op, e);
        }
      }
    }
  }

  /** One of the conditions in `m` differs from n together with `x`. */
  ghost predicate Asked(x: Expr, m: seq<Expr>) {
    exists y :: y in m && Same(AsTest(x), AsTest(y))
  }

  /**
   * The condition `dep` is an And, and every And-operand of the condition `base`, if there is one, is among its
   * operands, in any order and nesting.
   */
  ghost predicate Covers(dep: Expr, base: Option<Expr>) {
    base.Some? ==>
      IsLevel(dep, AndOp) && forall x :: x in Leaves(AndOp, base.value) ==> Asked(x, Leaves(AndOp, dep))
  }

  lemma AskedOccurs(x: Expr, e: Expr)
    ensures Asked(x, Leaves(AndOp, e)) <==> Occurs(AsTest(x), Leaves(AndOp, AsTest(e)))
  {
    hide Same, AsTest, Leaves;
    OperandsOfTest(AndOp, e);
    if Occurs(AsTest(x), Leaves(AndOp, AsTest(e))) {
      var z :| z in Leaves(AndOp, AsTest(e)) && Same(AsTest(x), z);
      var y :| y in Leaves(AndOp, e) && z == AsTest(y);
    }
  }

  lemma CoversIsIncludes(dep: Expr, base: Expr)
    ensures Covers(dep, Some(base)) <==> Includes(AsTest(dep), AsTest(base))
  {
    hide Same, AsTest, Leaves, Asked, Occurs;
    OperandsOfTest(AndOp, dep);
    OperandsOfTest(AndOp, base);
    forall x ensures Asked(x, Leaves(AndOp, dep)) <==> Occurs(AsTest(x), Leaves(AndOp, AsTest(dep))) {
      AskedOccurs(x, dep);
    }
  }

  /** Comparing the simplified tests decides whether the one condition covers the other. */
  lemma SupersetIsCover(dep: Expr, base: Option<Expr>, own: Expr, test: Expr)
    requires NothingToJoin(dep) && (base.Some? ==> NothingToJoin(base.value))
    requires own == AsTest(dep) && test == if base.None? then Sym(SYM_YES) else AsTest(base.value)
    ensures EliminateEq(own, test).1 == Sym(SYM_YES) <==> Covers(dep, base)
  {
    hide EliminateEq, Settled, AsTest, Covers;
    TestIsClean(dep);
    SettledIsTidy(own);
    if base.Some? {
      TestIsClean(base.value);
      SettledIsTidy(test);
      CoversIsIncludes(dep, base.value);
    } else {
      assert Covers(dep, base) by { CoversNothing(dep); }
    }
    SupersetIsInclusion(own, test);
  }

  lemma CoversNothing(dep: Expr)
    ensures Covers(dep, None)
  {
  }

  /** The same conditions ask the same. */
  lemma {:induction false} TestsOfSame(a: Expr, b: Expr)
    requires Same(a, b)
    ensures Same(AsTest(a), AsTest(b))
    decreases Size(a) + Size(b)
  {
    if a.Bin? {
      var op := a.op;
      TestsOfSameLevels(op, a, b);
    }
  }

  lemma TestsOfSameLevels(op: Op, a: Expr, b: Expr)
    requires Same(a, b) && IsLevel(a, op) && IsLevel(b, op)
    ensures Same(AsTest(a), AsTest(b))
    decreases Size(a) + Size(b), 1
  {
    hide Same, AsTest, Occurs, Leaves;
    SameLevels(op, a, b);
    OperandsOfTest(op, a);
    OperandsOfTest(op, b);
    forall z | z in Leaves(op, AsTest(a)) ensures Occurs(z, Leaves(op, AsTest(b))) { TestOccurs(op, a, b, z); }
    forall z | z in Leaves(op, AsTest(b)) ensures Occurs(z, Leaves(op, AsTest(a))) { TestOccurs(op, b, a, z); }
    SameLevels(op, AsTest(a), AsTest(b));
  }

  lemma TestOccurs(op: Op, a: Expr, b: Expr, z: Expr)
    requires IsLevel(a, op) && IsLevel(b, op) && AllOccur(Leaves(op, a), Leaves(op, b))
    requires z in Leaves(op, AsTest(a))
    ensures Occurs(z, Leaves(op, AsTest(b)))
    decreases Size(a) + Size(b), 0
  {
    hide Same, AsTest;
    OperandsOfTest(op, a);
    OperandsOfTest(op, b);
    var x :| x in Leaves(op, a) && z == AsTest(x);
    var y := Found(x, Leaves(op, a), Leaves(op, b));
    TestsOfSame(x, y);
    assert AsTest(y) in Leaves(op, AsTest(b));
  }

  /** A condition that has all And-operands of another one, and more than one itself, covers it. */
  lemma OccurringIsCovered(dep: Expr, base: Expr)
    requires IsLevel(dep, AndOp) && AllOccur(Leaves(AndOp, base), Leaves(AndOp, dep))
    ensures Covers(dep, Some(base))
  {
    hide Same, AsTest, AllOccur;
    forall x | x in Leaves(AndOp, base) ensures Asked(x, Leaves(AndOp, dep)) {
      var y := Found(x, Leaves(AndOp, base), Leaves(AndOp, dep));
      TestsOfSame(x, y);
    }
  }

  lemma LeafOfPair(op: Op, l: Expr, r: Expr, p: Path)
    requires !IsLevel(l, op) && !IsLevel(r, op) && IsLeaf(op, Bin(op, l, r), p)
    ensures p == [false] || p == [true]
    ensures Sub(op, Bin(op, l, r), p) == if p == [false] then l else r
  {
    assert p != [];
    var c := Child(Bin(op, l, r), p[0]);
    assert OnLevel(op, c, p[1..]) && !IsLevel(c, op);
    assert p == [p[0]] + p[1..];
  }

  lemma SettledPairOf(op: Op, l: Expr, r: Expr)
    requires !IsLevel(l, op) && !IsLevel(r, op) && Settled(l) && Settled(r)
    requires Join(op, l, r).None? && Join(op, r, l).None?
    ensures Settled(Bin(op, l, r))
  {
    var t := Bin(op, l, r);
    hide Join, IsLeaf, Sub, Settled;
    forall p, q | IsLeaf(op, t, p) && IsLeaf(op, t, q) && p != q ensures SettledPair(op, t, p, q) {
      LeafOfPair(op, l, r, p);
      LeafOfPair(op, l, r, q);
    }
    SettledMeans(op, t);
  }

  lemma OperandsOfPair(op: Op, l: Expr, r: Expr)
    requires !IsLevel(l, op) && !IsLevel(r, op)
    ensures Leaves(op, Bin(op, l, r)) == [l, r]
  {
  }

  /** (A || Q) && R covers R. */
  lemma OrAndRest(a: Symbol, q: Symbol, r: Symbol)
    requires a != q && a.Kind() == BooleanType && q.Kind() == BooleanType && r.Kind() == BooleanType
    ensures var dep := Bin(AndOp, Bin(OrOp, Sym(a), Sym(q)), Sym(r));
      NothingToJoin(dep) && NothingToJoin(Sym(r)) && Covers(dep, Some(Sym(r)))
  {
    var either, rest := Bin(OrOp, Sym(a), Sym(q)), Sym(r);
    SettledPairOf(OrOp, Sym(a), Sym(q));
    SettledPairOf(AndOp, either, rest);
    OperandsOfPair(AndOp, either, rest);
    OccursItself(rest, [either, rest]);
    OccurringIsCovered(Bin(AndOp, either, rest), rest);
    BooleansAnswerThemselves(rest);
    BooleansAnswerThemselves(Bin(AndOp, either, rest));
  }

  /** A || Q does not cover A || Q: the two operands of Or are struck out, and n is left, not y. */
  lemma OrDoesNotCoverItself(a: Symbol, q: Symbol)
    requires a != q && a.Kind() == BooleanType && q.Kind() == BooleanType
    ensures var e := Bin(OrOp, Sym(a), Sym(q));
      NothingToJoin(e) && AllOccur(Leaves(AndOp, e), Leaves(AndOp, e)) && !Covers(e, Some(e))
  {
    var e := Bin(OrOp, Sym(a), Sym(q));
    SettledPairOf(OrOp, Sym(a), Sym(q));
    forall x | x in Leaves(AndOp, e) ensures Occurs(x, Leaves(AndOp, e)) {
      OccursItself(x, Leaves(AndOp, e));
    }
  }
}
