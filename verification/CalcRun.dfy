/**
 * The recursive calculation with remembered values (sym_calc_value, sym_calc_visibility,
 * sym_calc_choice and sym_choice_default of scripts/config/symbol.c, expr_calc_value of
 * scripts/config/expr.c), for boolean and tristate symbols.
 */
module CalcRun {
  import opened Basics
  import opened Exprs
  import opened Calc
  import opened CalcGroups
  import opened CalcLaws
  import opened CalcOrder
  import opened CalcSets
  import opened CalcSteps
  import Choice

  class Calculator {
    const sys: System
    var cells: Cells
    var valid: set<Symbol>

    function Now(): Snapshot
      reads this
    {
      Snapshot(cells, valid)
    }

    /** Before the first calculation everything is n. */
    constructor (sys: System)
      requires Proper(sys)
      ensures this.sys == sys && Fit(sys, cells) && valid == {}
      ensures forall s :: s in cells ==> cells[s] == NEW
    {
      this.sys := sys;
      cells, valid := map s | s in sys.defs :: NEW, {};
    }

    /** expr_calc_value */
    method CalcExpr(e: Expr, ghost rank: Symbol -> nat, ghost b: nat) returns (t: Tristate)
      requires Fit(sys, cells) && Ordered(sys, rank, valid) && Low(sys, rank, valid, b, Some(e))
      modifies this
      ensures Advanced(sys, rank, b, {}, old(Now()), Now())
      ensures Ready(sys, valid, Some(e)) && t == Eval(e, Val(sys, cells))
      decreases sys.defs.Keys - valid, 1, e
    {
      hide Advanced, Ordered, Fit;
      ghost var k0 := Now();
      match e
      case Sym(s) =>
        CalcValue(s, rank, b);
        t := TriIn(sys, cells, s);
      case Not(x) =>
        var a := CalcExpr(x, rank, b);
        t := TriNot(a);
      case Cmp(rel, l, r) =>
        CalcValue(l, rank, b);
        ghost var k1 := Now();
        AdvancedFit(sys, rank, b, k0, k1);
        OrderedGrows(sys, rank, k0.valid, valid);
        CalcValue(r, rank, b);
        AdvancedFit(sys, rank, b, k1, Now());
        AdvancedTransitive(sys, rank, b, {}, k0, k1, Now());
        t := TriOf(Holds(rel, Compare(l, r, Val(sys, cells))));
      case Bin(op, l, r) =>
        var a := CalcExpr(l, rank, b);
        ghost var k1 := Now();
        AdvancedFit(sys, rank, b, k0, k1);
        OrderedGrows(sys, rank, k0.valid, valid);
        var c := CalcExpr(r, rank, b);
        DepStays(sys, rank, b, k1, Now(), Some(l));
        AdvancedTransitive(sys, rank, b, {}, k0, k1, Now());
        t := Apply(op, a, c);
    }

    /** The same for a condition that may be missing. */
    method CalcDep(e: Option<Expr>, ghost rank: Symbol -> nat, ghost b: nat) returns (t: Tristate)
      requires Fit(sys, cells) && Ordered(sys, rank, valid) && Low(sys, rank, valid, b, e)
      modifies this
      ensures Advanced(sys, rank, b, {}, old(Now()), Now())
      ensures Ready(sys, valid, e) && t == EvalDep(e, Val(sys, cells))
      decreases sys.defs.Keys - valid, 2
    {
      hide Advanced, Ordered, Fit;
      if e.None? {
        AdvancedNothing(sys, rank, b, Now());
        return YES;
      }
      t := CalcExpr(e.value, rank, b);
    }

    /** One round of the loop of sym_calc_visibility over the prompts of `s`. */
    method CalcPrompt(s: Symbol, n: nat, v: Tristate, ghost rank: Symbol -> nat, ghost b: nat) returns (w: Tristate)
      requires s in sys.defs && n < |sys.defs[s].prompts| && PromptsSoFar(sys, Now(), s, n, v)
      requires Fit(sys, cells) && Ordered(sys, rank, valid) && LowPrompts(sys, rank, valid, b, s)
      modifies this
      ensures Advanced(sys, rank, b, {}, old(Now()), Now()) && PromptsSoFar(sys, Now(), s, n + 1, w)
      decreases sys.defs.Keys - valid, 3, 0
    {
      hide Advanced, Ordered, Fit, Low, PromptsSoFar;
      ghost var k0 := Now();
      var t := CalcDep(sys.defs[s].prompts[n], rank, b);
      PromptsSoFarStep(sys, rank, b, k0, Now(), s, n, v);
      if s in sys.choiceOf && s.Kind() == TristateType && t == MOD
        && TriIn(sys, cells, sys.choiceOf[s]) == YES { t := NO; }
      w := TriOr(v, t);
    }

    /** The visibility of `s`, with that loop. */
    method CalcPrompts(s: Symbol, ghost rank: Symbol -> nat, ghost b: nat) returns (v: Tristate)
      requires s in sys.defs && Fit(sys, cells) && Ordered(sys, rank, valid) && LowPrompts(sys, rank, valid, b, s)
      modifies this
      ensures Advanced(sys, rank, b, {}, old(Now()), Now())
      ensures PromptsReady(sys, valid, s) && v == Visible(sys, s, Val(sys, cells))
      decreases sys.defs.Keys - valid, 3
    {
      hide Advanced, Ordered, Fit, LowPrompts, PromptTris, Choice.Highest, PromptsSoFar;
      ghost var k0 := Now();
      v := NO;
      AdvancedNothing(sys, rank, b, k0);
      NoPrompts(sys, k0, s);
      for n := 0 to |sys.defs[s].prompts|
        invariant Advanced(sys, rank, b, {}, k0, Now()) && PromptsSoFar(sys, Now(), s, n, v)
      {
        ghost var k1 := Now();
        AdvancedFit(sys, rank, b, k0, k1);
        OrderedGrows(sys, rank, k0.valid, valid);
        LowPromptsGrow(sys, rank, k0.valid, valid, b, s);
        v := CalcPrompt(s, n, v, rank, b);
        AdvancedTransitive(sys, rank, b, {}, k0, k1, Now());
      }
      AllPrompts(sys, Now(), s, v);
      if v == MOD && (s.Kind() != TristateType || sys.modules == NO) { v := YES; }
    }

    /** sym_get_default_prop, and the value of the default. */
    method CalcDefault(s: Symbol, ghost rank: Symbol -> nat, ghost b: nat) returns (t: Tristate)
      requires s in sys.defs && Fit(sys, cells) && Ordered(sys, rank, valid) && LowDefaults(sys, rank, valid, b, s)
      modifies this
      ensures Advanced(sys, rank, b, {}, old(Now()), Now())
      ensures DefaultsReady(sys, valid, sys.defs[s].defaults, 0, Val(sys, cells))
      ensures t == DefaultTri(sys.defs[s].defaults, 0, Val(sys, cells))
      decreases sys.defs.Keys - valid, 3
    {
      hide Advanced, Ordered, Fit, Low, LowDefaults, DefaultsSoFar, Ready, DefaultsReady, DefaultTri;
      ghost var k0 := Now();
      var d := sys.defs[s].defaults;
      AdvancedNothing(sys, rank, b, k0);
      NoDefaults(sys, k0, s);
      var n := 0;
      while n < |d|
        invariant 0 <= n <= |d| && Advanced(sys, rank, b, {}, k0, Now()) && DefaultsSoFar(sys, Now(), s, n)
      {
        ghost var k1 := Now();
        GrowingDefaults(sys, rank, b, k0, k1, s, n);
        var c := CalcDep(d[n].cond, rank, b);
        ghost var k2 := Now();
        AdvancedTransitive(sys, rank, b, {}, k0, k1, k2);
        if c != NO {
          GrowingDefaults(sys, rank, b, k0, k2, s, n);
          var val := CalcExpr(d[n].value, rank, b);
          DefaultFound(sys, rank, b, k0, k1, k2, Now(), s, n);
          return TriAnd(val, c);
        }
        DefaultSkipped(sys, rank, b, k1, k2, s, n);
        n := n + 1;
      }
      t := NO;
      SkipDefaults(sys, Now(), s, 0, n);
      LastDefault(sys, Now(), s);
    }

    /** sym_calc_visibility for a symbol that is not a member of a choice. */
    method CalcOwn(s: Symbol, ghost rank: Symbol -> nat, ghost b: nat)
      returns (visible: Tristate, dir: Tristate, rev: Tristate, implied: Tristate)
      requires s in sys.defs && s !in sys.choiceOf
      requires Fit(sys, cells) && Ordered(sys, rank, valid) && LowOwn(sys, rank, valid, b, s)
      modifies this
      ensures Advanced(sys, rank, b, {}, old(Now()), Now())
      ensures OwnIs(sys, Now(), s, visible, dir, rev, implied)
      decreases sys.defs.Keys - valid, 4
    {
      hide Advanced, Ordered, Fit, Low, RevTri, PromptsReady, Visible, Ready;
      ghost var k0 := Now();
      var d := sys.defs[s];
      visible := CalcPrompts(s, rank, b);
      ghost var k1 := Now();
      AdvancedFit(sys, rank, b, k0, k1);
      OrderedGrows(sys, rank, k0.valid, valid);
      LowGrows(sys, rank, k0.valid, valid, b, d.dir);
      dir := CalcDep(d.dir, rank, b);
      dir := Choice.Promoted(s.Kind(), sys.modules, dir);
      ghost var k2 := Now();
      AdvancedFit(sys, rank, b, k1, k2);
      OrderedGrows(sys, rank, k1.valid, valid);
      LowGrows(sys, rank, k0.valid, valid, b, d.rev);
      rev := CalcRev(d.rev, rank, b);
      rev := Choice.Promoted(s.Kind(), sys.modules, rev);
      ghost var k3 := Now();
      AdvancedFit(sys, rank, b, k2, k3);
      OrderedGrows(sys, rank, k2.valid, valid);
      LowGrows(sys, rank, k0.valid, valid, b, d.implied);
      implied := NO;
      if dir != NO {
        implied := CalcRev(d.implied, rank, b);
      } else {
        AdvancedNothing(sys, rank, b, k3);
      }
      implied := Choice.Promoted(s.Kind(), sys.modules, implied);
      AdvancedTransitive(sys, rank, b, {}, k2, k3, Now());
      DepStays(sys, rank, b, k3, Now(), d.rev);
      DepStays(sys, rank, b, k2, Now(), d.dir);
      AdvancedTransitive(sys, rank, b, {}, k1, k2, Now());
      VisibleStays(sys, rank, b, k1, Now(), s);
      AdvancedTransitive(sys, rank, b, {}, k0, k1, Now());
    }

    /** A reverse dependency, n if it is missing. */
    method CalcRev(e: Option<Expr>, ghost rank: Symbol -> nat, ghost b: nat) returns (t: Tristate)
      requires Fit(sys, cells) && Ordered(sys, rank, valid) && Low(sys, rank, valid, b, e)
      modifies this
      ensures Advanced(sys, rank, b, {}, old(Now()), Now())
      ensures Ready(sys, valid, e) && t == RevTri(e, Val(sys, cells))
      decreases sys.defs.Keys - valid, 2
    {
      hide Advanced, Ordered, Fit;
      if e.None? {
        AdvancedNothing(sys, rank, b, Now());
        return NO;
      }
      t := CalcExpr(e.value, rank, b);
    }

    /** The user's value of a symbol if it is visible and has one, else its default or what is implied. */
    method CalcBase(s: Symbol, visible: Tristate, implied: Tristate, ghost rank: Symbol -> nat, ghost b: nat)
      returns (own: Tristate)
      requires Fit(sys, cells) && s in sys.defs && Ordered(sys, rank, valid) && LowDefaults(sys, rank, valid, b, s)
      modifies this
      ensures Advanced(sys, rank, b, {}, old(Now()), Now())
      ensures BaseIs(sys, Now(), s, old(cells)[s], visible, implied, own)
      decreases sys.defs.Keys - valid, 4
    {
      hide Advanced, Ordered, Fit, DefaultsReady, LowDefaults;
      FitFacts(sys, cells);
      if visible != NO && cells[s].user {
        AdvancedNothing(sys, rank, b, Now());
        return TriAnd(cells[s].defTri, visible);
      }
      own := CalcDefault(s, rank, b);
      own := TriOr(own, implied);
    }

    /**
     * sym_calc_visibility for a symbol, marked as valid, that is not a member of a choice; `ko` is the state
     * before it stores.
     */
    method CalcVisibility(s: Symbol, ghost rank: Symbol -> nat, ghost b: nat) returns (ghost ko: Snapshot)
      requires Fit(sys, cells) && s in sys.defs && s !in sys.choiceOf && s in valid
      requires Ordered(sys, rank, valid) && LowOwn(sys, rank, valid, b, s)
      modifies this
      ensures s in old(cells) && s in cells && s in ko.cells
      ensures Advanced(sys, rank, b, {}, old(Now()), ko) && ko.cells[s] == old(cells)[s]
      ensures var c := cells[s];
              && OwnIs(sys, ko, s, c.visible, c.dir, c.rev, c.implied)
              && c == old(cells)[s].(visible := c.visible, dir := c.dir, rev := c.rev, implied := c.implied)
      ensures Now() == Snapshot(ko.cells[s := cells[s]], ko.valid) && Fit(sys, cells) && Fit(sys, ko.cells)
      decreases sys.defs.Keys - valid, 5
    {
      hide Advanced, Ordered, Fit, LowOwn, Reads, OwnIs, Proper;
      ghost var k0 := Now();
      FitFacts(sys, cells);
      var visible, dir, rev, implied := CalcOwn(s, rank, b);
      ko := Now();
      AdvancedSelf(sys, rank, b, {}, k0, ko, s);
      cells := cells[s := cells[s].(visible := visible, dir := dir, rev := rev, implied := implied)];
      FitWrite(sys, ko.cells, s, cells[s]);
    }

    /** sym_calc_value for a symbol, just marked as valid, that is neither a choice nor a member. */
    method CalcOrdinary(s: Symbol, ghost rank: Symbol -> nat, ghost b: nat) returns (ghost k1: Snapshot)
      requires Fit(sys, cells) && s in sys.defs && s !in sys.groups && s !in sys.choiceOf
      requires s in valid && Ordered(sys, rank, valid) && Unread(sys, rank, b, valid, s) && !Reads(sys, s, s)
      requires LowOwn(sys, rank, valid, b, s) && LowDefaults(sys, rank, valid, b, s)
      modifies this
      ensures Advanced(sys, rank, b, {}, old(Now()), k1) && Fit(sys, cells) && s in cells
      ensures Now() == Snapshot(k1.cells[s := cells[s]], k1.valid) && RightAt(sys, old(cells), Now(), s)
      decreases sys.defs.Keys - valid, 6
    {
      hide Advanced, Ordered, Fit, LowOwn, LowDefaults, Reads, Unread, OwnIs, BaseIs, Proper, RightAt;
      ghost var k0 := Now();
      ghost var ko := CalcVisibility(s, rank, b);
      ghost var visited := cells[s];
      cells := cells[s := cells[s].(tri := NO)];
      ghost var kw := Now();
      FitWrite(sys, ko.cells, s, cells[s]);
      WriteTwice(ko.cells, s, visited, cells[s]);
      Growing(sys, rank, b, k0, ko, s);
      var own := CalcBase(s, cells[s].visible, cells[s].implied, rank, b);
      ghost var ke := Now();
      k1 := Snapshot(ke.cells[s := ko.cells[s]], ke.valid);
      AfterWrite(sys, rank, b, {}, k0, ko, kw, ke, s);
      var c := cells[s];
      OrdinaryRight(sys, k0.cells, ko, ke, s, c.visible, c.dir, c.rev, c.implied, own);
      var tri := if c.dir == NO && c.rev != NO then NO else TriOr(own, c.rev);
      if tri == MOD && (Choice.ChoiceType(s.Kind(), sys.modules) == BooleanType || c.implied == YES) { tri := YES; }
      cells := cells[s := c.(tri := tri)];
      WriteTwice(ke.cells, s, ko.cells[s], cells[s]);
    }

    /** sym_calc_visibility for a member of a choice; `ko` is the state before it stores. */
    method CalcMemberVisibility(s: Symbol, ghost rank: Symbol -> nat, ghost b: nat) returns (ghost ko: Snapshot)
      requires Fit(sys, cells) && s in sys.choiceOf && s in sys.defs
      requires Ordered(sys, rank, valid) && LowPrompts(sys, rank, valid, b, s)
      modifies this
      ensures Advanced(sys, rank, b, {}, old(Now()), ko) && PromptsReady(sys, ko.valid, s)
      ensures Fit(sys, ko.cells) && s in ko.cells && Fit(sys, cells)
      ensures Now() == Snapshot(ko.cells[s := ko.cells[s].(visible := Visible(sys, s, Val(sys, ko.cells)))], ko.valid)
      decreases sys.defs.Keys - valid, 4
    {
      hide Advanced, Ordered, Fit, LowPrompts, Visible, PromptsReady;
      ghost var k0 := Now();
      var visible := CalcPrompts(s, rank, b);
      ko := Now();
      AdvancedFit(sys, rank, b, k0, ko);
      FitFacts(sys, cells);
      if sys.defs[s].prompts == [] { VisibleUnseen(sys, s, Val(sys, cells)); }
      cells := cells[s := cells[s].(visible := visible)];
      FitWrite(sys, ko.cells, s, cells[s]);
    }

    /** sym_calc_value for a member of a choice, just marked as valid. */
    method CalcMember(s: Symbol, ghost rank: Symbol -> nat, ghost b: nat) returns (ghost k1: Snapshot)
      requires Fit(sys, cells) && s in sys.choiceOf && s in sys.defs
      requires s in valid && Ordered(sys, rank, valid) && Unread(sys, rank, b, valid, s) && !Reads(sys, s, s)
      requires LowPrompts(sys, rank, valid, b, s) && LowDefaults(sys, rank, valid, b, s)
      modifies this
      ensures Advanced(sys, rank, b, {}, old(Now()), k1) && Fit(sys, cells) && s in cells
      ensures Now() == Snapshot(k1.cells[s := cells[s]], k1.valid) && RightAt(sys, old(cells), Now(), s)
      decreases sys.defs.Keys - valid, 6
    {
      hide Advanced, Ordered, Fit, LowPrompts, LowDefaults, Reads, Unread, Proper, RightAt, Visible, PromptsReady,
           MemberIs;
      ghost var k0 := Now();
      ghost var ko := CalcMemberVisibility(s, rank, b);
      AdvancedMember(sys, rank, b, k0, ko, s);
      Growing(sys, rank, b, k0, ko, s);
      cells := cells[s := cells[s].(tri := NO)];
      ghost var kw := Now();
      UnseenWrite(sys, ko, s, cells);
      var tri := CalcMemberTri(s, cells[s].visible, rank, b);
      ghost var ke := Now();
      k1 := Snapshot(ke.cells[s := ko.cells[s]], ke.valid);
      AfterWrite(sys, rank, b, {}, k0, ko, kw, ke, s);
      SameVisible(sys, ko, kw, ke, s);
      MemberRight(sys, k0.cells, ko, ke, s, cells[s].visible, tri);
      cells := cells[s := cells[s].(tri := tri)];
      WriteTwice(ke.cells, s, ko.cells[s], cells[s]);
    }

    /** The value of a member of the visibility `visible`. */
    method CalcMemberTri(s: Symbol, visible: Tristate, ghost rank: Symbol -> nat, ghost b: nat) returns (tri: Tristate)
      requires Fit(sys, cells) && s in sys.choiceOf && s in sys.defs && s in cells
      requires Ordered(sys, rank, valid) && LowDefaults(sys, rank, valid, b, s)
      modifies this
      ensures Advanced(sys, rank, b, {}, old(Now()), Now())
      ensures Fit(sys, cells) && MemberIs(sys, Now(), s, old(cells)[s], visible, tri)
      decreases sys.defs.Keys - valid, 5
    {
      hide Advanced, Ordered, Fit, LowDefaults, Proper, DefaultsReady, DefaultTri;
      ghost var k0 := Now();
      FitFacts(sys, cells);
      ProperMember(sys, s);
      AdvancedNothing(sys, rank, b, k0);
      tri := NO;
      if visible == YES {
        if Chosen(sys, cells, s) { tri := YES; }
      } else if visible != NO && cells[s].user {
        tri := TriAnd(cells[s].defTri, visible);
      } else {
        tri := CalcDefault(s, rank, b);
        AdvancedFit(sys, rank, b, k0, Now());
        FitFacts(sys, cells);
      }
      if tri == MOD && (s.Kind() == BooleanType || visible == YES || sys.modules == NO) { tri := YES; }
    }

    /** One round of the first loop of sym_calc_choice: `all` tells whether the user set all visible members so far. */
    method LookAtMember(c: Symbol, i: nat, all: bool, ghost k0: Snapshot, ghost rank: Symbol -> nat, ghost b: nat)
      returns (all': bool)
      requires c in sys.groups && c in sys.defs && c in k0.valid && i < |sys.groups[c]|
      requires Advanced(sys, rank, b, {c}, k0, Now()) && MembersSeen(sys, Now(), c, i)
      requires Ordered(sys, rank, k0.valid) && LowSelection(sys, rank, k0.valid, b, c)
      requires all == AllSet(sys, Now(), k0.cells, c, i)
      modifies this
      ensures Advanced(sys, rank, b, {c}, k0, Now()) && MembersSeen(sys, Now(), c, i + 1)
      ensures all' == AllSet(sys, Now(), k0.cells, c, i + 1)
      decreases sys.defs.Keys - valid, 5
    {
      hide Advanced, Ordered, Fit, LowPrompts, Visible, PromptsReady, Proper, MembersSeen, AllSet, LowSelection;
      ghost var ka := Now();
      var m := sys.groups[c][i];
      AdvancedOpenFit(sys, rank, b, {c}, k0, ka);
      GroupMember(sys, c, i);
      GrowingPrompts(sys, rank, b, k0.valid, valid, c, i);
      ghost var ko := CalcMemberVisibility(m, rank, b);
      MemberLooked(sys, rank, b, k0, ka, ko, c, i);
      AllSetStep(sys, Now(), k0.cells, c, i);
      all' := all && (cells[m].visible != NO ==> cells[m].user);
    }

    /**
     * The first loop of sym_calc_choice: the visibility of the members of `c`, and whether the user set all
     * visible ones.
     */
    method CalcMembers(c: Symbol, ghost rank: Symbol -> nat, ghost b: nat) returns (all: bool)
      requires Fit(sys, cells) && c in sys.groups && c in sys.defs && c in valid && Ordered(sys, rank, valid)
      requires LowSelection(sys, rank, valid, b, c)
      modifies this
      ensures Advanced(sys, rank, b, {c}, old(Now()), Now()) && Fit(sys, cells)
      ensures c in cells && c in old(cells) && cells[c] == old(cells)[c]
      ensures MembersSeen(sys, Now(), c, |sys.groups[c]|)
      ensures all == AllSet(sys, Now(), old(cells), c, |sys.groups[c]|)
      decreases sys.defs.Keys - valid, 6
    {
      hide Advanced, Ordered, Fit, LowSelection, Proper, MembersSeen, AllSet;
      ghost var k0 := Now();
      all := true;
      AdvancedNothing(sys, rank, b, k0);
      OpenMore(sys, rank, b, c, k0, k0);
      NoneSeen(sys, k0, c);
      for i := 0 to |sys.groups[c]|
        invariant Advanced(sys, rank, b, {c}, k0, Now()) && k0.valid <= valid && Fit(sys, cells)
        invariant MembersSeen(sys, Now(), c, i) && all == AllSet(sys, Now(), k0.cells, c, i)
      {
        all := LookAtMember(c, i, all, k0, rank, b);
        AdvancedOpenFit(sys, rank, b, {c}, k0, Now());
      }
      AdvancedSelf(sys, rank, b, {c}, k0, Now(), c);
      FitFacts(sys, cells);
      ChoiceIsNoMember(sys, c);
    }

    /** One round of the first loop of sym_choice_default: whether the default `k` names a symbol to select. */
    method LookAtDefault(c: Symbol, k: nat, ghost looked: seq<Tristate>, ghost rank: Symbol -> nat, ghost b: nat)
      returns (hit: bool, ghost looked': seq<Tristate>)
      requires Fit(sys, cells) && c in sys.groups && c in valid && c in sys.defs && k < |sys.defs[c].defaults|
               && |looked| == k
      requires Ordered(sys, rank, valid) && LowSelection(sys, rank, valid, b, c)
      requires MembersSeen(sys, Now(), c, |sys.groups[c]|) && CondsSoFar(sys, Now(), c, looked, k)
      modifies this
      ensures Advanced(sys, rank, b, {}, old(Now()), Now()) && Fit(sys, cells)
      ensures MembersSeen(sys, Now(), c, |sys.groups[c]|) && |looked'| == k + 1
      ensures if hit then FoundAt(sys, Now(), c, looked', k) else CondsSoFar(sys, Now(), c, looked', k + 1)
      decreases sys.defs.Keys - valid, 5
    {
      hide Advanced, Ordered, Fit, Proper, MembersSeen, LowSelection, CondsSoFar, FoundAt, Ready;
      ghost var k0 := Now();
      FitFacts(sys, cells);
      GrowingCond(sys, rank, b, valid, valid, c, k);
      var t := CalcDep(sys.defs[c].defaults[k].cond, rank, b);
      AdvancedFit(sys, rank, b, k0, Now());
      CondsSoFarStay(sys, rank, b, k0, Now(), c, looked, k);
      MembersStaySeen(sys, rank, b, k0, Now(), c, |sys.groups[c]|);
      var seen := VisibleIn(sys, cells, Target(sys, c, k));
      CondLooked(sys, Now(), c, looked, k, t);
      hit, looked' := t != NO && seen != NO, looked + [seen];
    }

    /** The first loop of sym_choice_default: the first default whose condition and symbol are visible. */
    method FirstDefault(c: Symbol, ghost rank: Symbol -> nat, ghost b: nat)
      returns (r: Option<nat>, ghost looked: seq<Tristate>)
      requires Fit(sys, cells) && c in sys.groups && c in valid && c in sys.defs
      requires Ordered(sys, rank, valid) && LowSelection(sys, rank, valid, b, c)
      requires MembersSeen(sys, Now(), c, |sys.groups[c]|)
      modifies this
      ensures Advanced(sys, rank, b, {}, old(Now()), Now()) && Fit(sys, cells)
              && MembersSeen(sys, Now(), c, |sys.groups[c]|)
      ensures r.None? ==> |looked| == |sys.defs[c].defaults| && CondsSoFar(sys, Now(), c, looked, |looked|)
      ensures r.Some? ==>
        && 0 < |looked| <= |sys.defs[c].defaults| && FoundAt(sys, Now(), c, looked, |looked| - 1)
        && r.value == Number(sys, c, |looked| - 1)
      decreases sys.defs.Keys - valid, 6
    {
      hide Advanced, Ordered, Fit, Proper, MembersSeen, LowSelection, CondsSoFar, FoundAt;
      ghost var k0 := Now();
      looked := [];
      AdvancedNothing(sys, rank, b, k0);
      FitFacts(sys, cells);
      NoConds(sys, k0, c);
      var k := 0;
      while k < |sys.defs[c].defaults|
        invariant 0 <= k <= |sys.defs[c].defaults| && |looked| == k
        invariant Advanced(sys, rank, b, {}, k0, Now()) && Fit(sys, cells) && k0.valid <= valid
        invariant MembersSeen(sys, Now(), c, |sys.groups[c]|) && CondsSoFar(sys, Now(), c, looked, k)
      {
        ghost var k1 := Now();
        GrowingSelection(sys, rank, b, k0.valid, valid, c);
        var hit;
        hit, looked := LookAtDefault(c, k, looked, rank, b);
        AdvancedTransitive(sys, rank, b, {}, k0, k1, Now());
        AdvancedFit(sys, rank, b, k1, Now());
        if hit { return Some(Number(sys, c, k)), looked; }
        k := k + 1;
      }
      r := None;
    }

    /** The second loop of sym_choice_default: the first visible member. */
    method FirstVisible(c: Symbol, ghost u: Cells, ghost shown: nat -> Tristate) returns (r: Option<nat>)
      requires Fit(sys, cells) && Fit(sys, u) && c in sys.groups && c in cells && cells[c].tri == YES
      requires MembersSeen(sys, Now(), c, |sys.groups[c]|)
      ensures r == Choice.FirstVisible(SeenMembers(sys, c, u, Val(sys, cells), shown), 0)
    {
      hide Fit, Proper, MembersSeen, SeenMembers, Visible;
      ghost var seen := SeenMembers(sys, c, u, Val(sys, cells), shown);
      FitFacts(sys, cells);
      SeenSize(sys, c, u, Val(sys, cells), shown);
      var i := 0;
      while i < |sys.groups[c]|
        invariant 0 <= i <= |seen| && Choice.FirstVisible(seen, 0) == Choice.FirstVisible(seen, i)
      {
        GroupMember(sys, c, i);
        ShownAsSeen(sys, Now(), c, u, shown, i);
        if cells[sys.groups[c][i]].visible != NO { return Some(i); }
        i := i + 1;
      }
      r := None;
    }

    /** sym_choice_default; `shown` is what was seen of targets that are not members. */
    method ChoiceDefault(c: Symbol, ghost u: Cells, ghost rank: Symbol -> nat, ghost b: nat)
      returns (r: Option<nat>, ghost shown: nat -> Tristate)
      requires Fit(sys, cells) && Fit(sys, u) && c in sys.groups && c in valid && c in sys.defs && c in cells
               && cells[c].tri == YES
      requires Ordered(sys, rank, valid) && LowSelection(sys, rank, valid, b, c)
      requires MembersSeen(sys, Now(), c, |sys.groups[c]|)
      modifies this
      ensures Advanced(sys, rank, b, {}, old(Now()), Now()) && Fit(sys, cells)
      ensures MembersSeen(sys, Now(), c, |sys.groups[c]|)
      ensures var v := Val(sys, cells);
              var seen, env := SeenMembers(sys, c, u, v, shown), InputsOf(sys, c, v, shown, {});
              CondsReady(sys, valid, c, seen, env, 0) && r == Choice.ChoiceDefault(seen, env)
      decreases sys.defs.Keys - valid, 7
    {
      hide Advanced, Ordered, Fit, Proper, MembersSeen, LowSelection, CondsSoFar, FoundAt, SeenMembers, InputsOf,
           CondsReady;
      hide Choice.FirstVisible, Choice.ChoiceDefault;
      ghost var k0 := Now();
      ghost var looked;
      r, looked := FirstDefault(c, rank, b);
      FitFacts(sys, k0.cells);
      ChoiceIsNoMember(sys, c);
      AdvancedSelf(sys, rank, b, {}, k0, Now(), c);
      shown := (j: nat) => LookedAt(looked, j);
      if r.None? {
        NoCondFound(sys, Now(), c, u, shown, looked);
        r := FirstVisible(c, u, shown);
      } else {
        FoundIs(sys, Now(), c, u, shown, looked);
      }
    }

    /** The symbol that the choice `c`, at y, selects: the one set by the user if it is visible, else the default. */
    method Select(c: Symbol, ghost u: Cells, ghost rank: Symbol -> nat, ghost b: nat)
      returns (sel: Option<nat>, ghost shown: nat -> Tristate)
      requires Fit(sys, cells) && Fit(sys, u) && c in sys.groups && c in valid && c in sys.defs && c in cells
               && cells[c].tri == YES
      requires Ordered(sys, rank, valid) && LowSelection(sys, rank, valid, b, c) && cells[c].defSel == u[c].defSel
      requires MembersSeen(sys, Now(), c, |sys.groups[c]|)
      modifies this
      ensures Advanced(sys, rank, b, {}, old(Now()), Now()) && Fit(sys, cells)
      ensures MembersSeen(sys, Now(), c, |sys.groups[c]|)
      ensures var v := Val(sys, cells);
              && SelectionReady(sys, valid, c, u, v, shown)
              && sel == Choice.Selected(u[c].defSel, SeenMembers(sys, c, u, v, shown), InputsOf(sys, c, v, shown, {}))
      decreases sys.defs.Keys - valid, 8
    {
      hide Advanced, Ordered, MembersSeen, LowSelection, SeenMembers, InputsOf, CondsReady, Choice.ChoiceDefault,
           SelectionReady;
      hide Choice.Selected, Proper, Fit;
      ghost var k0 := Now();
      FitFacts(sys, cells);
      var user := cells[c].defSel;
      UserIsMember(sys, cells, c);
      AdvancedNothing(sys, rank, b, k0);
      if user.Some? && cells[sys.groups[c][user.value]].visible != NO {
        shown := (j: nat) => NO;
        ShownAsSeen(sys, k0, c, u, shown, user.value);
        FitGroup(sys, u, c);
        SelectedUser(user.value, SeenMembers(sys, c, u, Val(sys, cells), shown),
                     InputsOf(sys, c, Val(sys, cells), shown, {}));
        UserReady(sys, k0, c, u, shown, user.value);
        return user, shown;
      }
      sel, shown := ChoiceDefault(c, u, rank, b);
      AdvancedFit(sys, rank, b, k0, Now());
      AdvancedSelf(sys, rank, b, {}, k0, Now(), c);
      MembersStaySeen(sys, rank, b, k0, Now(), c, |sys.groups[c]|);
      if user.Some? { StillUnseen(sys, k0, Now(), c, user.value); }
      ChoiceIsNoMember(sys, c);
      DefaultSelected(sys, Now(), c, u, shown);
    }

    /** sym_calc_choice; `k2` is the state before it stores. */
    method CalcSelection(c: Symbol, ghost u: Cells, ghost rank: Symbol -> nat, ghost b: nat)
      returns (sel: Option<nat>, ghost k2: Snapshot, ghost shown: nat -> Tristate)
      requires Fit(sys, cells) && Fit(sys, u) && c in sys.groups && c in valid && c in sys.defs && c in cells
               && cells[c].tri == YES
      requires Ordered(sys, rank, valid) && LowSelection(sys, rank, valid, b, c) && SameUsers(sys, c, u, cells)
      modifies this
      ensures c in k2.cells && c in old(cells) && c in cells
      ensures Advanced(sys, rank, b, {c}, old(Now()), k2) && k2.cells[c] == old(cells)[c] && Fit(sys, k2.cells)
      ensures MembersSeen(sys, k2, c, |sys.groups[c]|) && SelectionReady(sys, k2.valid, c, u, Val(sys, k2.cells), shown)
      ensures Fit(sys, cells) && Now() == Snapshot(k2.cells[c := cells[c]], k2.valid)
      ensures var seen := SeenMembers(sys, c, u, Val(sys, k2.cells), shown);
              && sel == Choice.Selected(u[c].defSel, seen, InputsOf(sys, c, Val(sys, k2.cells), shown, {}))
              && cells[c] == old(cells)[c].(user := old(cells)[c].user && Choice.AllUser(seen), tri := if sel.None?
                                            then NO else YES)
      decreases sys.defs.Keys - valid, 9
    {
      hide Advanced, Ordered, MembersSeen, LowSelection, SeenMembers, InputsOf, SelectionReady, AllSet, Choice.AllUser;
      hide Choice.Selected, Proper, Fit;
      ghost var k0 := Now();
      var all := CalcMembers(c, rank, b);
      ghost var k1 := Now();
      AdvancedOpenFit(sys, rank, b, {c}, k0, k1);
      GrowingSelection(sys, rank, b, k0.valid, valid, c);
      sel, shown := Select(c, u, rank, b);
      k2 := Now();
      AdvancedTransitive(sys, rank, b, {c}, k0, k1, k2);
      AdvancedSelf(sys, rank, b, {}, k1, k2, c);
      ChoiceIsNoMember(sys, c);
      AllSetStays(sys, rank, b, k0, k1, k2, c, u, shown);
      cells := cells[c := cells[c].(user := cells[c].user && all)];
      if sel.None? { cells := cells[c := cells[c].(tri := NO)]; }
      FitWrite(sys, k2.cells, c, cells[c]);
      assert cells == k2.cells[c := cells[c]];
    }

    /** The value of a choice before it looks at its members. */
    method CalcChoiceTri(c: Symbol, ghost rank: Symbol -> nat, ghost b: nat) returns (ghost k1: Snapshot)
      requires Fit(sys, cells) && c in sys.groups && c in valid && c in sys.defs && c !in sys.choiceOf
      requires Ordered(sys, rank, valid) && LowOwn(sys, rank, valid, b, c)
      modifies this
      ensures Fit(sys, cells) && c in cells && ChoiceBegun(sys, rank, b, c, old(Now()), k1, Now())
      decreases sys.defs.Keys - valid, 9
    {
      hide Advanced, Ordered, Fit, LowOwn, OwnIs, Proper, Combined, ChoiceBegun, BegunCell;
      FitFacts(sys, cells);
      ghost var k0 := Now();
      k1 := CalcVisibility(c, rank, b);
      ghost var visited := cells[c];
      cells := cells[c := cells[c].(tri := NO, sel := None)];
      var w := cells[c];
      WriteTwice(k1.cells, c, visited, w);
      var own := if w.visible != NO && w.user then TriAnd(w.defTri, w.visible) else NO;
      var tri := if w.dir == NO && w.rev != NO then NO else TriOr(own, w.rev);
      if tri == MOD && (Choice.ChoiceType(c.Kind(), sys.modules) == BooleanType || w.implied == YES) { tri := YES; }
      cells := cells[c := w.(tri := tri)];
      WriteTwice(k1.cells, c, w, cells[c]);
      FitWrite(sys, k1.cells, c, cells[c]);
      CombinedIs(sys, c, w.dir, w.rev, w.implied, own);
      ChoiceHasBegun(sys, rank, b, c, k0, k1, Now());
    }

    /**
     * sym_calc_value for a choice, just marked as valid. Before it looks at its members it is
     * in the state `kp`; when it has made its selection, in `k2`.
     */
    method CalcChoice(c: Symbol, ghost rank: Symbol -> nat, ghost b0: nat, ghost b: nat)
      returns (ghost k1: Snapshot, ghost kp: Snapshot, ghost k2: Snapshot, ghost shown: nat -> Tristate)
      requires Fit(sys, cells) && c in sys.groups && c in valid && c in sys.defs && c !in sys.choiceOf
      requires Ordered(sys, rank, valid) && LowOwn(sys, rank, valid, b0, c) && LowSelection(sys, rank, valid, b, c)
      modifies this
      ensures Fit(sys, cells) && c in kp.cells && ChoiceBegun(sys, rank, b0, c, old(Now()), k1, kp)
      ensures if kp.cells[c].tri != YES then k2 == kp && Now() == kp
              else Selecting(sys, rank, b, c, old(cells), kp, k2, Now(), shown)
      decreases sys.defs.Keys - valid, 10
    {
      hide Advanced, Ordered, Fit, LowOwn, LowSelection, OwnIs, Proper, SelectionReady, SeenMembers, InputsOf,
           MembersSeen;
      hide Choice.Selected, Choice.AllUser;
      ghost var k0 := Now();
      k1 := CalcChoiceTri(c, rank, b0);
      kp := Now();
      k2 := kp;
      shown := (j: nat) => NO;
      if cells[c].tri == YES {
        GrowingChoice(sys, rank, b0, b, k0, k1, c, cells);
        var sel;
        sel, k2, shown := CalcSelection(c, k0.cells, rank, b);
        cells := cells[c := cells[c].(sel := sel)];
        FitWrite(sys, k2.cells, c, cells[c]);
        assert cells == k2.cells[c := cells[c]];
      }
    }

    /** sym_calc_value */
    method CalcValue(s: Symbol, ghost rank: Symbol -> nat, ghost b: nat)
      requires Fit(sys, cells) && Ordered(sys, rank, valid)
      requires s in sys.defs && s !in valid ==> rank(s) < b
      modifies this
      ensures Advanced(sys, rank, b, {}, old(Now()), Now())
      ensures s in sys.defs ==> s in valid
      decreases sys.defs.Keys - valid, 0
    {
      hide Advanced, Ordered, Fit, LowOwn, LowSelection, LowDefaults, LowPrompts, Reads, OwnReads, Unread, Proper,
           RightAt, Selecting;
      hide ChoiceBegun;
      ghost var k0 := Now();
      FitFacts(sys, cells);
      AdvancedNothing(sys, rank, b, k0);
      if s !in sys.defs || s in valid { return; }
      valid := valid + {s};
      LowerReads(sys, rank, k0.valid, s);
      if s in sys.groups {
        ChoiceIsNoMember(sys, s);
        ghost var k1, kp, k2, shown := CalcChoice(s, rank, rank(s), rank(s));
        ChoiceFinished(sys, rank, b, s, k0, k1, kp, k2, Now(), shown);
      } else if s in sys.choiceOf {
        ghost var k1 := CalcMember(s, rank, rank(s));
        OpenMore(sys, rank, rank(s), s, Snapshot(k0.cells, k0.valid + {s}), k1);
        Finished(sys, rank, b, k0, k1, cells[s], s);
      } else {
        ghost var k1 := CalcOrdinary(s, rank, rank(s));
        OpenMore(sys, rank, rank(s), s, Snapshot(k0.cells, k0.valid + {s}), k1);
        Finished(sys, rank, b, k0, k1, cells[s], s);
      }
    }

    /** Calculates the symbols of the list one after the other. */
    method CalcAll(list: seq<Symbol>, ghost rank: Symbol -> nat, ghost b: nat)
      requires Fit(sys, cells) && Ordered(sys, rank, valid)
      requires forall i :: 0 <= i < |list| ==> list[i] in sys.defs && rank(list[i]) < b
      modifies this
      ensures Advanced(sys, rank, b, {}, old(Now()), Now()) && Fit(sys, cells)
      ensures forall i :: 0 <= i < |list| ==> list[i] in valid
    {
      hide Advanced, Ordered, Fit;
      ghost var k0 := Now();
      AdvancedNothing(sys, rank, b, k0);
      for i := 0 to |list|
        invariant Advanced(sys, rank, b, {}, k0, Now()) && Fit(sys, cells)
        invariant forall j :: 0 <= j < i ==> list[j] in valid
      {
        ghost var k := Now();
        AdvancedFit(sys, rank, b, k0, k);
        OrderedGrows(sys, rank, k0.valid, valid);
        CalcValue(list[i], rank, b);
        AdvancedTransitive(sys, rank, b, {}, k0, k, Now());
        AdvancedFit(sys, rank, b, k, Now());
      }
    }

    /**
     * Calculates all symbols, in any order: each has the value that its definition gives it, and
     * every radio group has its law, no symbol depending on itself.
     */
    method CalcEverything(list: seq<Symbol>, ghost rank: Symbol -> nat)
      requires Fit(sys, cells) && valid == {} && Ordered(sys, rank, {})
      requires forall s :: s in sys.defs <==> s in list
      modifies this
      ensures AllRight(sys, old(cells), Now())
      ensures forall s :: s in sys.defs ==> Lawful(sys, old(cells), cells, s)
      ensures forall c :: c in sys.groups ==> GroupIsRadio(sys, cells, c)
    {
      hide Advanced, Ordered, Fit, RightAt, GroupIsRadio, Lawful;
      ghost var u := cells;
      ghost var b := RanksBounded(rank, sys.defs.Keys);
      assert forall i :: 0 <= i < |list| ==> list[i] in list;
      CalcAll(list, rank, b);
      AdvancedIsRight(sys, rank, b, u, Now());
      FitFacts(sys, u);
      FitFacts(sys, cells);
      forall s | s in sys.defs ensures Lawful(sys, u, cells, s) { RightIsLawful(sys, u, Now(), s); }
      forall c | c in sys.groups ensures GroupIsRadio(sys, cells, c) { GroupsAreRadio(sys, u, Now(), c); }
    }

    /** Calculates the choice `c` and then its members; symbols of ranks below `top` only. */
    method CalcInTurn(c: Symbol, ghost rank: Symbol -> nat, ghost low: nat, ghost b: nat, ghost top: nat)
      returns (ghost early: set<nat>, ghost shown: nat -> Tristate)
      requires Fit(sys, cells) && c in sys.groups && c in sys.defs && c !in valid && !OwnReads(sys, c, c)
      requires forall i :: 0 <= i < |sys.groups[c]| ==>
                 sys.groups[c][i] !in valid && low <= rank(sys.groups[c][i]) < top
      requires Ordered(sys, rank, valid + {c}) && LowOwn(sys, rank, valid + {c}, low, c)
               && LowSelection(sys, rank, valid + {c}, b, c)
      modifies this
      ensures Fit(sys, cells) && AsCalculated(sys, c, old(cells), cells, shown, early)
      ensures forall i :: i in early ==> i < |sys.groups[c]| && rank(sys.groups[c][i]) < b
      ensures ChoiceValue(sys, c, old(cells), Val(sys, cells), shown) == YES ==>
                forall i: nat :: i < |sys.groups[c]| && Mentioned(sys, c, old(cells), i) ==> i in early
    {
      hide Advanced, Ordered, Fit, LowOwn, LowSelection, Selecting, ChoiceBegun, OwnReads, Proper, Mentioned, GroupRun;
      hide AsCalculated, AskedFor, ChoiceValue;
      ghost var k0 := Now();
      FitFacts(sys, cells);
      ChoiceIsNoMember(sys, c);
      valid := valid + {c};
      ghost var k1, kp, k2, seen := CalcChoice(c, rank, low, b);
      ghost var k3 := Now();
      ChoiceGrows(sys, rank, low, b, c, k0.cells, Snapshot(k0.cells, k0.valid + {c}), k1, kp, k2, k3, seen);
      OrderedGrows(sys, rank, k0.valid + {c}, k3.valid);
      FitMembers(sys, c);
      CalcAll(sys.groups[c], rank, top);
      early, shown := AskedFor(sys, c, k2.valid), seen;
      RunIs(sys, rank, low, b, top, c, k0, k1, kp, k2, k3, Now(), shown);
      GroupRunCalculated(sys, rank, low, b, top, c, k0, k1, kp, k2, k3, Now(), shown);
    }

    /**
     * Calculates the choice `c`, nothing of its group being calculated, and then its members: the
     * group is as its calculation gives it, and the law holds exactly if the selected symbol was not
     * asked for before the selection. Only members in `all` can be; those mentioned are.
     */
    method CalcGroup(c: Symbol, ghost rank: Symbol -> nat, ghost own: set<Symbol>, ghost all: set<Symbol>)
      returns (ghost early: set<nat>, ghost shown: nat -> Tristate)
      requires Fit(sys, cells) && c in sys.groups && c in sys.defs && c !in valid && !OwnReads(sys, c, c)
      requires forall i :: 0 <= i < |sys.groups[c]| ==> sys.groups[c][i] !in valid
      requires Ordered(sys, rank, valid + {c}) && AsksFor(sys, c, own, all)
      modifies this
      ensures Fit(sys, cells) && AsCalculated(sys, c, old(cells), cells, shown, early)
      ensures forall i :: i in early ==> i < |sys.groups[c]| && sys.groups[c][i] in all
      ensures (forall i :: 0 <= i < |sys.groups[c]| ==> sys.groups[c][i] !in all) ==> GroupIsRadio(sys, cells, c)
      ensures ChoiceValue(sys, c, old(cells), Val(sys, cells), shown) == YES ==>
                forall i: nat :: i < |sys.groups[c]| && Mentioned(sys, c, old(cells), i) ==> i in early
    {
      hide Fit, Ordered, AsksFor, OwnReads, LowOwn, LowSelection, AsCalculated, Mentioned, Proper, Layered;
      FitFacts(sys, cells);
      ghost var b := RanksBounded(rank, sys.defs.Keys);
      ghost var after := Layered(rank, b, own, all);
      LayersOrdered(sys, rank, b, c, own, all, valid + {c});
      LayersOwn(sys, rank, b, c, own, all, valid + {c});
      LayersSelection(sys, rank, b, c, own, all, valid + {c});
      LayersBounded(sys, rank, b, c, own, all);
      early, shown := CalcInTurn(c, after, b, 2 * b, 3 * b);
      NoneEarly(sys, c, old(cells), cells, shown, early);
    }

    /** sym_set_tristate_value */
    method SetTristate(s: Symbol, newVal: Tristate) returns (ok: bool)
      requires Fit(sys, cells) && s in sys.defs
      modifies this
      ensures ok == Accepts(sys, s, old(cells)[s], newVal)
      ensures cells == if ok then CellsSet(sys, old(cells), s, newVal) else old(cells)
      ensures valid == if ok && newVal != old(cells)[s].tri then {} else old(valid)
      ensures Fit(sys, cells)
    {
      hide Fit, Proper, Flagged, SetCell, TypeOf;
      ghost var u := cells;
      FitFacts(sys, u);
      SetFits(sys, u, s, newVal);
      var oldVal := cells[s].tri;
      if oldVal != newVal && !InRange(sys, s, cells[s], newVal) { return false; }
      if s in sys.choiceOf { NotOwnGroup(sys, s); }
      cells := cells[s := cells[s].(user := true)];
      if s in sys.choiceOf && newVal == YES { SetInChoice(s, u); }
      ghost var before := cells;
      cells := cells[s := cells[s].(defTri := newVal)];
      SetDone(sys, u, s, newVal, before, cells);
      if oldVal != newVal { valid := {}; }
      ok := true;
    }

    /** The member `s`, just set to y, is the one that the user wants, and no visible member is new. */
    method SetInChoice(s: Symbol, ghost u: Cells)
      requires Fit(sys, u) && s in sys.choiceOf && s in u && cells == u[s := u[s].(user := true)]
      modifies `cells
      ensures cells.Keys == u.Keys && Flagged(sys, u, s, sys.groups[sys.choiceOf[s]], cells)
    {
      hide Fit, Proper, Index, Flagged;
      FitFacts(sys, u);
      var c := sys.choiceOf[s];
      MemberOfGroup(sys, s);
      ChoiceIsNoMember(sys, c);
      var list := sys.groups[c];
      cells := cells[c := cells[c].(user := true, defSel := Some(Index(list, s)))];
      FlagNone(sys, u, s);
      assert list[..0] == [];
      for i := 0 to |list|
        invariant cells.Keys == u.Keys && Flagged(sys, u, s, list[..i], cells)
      {
        GroupMember(sys, c, i);
        assert list[..i + 1] == list[..i] + [list[i]];
        FlagMore(sys, u, s, list[..i], list[i], cells);
        if cells[list[i]].visible != NO { cells := cells[list[i] := cells[list[i]].(user := true)]; }
      }
      assert list[..|list|] == list;
    }
  }
}
