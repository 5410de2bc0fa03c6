/**
 * What calculated values mean in terms of the expressions of a definition: dependencies, reverse dependencies,
 * implied values, prompts and defaults (sym_calc_visibility and sym_calc_value of scripts/config/symbol.c).
 */
module CalcLaws {
  import opened Basics
  import opened Exprs
  import opened Calc
  import opened CalcGroups
  import opened CalcOrder
  import opened CalcSteps
  import Choice

  // ----- the laws -----

  /** `t` is a value, m being one only if `m` says so. */
  predicate IsValue(t: Tristate, m: bool) { t == MOD ==> m }

  /** `t` is the least value from `low` on. */
  ghost predicate Least(t: Tristate, low: Tristate, m: bool) {
    low <= t && IsValue(t, m) && forall x: Tristate :: low <= x && IsValue(x, m) ==> t <= x
  }

  function Min(a: Tristate, b: Tristate): Tristate { if a <= b then a else b }

  function Max(a: Tristate, b: Tristate): Tristate { if a <= b then b else a }

  predicate CanBeMod(sys: System, s: Symbol) { s.Kind() == TristateType && sys.modules != NO }

  /** A missing reverse dependency or implied value is n. */
  function ValueOr(e: Option<Expr>, other: Tristate, v: Valuation): Tristate {
    if e.Some? then Eval(e.value, v) else other
  }

  /** How far a prompt shows the symbol: a tristate member of a choice at y needs one that is y. */
  function Shown(sys: System, s: Symbol, prompt: Option<Expr>, v: Valuation): Tristate {
    var t := ValueOr(prompt, YES, v);
    if s in sys.choiceOf && s.Kind() == TristateType && v.tri(sys.choiceOf[s]) == YES && t != YES then NO else t
  }

  ghost predicate IsGreatestShown(sys: System, s: Symbol, t: Tristate, v: Valuation)
    requires s in sys.defs
  {
    var p := sys.defs[s].prompts;
    && (forall k :: 0 <= k < |p| ==> Shown(sys, s, p[k], v) <= t)
    && (t != NO ==> exists k :: 0 <= k < |p| && Shown(sys, s, p[k], v) == t)
  }

  /** The greatest value of a prompt, rounded up where m is none. */
  ghost predicate VisibleLaw(sys: System, s: Symbol, visible: Tristate, v: Valuation)
    requires s in sys.defs
  {
    exists t :: IsGreatestShown(sys, s, t, v) && Least(visible, t, CanBeMod(sys, s))
  }

  /** The first default whose condition is not n counts, as far as its condition goes. */
  ghost predicate IsFallback(d: seq<Default>, t: Tristate, v: Valuation) {
    if exists k :: 0 <= k < |d| && ValueOr(d[k].cond, YES, v) != NO
    then exists k :: 0 <= k < |d| && ValueOr(d[k].cond, YES, v) != NO
                  && (forall j :: 0 <= j < k ==> ValueOr(d[j].cond, YES, v) == NO)
                  && t == Min(Eval(d[k].value, v), ValueOr(d[k].cond, YES, v))
    else t == NO
  }

  /** The dependencies of a symbol, rounded up where m is none; nothing is implied where the dependency is n. */
  ghost predicate DependencyLaw(sys: System, s: Symbol, cell: Cell, v: Valuation)
    requires s in sys.defs
  {
    var d, m := sys.defs[s], CanBeMod(sys, s);
    && Least(cell.dir, ValueOr(d.dir, YES, v), m)
    && Least(cell.rev, ValueOr(d.rev, NO, v), m)
    && Least(cell.implied, if ValueOr(d.dir, YES, v) == NO then NO else ValueOr(d.implied, NO, v), m)
  }

  /**
   * A symbol that is selected without its dependency is n. Otherwise it has the least value from its own and
   * its reverse dependency on, m being none if y is implied.
   */
  ghost predicate ValueLaw(sys: System, s: Symbol, t: Tristate, own: Tristate, implied: Tristate, v: Valuation)
    requires s in sys.defs
  {
    var dir, rev := ValueOr(sys.defs[s].dir, YES, v), ValueOr(sys.defs[s].rev, NO, v);
    if dir == NO && rev != NO then t == NO else Least(t, Max(own, rev), CanBeMod(sys, s) && implied != YES)
  }

  /** A symbol that is neither a choice nor a member; the user's value counts where it is visible. */
  ghost predicate SymbolLaw(sys: System, s: Symbol, u: Cell, cell: Cell, v: Valuation)
    requires s in sys.defs
  {
    && VisibleLaw(sys, s, cell.visible, v) && DependencyLaw(sys, s, cell, v)
    && exists f: Tristate ::
         && IsFallback(sys.defs[s].defaults, f, v)
         && var own := if cell.visible != NO && u.user then Min(u.defTri, cell.visible) else Max(f, cell.implied);
            ValueLaw(sys, s, cell.tri, own, cell.implied, v)
  }

  /** A choice; it has no default of its own, and is n if there is nothing to select. */
  ghost predicate ChoiceLaw(sys: System, c: Symbol, u: Cell, cell: Cell, v: Valuation)
    requires c in sys.defs
  {
    && VisibleLaw(sys, c, cell.visible, v) && DependencyLaw(sys, c, cell, v)
    && ChoiceValueLaw(sys, c, cell, if u.user then Min(u.defTri, cell.visible) else NO, v)
  }

  ghost predicate ChoiceValueLaw(sys: System, c: Symbol, cell: Cell, own: Tristate, v: Valuation)
    requires c in sys.defs
  {
    exists t: Tristate ::
      && ValueLaw(sys, c, t, own, cell.implied, v)
      && (cell.tri == t || (t == YES && cell.tri == NO && cell.sel.None?))
  }

  /** A member of a choice that selects `sel`. */
  ghost predicate MemberLaw(sys: System, m: Symbol, u: Cell, cell: Cell, v: Valuation, sel: Option<nat>)
    requires Proper(sys) && m in sys.choiceOf
  {
    && m in sys.defs && VisibleLaw(sys, m, cell.visible, v)
    && var list := sys.groups[sys.choiceOf[m]];
       if cell.visible == YES then
         cell.tri == if sel.Some? && sel.value < |list| && list[sel.value] == m then YES else NO
       else
         exists f: Tristate ::
           && IsFallback(sys.defs[m].defaults, f, v)
           && Least(cell.tri, if cell.visible != NO && u.user then Min(u.defTri, cell.visible) else f, CanBeMod(sys, m))
  }

  /** The law of the symbol `s`, with what the user set in `u`. */
  ghost predicate Lawful(sys: System, u: Cells, cells: Cells, s: Symbol)
    requires Proper(sys) && s in sys.defs && u.Keys == sys.defs.Keys == cells.Keys
  {
    var v := Val(sys, cells);
    if s in sys.groups then ChoiceLaw(sys, s, u[s], cells[s], v)
    else if s in sys.choiceOf then MemberLaw(sys, s, u[s], cells[s], v, cells[sys.choiceOf[s]].sel)
    else SymbolLaw(sys, s, u[s], cells[s], v)
  }

  // ----- the parts -----

  lemma LeastIs(t: Tristate, low: Tristate, m: bool)
    ensures Least(t, low, m) <==> t == if low == MOD && !m then YES else low
  {
    assert IsValue(low, m) || low == MOD;
    assert IsValue(YES, m);
  }

  lemma PromotedIsLeast(sys: System, s: Symbol, t: Tristate)
    requires s.IsLogical()
    ensures Least(Choice.Promoted(s.Kind(), sys.modules, t), t, CanBeMod(sys, s))
  {
    LeastIs(Choice.Promoted(s.Kind(), sys.modules, t), t, CanBeMod(sys, s));
  }

  lemma DependencyIsLawful(sys: System, s: Symbol, cell: Cell, v: Valuation)
    requires s in sys.defs && s.IsLogical()
    requires cell.dir == DirTri(sys, s, v) && cell.implied == ImpliedTri(sys, s, v)
    requires cell.rev == Choice.Promoted(s.Kind(), sys.modules, RevTri(sys.defs[s].rev, v))
    ensures DependencyLaw(sys, s, cell, v)
  {
    var d := sys.defs[s];
    PromotedIsLeast(sys, s, EvalDep(d.dir, v));
    PromotedIsLeast(sys, s, RevTri(d.rev, v));
    PromotedIsLeast(sys, s, RevTri(d.implied, v));
  }

  lemma {:induction false} HighestOf(ts: seq<Tristate>)
    ensures forall k :: 0 <= k < |ts| ==> ts[k] <= Choice.Highest(ts)
    ensures Choice.Highest(ts) != NO ==> Choice.Highest(ts) in ts
  {
    if ts != [] { HighestOf(ts[..|ts| - 1]); }
  }

  lemma VisibleIsLawful(sys: System, s: Symbol, v: Valuation)
    requires s in sys.defs && s.IsLogical()
    ensures VisibleLaw(sys, s, Visible(sys, s, v), v)
  {
    var ts, p := PromptTris(sys, s, v), sys.defs[s].prompts;
    forall k | 0 <= k < |p| ensures ts[k] == Shown(sys, s, p[k], v) { PromptIsShown(sys, s, p[k], v); }
    HighestOf(ts);
    var t := Choice.Highest(ts);
    if t != NO {
      var k :| 0 <= k < |ts| && ts[k] == t;
      assert Shown(sys, s, p[k], v) == t;
    }
    assert IsGreatestShown(sys, s, t, v);
  }

  lemma PromptIsShown(sys: System, s: Symbol, e: Option<Expr>, v: Valuation)
    requires s.IsLogical()
    ensures PromptTri(sys, s, e, v) == Shown(sys, s, e, v)
  {
  }

  lemma {:induction false} FallbackIs(d: seq<Default>, k: nat, v: Valuation)
    requires k <= |d| && forall j :: 0 <= j < k ==> ValueOr(d[j].cond, YES, v) == NO
    ensures IsFallback(d, DefaultTri(d, k, v), v)
    decreases |d| - k
  {
    hide Eval;
    if k < |d| && EvalDep(d[k].cond, v) == NO { FallbackIs(d, k + 1, v); }
  }

  /** Rounding up twice is rounding up once. */
  lemma CombinedIsLawful(sys: System, s: Symbol, cell: Cell, own: Tristate, v: Valuation)
    requires s in sys.defs && s.IsLogical() && DependencyLaw(sys, s, cell, v)
    ensures ValueLaw(sys, s, Combined(sys, s, cell.dir, cell.rev, cell.implied, own), own, cell.implied, v)
  {
    hide Least, ValueOr;
    var d, m := sys.defs[s], CanBeMod(sys, s);
    var t := Combined(sys, s, cell.dir, cell.rev, cell.implied, own);
    LeastIs(cell.dir, ValueOr(d.dir, YES, v), m);
    LeastIs(cell.rev, ValueOr(d.rev, NO, v), m);
    LeastIs(t, Max(own, ValueOr(d.rev, NO, v)), m && cell.implied != YES);
  }

  lemma SymbolIsLawful(sys: System, s: Symbol, u: Cell, v: Valuation)
    requires s in sys.defs && s.IsLogical()
    ensures SymbolLaw(sys, s, u, SymbolCell(sys, s, u, v), v)
  {
    hide Visible, DefaultTri, DirTri, ImpliedTri, VisibleLaw, DependencyLaw, ValueLaw, IsFallback, Combined;
    var cell := SymbolCell(sys, s, u, v);
    VisibleIsLawful(sys, s, v);
    DependencyIsLawful(sys, s, cell, v);
    FallbackIs(sys.defs[s].defaults, 0, v);
    var f := DefaultTri(sys.defs[s].defaults, 0, v);
    CombinedIsLawful(sys, s, cell,
               if cell.visible != NO && u.user then Min(u.defTri, cell.visible) else Max(f, cell.implied), v);
  }

  lemma MemberIsLawful(sys: System, m: Symbol, u: Cell, v: Valuation, sel: Option<nat>)
    requires Proper(sys) && m in sys.choiceOf && TextFits(sys, v)
    ensures MemberLaw(sys, m, u, MemberCell(sys, m, u, v, sel), v, sel)
  {
    hide Proper, TextFits, Visible, DefaultTri, VisibleLaw, IsFallback, MemberCell;
    ProperMember(sys, m);
    MemberCellIs(sys, m, u, v, sel);
    VisibleIsLawful(sys, m, v);
    FallbackIs(sys.defs[m].defaults, 0, v);
    SelectedIndex(sys, m, sel);
  }

  /** The members of a choice are listed once. */
  lemma SelectedIndex(sys: System, m: Symbol, sel: Option<nat>)
    requires Proper(sys) && m in sys.choiceOf
    ensures var list := sys.groups[sys.choiceOf[m]];
            sel == Some(Index(list, m)) <==> sel.Some? && sel.value < |list| && list[sel.value] == m
  {
  }

  lemma ChoiceParts(sys: System, c: Symbol, u: Cells, v: Valuation, shown: nat -> Tristate)
    requires Fit(sys, u) && c in sys.groups && c in sys.defs && c in u
    ensures var g, env := GroupOf(sys, u, c), InputsOf(sys, c, v, shown, {});
            && Choice.DirDep(g, env) == DirTri(sys, c, v) && Choice.Implied(g, env) == ImpliedTri(sys, c, v)
            && Choice.RevDep(g, env) == Choice.Promoted(c.Kind(), sys.modules, RevTri(sys.defs[c].rev, v))
            && Choice.Visibility(c.Kind(), env.prompts, sys.modules) == Visible(sys, c, v)
            && ChoiceValue(sys, c, u, v, shown)
               == Combined(sys, c, Choice.DirDep(g, env), Choice.RevDep(g, env), Choice.Implied(g, env),
                           if u[c].user then Min(u[c].defTri, Visible(sys, c, v)) else NO)
  {
    hide MemberInputs, PromptTris, RevTri, EvalDep;
  }

  lemma ChoiceIsLawful(sys: System, c: Symbol, u: Cells, v: Valuation, shown: nat -> Tristate)
    requires Fit(sys, u) && c in sys.groups && c in sys.defs && c in u && c.IsLogical()
    ensures ChoiceLaw(sys, c, u[c], ChoiceCell(sys, c, u, v, shown), v)
  {
    hide Fit, VisibleLaw, DependencyLaw, ValueLaw, ChoiceCell, SeenMembers, Choice.Selected, Choice.AllUser, Combined,
         DirTri, ImpliedTri, RevTri, InputsOf, GroupOf, ChoiceValue, Visible, Choice.DirDep, Choice.RevDep,
         Choice.Implied, Choice.Visibility, Choice.Promoted;
    var cell := ChoiceCell(sys, c, u, v, shown);
    ChoiceCellIs(sys, c, u, v, shown);
    ChoiceParts(sys, c, u, v, shown);
    VisibleIsLawful(sys, c, v);
    DependencyIsLawful(sys, c, cell, v);
    var own := if u[c].user then Min(u[c].defTri, cell.visible) else NO;
    CombinedIsLawful(sys, c, cell, own, v);
    assert ChoiceValueLaw(sys, c, cell, own, v);
  }

  /** Every value that was calculated is lawful. */
  lemma RightIsLawful(sys: System, u: Cells, k: Snapshot, s: Symbol)
    requires AllRight(sys, u, k) && s in sys.defs
    ensures Proper(sys) && u.Keys == sys.defs.Keys == k.cells.Keys && Lawful(sys, u, k.cells, s)
  {
    hide Fit, SymbolReady, SymbolCell, MemberReady, MemberCell, ChoiceReady, ChoiceCell, Proper, SymbolLaw, ChoiceLaw,
         MemberLaw;
    FitFacts(sys, u);
    FitFacts(sys, k.cells);
    FitLogical(sys, s);
    assert RightAt(sys, u, k, s);
    var v := Val(sys, k.cells);
    if s in sys.groups {
      var shown :| ChoiceReady(sys, k.valid, s, u, v, shown) && k.cells[s] == ChoiceCell(sys, s, u, v, shown);
      ChoiceIsLawful(sys, s, u, v, shown);
    } else if s in sys.choiceOf {
      ValText(sys, k.cells);
      MemberIsLawful(sys, s, u[s], v, k.cells[sys.choiceOf[s]].sel);
    } else {
      SymbolIsLawful(sys, s, u[s], v);
    }
  }

  // ----- in plain words -----

  predicate Ordinary(sys: System, s: Symbol) { s in sys.defs && s !in sys.groups && s !in sys.choiceOf }

  /** The values of the dependency, the reverse dependency and the implied value of `s`. */
  function DirValue(sys: System, s: Symbol, v: Valuation): Tristate
    requires s in sys.defs
  {
    ValueOr(sys.defs[s].dir, YES, v)
  }

  function RevValue(sys: System, s: Symbol, v: Valuation): Tristate
    requires s in sys.defs
  {
    ValueOr(sys.defs[s].rev, NO, v)
  }

  function ImpliedValue(sys: System, s: Symbol, v: Valuation): Tristate
    requires s in sys.defs
  {
    ValueOr(sys.defs[s].implied, NO, v)
  }

  /** The law read as a computation. */
  lemma SymbolValue(sys: System, s: Symbol, u: Cell, cell: Cell, v: Valuation) returns (f: Tristate)
    requires s in sys.defs && SymbolLaw(sys, s, u, cell, v)
    ensures IsFallback(sys.defs[s].defaults, f, v)
    ensures var dir, rev, m := DirValue(sys, s, v), RevValue(sys, s, v), CanBeMod(sys, s);
            var implied := if dir == NO then NO else ImpliedValue(sys, s, v);
            var own := if cell.visible != NO && u.user then Min(u.defTri, cell.visible) else Max(f, cell.implied);
            && cell.dir == (if dir == MOD && !m then YES else dir)
            && cell.implied == (if implied == MOD && !m then YES else implied)
            && cell.tri == (if dir == NO && rev != NO then NO
                            else if Max(own, rev) == MOD && !(m && cell.implied != YES) then YES else Max(own, rev))
  {
    hide IsFallback, VisibleLaw, Least, ValueOr;
    f :| IsFallback(sys.defs[s].defaults, f, v)
         && var own := if cell.visible != NO && u.user then Min(u.defTri, cell.visible) else Max(f, cell.implied);
            ValueLaw(sys, s, cell.tri, own, cell.implied, v);
    var own := if cell.visible != NO && u.user then Min(u.defTri, cell.visible) else Max(f, cell.implied);
    var m := CanBeMod(sys, s);
    LeastIs(cell.dir, DirValue(sys, s, v), m);
    LeastIs(cell.implied, if DirValue(sys, s, v) == NO then NO else ImpliedValue(sys, s, v), m);
    LeastIs(cell.tri, Max(own, RevValue(sys, s, v)), m && cell.implied != YES);
  }

  /**
   * A select is a lower bound, and gives a symbol that cannot be m the value y, unless the
   * dependency of the symbol is n: then the symbol is n.
   */
  lemma SelectIsLowerBound(sys: System, u: Cells, k: Snapshot, s: Symbol)
    requires AllRight(sys, u, k) && Ordinary(sys, s) && s in u && s in k.cells
    ensures var v, t := Val(sys, k.cells), k.cells[s].tri;
            var dir, rev := DirValue(sys, s, v), RevValue(sys, s, v);
            && (dir != NO ==> t >= rev)
            && (dir != NO && rev != NO && !CanBeMod(sys, s) ==> t == YES)
            && (dir == NO && rev != NO ==> t == NO)
  {
    hide AllRight, SymbolLaw;
    RightIsLawful(sys, u, k, s);
    var f := SymbolValue(sys, s, u[s], k.cells[s], Val(sys, k.cells));
  }

  /** For a symbol that cannot be m a dependency at m is as good as one at y. */
  lemma DependencyAtMod(sys: System, u: Cells, k: Snapshot, s: Symbol)
    requires AllRight(sys, u, k) && Ordinary(sys, s) && s in u && s in k.cells
    ensures var dir := DirValue(sys, s, Val(sys, k.cells));
            && (k.cells[s].dir == NO <==> dir == NO)
            && (CanBeMod(sys, s) ==> k.cells[s].dir == dir)
            && (!CanBeMod(sys, s) && dir != NO ==> k.cells[s].dir == YES)
  {
    hide AllRight, SymbolLaw;
    RightIsLawful(sys, u, k, s);
    var f := SymbolValue(sys, s, u[s], k.cells[s], Val(sys, k.cells));
  }

  /**
   * An implied value is a lower bound where the user has no say, with y for a symbol that cannot
   * be m; where the dependency is n nothing is implied; and what implies y rules m out.
   */
  lemma ImplyIsDefault(sys: System, u: Cells, k: Snapshot, s: Symbol)
    requires AllRight(sys, u, k) && Ordinary(sys, s) && s in u && s in k.cells
    ensures var v, t := Val(sys, k.cells), k.cells[s].tri;
            var dir, implied := DirValue(sys, s, v), ImpliedValue(sys, s, v);
            && (dir != NO && (k.cells[s].visible == NO || !u[s].user) ==>
                  t >= implied && (implied != NO && !CanBeMod(sys, s) ==> t == YES))
            && (dir == NO ==> k.cells[s].implied == NO)
            && (dir != NO && implied == YES ==> t != MOD)
  {
    hide AllRight, SymbolLaw;
    RightIsLawful(sys, u, k, s);
    var f := SymbolValue(sys, s, u[s], k.cells[s], Val(sys, k.cells));
  }

  /** What the user set of a visible symbol, as far as it is visible, is its value or the reverse dependency is. */
  lemma UserValueCounts(sys: System, u: Cells, k: Snapshot, s: Symbol)
    requires AllRight(sys, u, k) && Ordinary(sys, s) && s in u && s in k.cells
    requires k.cells[s].visible != NO && u[s].user && CanBeMod(sys, s)
    ensures var v, t := Val(sys, k.cells), k.cells[s].tri;
            var dir, rev := DirValue(sys, s, v), RevValue(sys, s, v);
            (dir != NO || rev == NO) && (dir == NO || ImpliedValue(sys, s, v) != YES) ==>
              t == Max(Min(u[s].defTri, k.cells[s].visible), rev)
  {
    hide AllRight, SymbolLaw;
    RightIsLawful(sys, u, k, s);
    var f := SymbolValue(sys, s, u[s], k.cells[s], Val(sys, k.cells));
  }

  /** A symbol differs from n only if it is selected, set by the user, implied or defaulted. */
  lemma NothingFromNothing(sys: System, u: Cells, k: Snapshot, s: Symbol)
    requires AllRight(sys, u, k) && Ordinary(sys, s) && s in u && s in k.cells && k.cells[s].tri != NO
    ensures var v := Val(sys, k.cells);
            || RevValue(sys, s, v) != NO
            || (k.cells[s].visible != NO && u[s].user && u[s].defTri != NO)
            || (DirValue(sys, s, v) != NO && ImpliedValue(sys, s, v) != NO)
            || exists j :: 0 <= j < |sys.defs[s].defaults| && ValueOr(sys.defs[s].defaults[j].cond, YES, v) != NO
                           && Eval(sys.defs[s].defaults[j].value, v) != NO
  {
    hide AllRight, SymbolLaw, Eval, Val;
    RightIsLawful(sys, u, k, s);
    var f := SymbolValue(sys, s, u[s], k.cells[s], Val(sys, k.cells));
  }
}
