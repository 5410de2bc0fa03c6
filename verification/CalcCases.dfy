/**
 * A choice whose selected member stays n: its members are A, C and B, and B depends on A
 * (sym_calc_choice of scripts/config/symbol.c).
 */
module CalcCases {
  import opened Basics
  import opened Exprs
  import opened Calc
  import opened CalcChecked
  import opened CalcGroups
  import opened CalcRun
  import opened CalcSteps
  import Choice
  import DepCheck

  const CHOICE := Config(0, "", BooleanType)
  const A := Config(1, "A", BooleanType)
  const C := Config(2, "C", BooleanType)
  const B := Config(3, "B", BooleanType)

  /** C does not mention A, so that menu finalisation leaves B in the choice. */
  const TRIO := System(
    map[CHOICE := Def([None], None, Some(Sym(SYM_YES)), None, []),
        A := Def([Some(Sym(CHOICE))], None, None, None, []),
        C := Def([Some(Sym(CHOICE))], None, None, None, []),
        B := Def([Some(Bin(AndOp, Sym(A), Sym(CHOICE)))], None, None, None, [])],
    map[CHOICE := [A, C, B]],
    map[A := CHOICE, C := CHOICE, B := CHOICE],
    YES,
    Valuation((s: Symbol) => if s == SYM_YES then YES else NO, (s: Symbol) => if s.Const? then s.name else "n"),
    (s: Symbol) => NO)

  function Rank(s: Symbol): nat { if s.Config? then s.id else 0 }

  lemma TrioProper()
    ensures Proper(TRIO)
  {
    var list := TRIO.groups[CHOICE];
    assert forall s :: s in TRIO.defs ==> s.Kind() == BooleanType;
    assert forall i :: 0 <= i < |list| ==> list[i].id == i + 1;
    forall m, k | m in TRIO.choiceOf && 0 <= k < |TRIO.defs[m].prompts|
      ensures TRIO.choiceOf[m] in DepRefs(TRIO.defs[m].prompts[k])
    {
      assert k == 0;
    }
  }

  /** A symbol with one prompt and no default reads what its prompt mentions. */
  lemma OnePrompt(sys: System, s: Symbol, r: Symbol)
    requires Proper(sys) && s in sys.defs && |sys.defs[s].prompts| == 1 && sys.defs[s].defaults == []
    requires sys.defs[s].dir == None && sys.defs[s].implied == None && r !in DepRefs(sys.defs[s].rev)
    ensures OwnReads(sys, s, r) <==> r in DepRefs(sys.defs[s].prompts[0])
    ensures s !in sys.groups ==> (Reads(sys, s, r) <==> OwnReads(sys, s, r))
  {
    hide Proper;
  }

  /** What the symbols read. */
  lemma TrioReads(s: Symbol, r: Symbol)
    requires Proper(TRIO) && s in TRIO.defs && r in TRIO.defs
    ensures OwnReads(TRIO, s, r) <==> s != CHOICE && (r == CHOICE || (s == B && r == A))
    ensures s != CHOICE ==> (Reads(TRIO, s, r) <==> OwnReads(TRIO, s, r))
  {
    hide Proper, Reads, OwnReads;
    OnePrompt(TRIO, s, r);
  }

  lemma TrioSelection(r: Symbol)
    requires Proper(TRIO) && r in TRIO.defs && SelectionReads(TRIO, CHOICE, r)
    ensures r == CHOICE || r == A
  {
    assert !CondReads(TRIO, CHOICE, r);
    var i :| 0 <= i < 3 && PromptReads(TRIO, TRIO.groups[CHOICE][i], r);
    TrioReads(TRIO.groups[CHOICE][i], r);
  }

  lemma TrioAsks()
    requires Proper(TRIO)
    ensures Ordered(TRIO, Rank, {CHOICE}) && AsksFor(TRIO, CHOICE, {}, {A}) && !OwnReads(TRIO, CHOICE, CHOICE)
  {
    hide Reads, OwnReads, SelectionReads;
    forall s, r | s in TRIO.defs && r in TRIO.defs { TrioReads(s, r); }
    forall r | r in TRIO.defs && SelectionReads(TRIO, CHOICE, r) { TrioSelection(r); }
  }

  lemma MentionsA(u: Cells)
    requires Fit(TRIO, u)
    ensures Mentioned(TRIO, CHOICE, u, 0)
  {
    assert TRIO.groups[CHOICE][2] == B && TRIO.defs[B].prompts[0] == Some(Bin(AndOp, Sym(A), Sym(CHOICE)));
    assert PromptReads(TRIO, TRIO.groups[CHOICE][2], A);
  }

  /** Nothing is calculated yet. */
  ghost predicate AllNew(u: Cells) {
    u.Keys == TRIO.defs.Keys && forall s :: s in u ==> u[s] == NEW
  }

  lemma YesIsGiven(f: Cells)
    requires Fit(TRIO, f)
    ensures Val(TRIO, f).tri(SYM_YES) == YES
  {
    assert SYM_YES !in f;
  }

  /** A choice that is not optional is y without the user. */
  lemma TrioIsYes(u: Cells, v: Valuation, shown: nat -> Tristate, early: set<nat>)
    requires Fit(TRIO, u) && AllNew(u) && v.tri(SYM_YES) == YES
    ensures Choice.ChoiceTri(GroupOf(TRIO, u, CHOICE), InputsOf(TRIO, CHOICE, v, shown, early), false, NO) == YES
    ensures ChoiceValue(TRIO, CHOICE, u, v, shown) == YES
  {
    hide Fit;
  }

  /** A is fully visible under the choice at y. */
  lemma TrioSees(v: Valuation, shown: nat -> Tristate, early: set<nat>)
    ensures var env := InputsOf(TRIO, CHOICE, v, shown, early);
            |env.members| == 3 && Choice.MemberVisibility(BooleanType, env.members[0], YES, env.modules) == YES
  {
    var env := InputsOf(TRIO, CHOICE, v, shown, early);
    var p := Choice.PromptsUnder(BooleanType, env.members[0].prompts, YES);
    assert |p| == 1 && p[0] == YES;
    Choice.HighestOfOne(p);
  }

  /** No member has a default. */
  lemma TrioFallback(v: Valuation, shown: nat -> Tristate, early: set<nat>, i: nat)
    requires i < 3
    ensures var env := InputsOf(TRIO, CHOICE, v, shown, early);
            |env.members| == 3 && env.members[i].fallback(YES) == NO && env.defaults == [] && env.early == early
  {
  }

  /** Three members without defaults, the first of which is fully visible under the choice at y and asked for early. */
  ghost predicate FirstIsEarly(g: Choice.Group, env: Choice.Inputs) {
    && |g.members| == 3 && |env.members| == 3 && g.defVal == None && env.defaults == [] && 0 in env.early
    && Choice.ChoiceTri(g, env, g.user, g.defTri) == YES && g.members[0].kind == BooleanType
    && Choice.MemberVisibility(BooleanType, env.members[0], YES, env.modules) == YES
    && forall i :: 0 <= i < 3 ==> env.members[i].fallback(YES) == NO
  }

  /** The choice is y and selects its first member, which is fully visible, and no member is y. */
  predicate SelectedIsNo(h: Choice.Group) {
    && h.tri == YES && h.val == Some(0) && |h.members| == 3 && h.members[0].visible == YES
    && forall i :: 0 <= i < 3 ==> h.members[i].tri == NO
  }

  lemma FirstAskedEarly(g: Choice.Group, env: Choice.Inputs)
    requires Choice.Fits(g, env) && FirstIsEarly(g, env)
    ensures SelectedIsNo(Choice.Calculated(g, env)) && Choice.SelectsMember(None, Choice.Seen(g.members, env, YES), env)
  {
    hide Choice.Calculated, Choice.MemberVisibility, Choice.ChoiceTri;
    var seen := Choice.Seen(g.members, env, YES);
    assert seen[0].visible == YES && Choice.Selected(None, seen, env) == Some(0);
    Choice.YesIfSelected(g, env);
    Choice.YesOutcome(g, env);
    Choice.VisibleMembers(g, env);
  }

  lemma GroupOutcome(sys: System, c: Symbol, u: Cells, f: Cells, shown: nat -> Tristate, early: set<nat>)
    requires Fit(sys, u) && Fit(sys, f) && c in sys.groups && c in sys.defs && AsCalculated(sys, c, u, f, shown, early)
    requires CaseIs(sys, c, u, f, shown, early)
    ensures OutcomeIs(sys, c, f)
  {
    hide Fit, FirstIsEarly, SelectedIsNo, Choice.Calculated, Choice.Radio, Choice.SelectsUnasked, Choice.Fits, GroupOf,
         InputsOf;
    FitFacts(sys, u);
    FitGroup(sys, u, c);
    FirstAskedEarly(GroupOf(sys, u, c), InputsOf(sys, c, Val(sys, f), shown, early));
  }

  ghost predicate CaseIs(sys: System, c: Symbol, u: Cells, f: Cells, shown: nat -> Tristate, early: set<nat>)
    requires Fit(sys, u) && c in sys.groups && c in sys.defs
  {
    FitGroup(sys, u, c);
    FirstIsEarly(GroupOf(sys, u, c), InputsOf(sys, c, Val(sys, f), shown, early))
  }

  ghost predicate OutcomeIs(sys: System, c: Symbol, f: Cells)
    requires Fit(sys, f) && c in sys.groups
  {
    FitGroup(sys, f, c);
    SelectedIsNo(GroupOf(sys, f, c))
  }

  lemma TrioGroup(u: Cells)
    requires Fit(TRIO, u) && AllNew(u)
    ensures var g := GroupOf(TRIO, u, CHOICE);
            && |g.members| == 3 && g.defVal == None && g.members[0].kind == BooleanType && !g.user && g.defTri == NO
  {
    hide Fit;
  }

  lemma TrioCase(u: Cells, f: Cells, shown: nat -> Tristate, early: set<nat>)
    requires Fit(TRIO, u) && Fit(TRIO, f) && AllNew(u) && 0 in early
    ensures CaseIs(TRIO, CHOICE, u, f, shown, early)
  {
    hide Fit, AllNew, Choice.MemberVisibility, Choice.ChoiceTri, ChoiceValue, GroupOf, InputsOf;
    var v := Val(TRIO, f);
    YesIsGiven(f);
    TrioIsYes(u, v, shown, early);
    TrioSees(v, shown, early);
    TrioGroup(u);
    FitFacts(TRIO, u);
    FitGroup(TRIO, u, CHOICE);
    var g, env := GroupOf(TRIO, u, CHOICE), InputsOf(TRIO, CHOICE, v, shown, early);
    TrioFallback(v, shown, early, 0);
    forall i | 0 <= i < 3 ensures env.members[i].fallback(YES) == NO { TrioFallback(v, shown, early, i); }
  }

  lemma TrioOutcome(u: Cells, f: Cells, shown: nat -> Tristate, early: set<nat>)
    requires Fit(TRIO, u) && Fit(TRIO, f) && AllNew(u) && AsCalculated(TRIO, CHOICE, u, f, shown, early)
    requires ChoiceValue(TRIO, CHOICE, u, Val(TRIO, f), shown) == YES ==>
               forall i: nat :: i < 3 && Mentioned(TRIO, CHOICE, u, i) ==> i in early
    ensures OutcomeIs(TRIO, CHOICE, f)
  {
    hide Fit, AsCalculated, Mentioned, ChoiceValue, CaseIs, OutcomeIs, AllNew;
    MentionsA(u);
    YesIsGiven(f);
    TrioIsYes(u, Val(TRIO, f), shown, early);
    TrioCase(u, f, shown, early);
    GroupOutcome(TRIO, CHOICE, u, f, shown, early);
  }

  /**
   * The first calculation of the group: B's prompt asks for A before anything is selected, so that A
   * is selected, fully visible, and n. There are defaults neither of the choice nor from outside.
   */
  method AskedTooEarly() returns (g: Choice.Group)
    ensures SelectedIsNo(g)
  {
    hide Fit, AsCalculated, AsksFor, OwnReads, Ordered, Mentioned, GroupIsRadio, ChoiceValue, SelectedIsNo, Proper;
    TrioProper();
    TrioAsks();
    var calculator := new Calculator(TRIO);
    ghost var u := calculator.cells;
    FitFacts(TRIO, u);
    assert calculator.valid + {CHOICE} == {CHOICE};
    ghost var early, shown := calculator.CalcGroup(CHOICE, Rank, {}, {A});
    var f := calculator.cells;
    FitFacts(TRIO, f);
    TrioOutcome(u, f, shown, early);
    g := GroupOf(TRIO, f, CHOICE);
  }

  /** The search for recursive dependencies finds that B mentions A. */
  lemma TrioIsReported()
    ensures DepCheck.HasCycle(GraphOf(TRIO))
  {
    hide DepCheck.Edge;
    TrioProper();
    assert PromptReads(TRIO, B, A) by { TrioReads(B, A); }
    PromptIsFollowed(TRIO, B, A);
    assert DepCheck.Link(GraphOf(TRIO), CHOICE, CHOICE);
    var p := [CHOICE, CHOICE];
    assert DepCheck.IsCycle(GraphOf(TRIO), p);
  }
}
