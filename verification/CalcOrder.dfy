/**
 * The values that the recursive calculation gives do not depend on the order in which
 * symbols are calculated (sym_calc_value of scripts/config/symbol.c), if no symbol depends on itself.
 */
module CalcOrder {
  import opened Basics
  import opened Exprs
  import opened Calc
  import opened CalcGroups
  import opened CalcSteps
  import Choice

  /** Every symbol has the value that its definition gives it. */
  ghost predicate AllRight(sys: System, u: Cells, k: Snapshot) {
    Fit(sys, u) && Fit(sys, k.cells) && forall s :: s in sys.defs ==> RightAt(sys, u, k, s)
  }

  /**
   * The defaults of choices name members of theirs: sym_choice_default does not calculate other symbols that it
   * looks at.
   */
  ghost predicate TargetsAreMembers(sys: System)
    requires Proper(sys)
  {
    forall c, k :: c in sys.groups && 0 <= k < |sys.defs[c].defaults| ==> Target(sys, c, k) in sys.groups[c]
  }

  // ----- what is ready if all that is read is -----

  lemma OwnReadyIf(sys: System, valid: set<Symbol>, s: Symbol, v: Valuation)
    requires s in sys.defs && forall r :: r in sys.defs && OwnReads(sys, s, r) ==> r in valid
    ensures OwnReady(sys, valid, s, v)
  {
    hide DirTri, DepRefs;
    PromptsReadyIf(sys, valid, s);
  }

  lemma PromptsReadyIf(sys: System, valid: set<Symbol>, s: Symbol)
    requires s in sys.defs && forall r :: r in sys.defs && PromptReads(sys, s, r) ==> r in valid
    ensures PromptsReady(sys, valid, s)
  {
    hide DepRefs;
    forall k | 0 <= k < |sys.defs[s].prompts| ensures Ready(sys, valid, sys.defs[s].prompts[k]) {
      forall r | r in DepRefs(sys.defs[s].prompts[k]) ensures PromptReads(sys, s, r) {}
    }
  }

  lemma {:induction false} DefaultsReadyIf(sys: System, valid: set<Symbol>, s: Symbol, k: nat, v: Valuation)
    requires s in sys.defs && k <= |sys.defs[s].defaults|
    requires forall r :: r in sys.defs && (CondReads(sys, s, r) || ValueReads(sys, s, r)) ==> r in valid
    ensures DefaultsReady(sys, valid, sys.defs[s].defaults, k, v)
    decreases |sys.defs[s].defaults| - k
  {
    hide Refs;
    var d := sys.defs[s].defaults;
    if k < |d| {
      forall r | r in DepRefs(d[k].cond) ensures CondReads(sys, s, r) {}
      forall r | r in Refs(d[k].value) ensures ValueReads(sys, s, r) {}
      DefaultsReadyIf(sys, valid, s, k + 1, v);
    }
  }

  lemma {:induction false} CondsReadyIf(sys: System, valid: set<Symbol>, c: Symbol, seen: seq<Choice.Member>,
                                        env: Choice.Inputs, k: nat)
    requires c in sys.defs && |env.defaults| == |sys.defs[c].defaults| && k <= |env.defaults|
    requires forall r :: r in sys.defs && CondReads(sys, c, r) ==> r in valid
    ensures CondsReady(sys, valid, c, seen, env, k)
    decreases |env.defaults| - k
  {
    hide Refs;
    if k < |env.defaults| {
      forall r | r in DepRefs(sys.defs[c].defaults[k].cond) ensures CondReads(sys, c, r) {}
      CondsReadyIf(sys, valid, c, seen, env, k + 1);
    }
  }

  lemma ChoiceReadyIf(sys: System, valid: set<Symbol>, c: Symbol, u: Cells, v: Valuation, shown: nat -> Tristate)
    requires Fit(sys, u) && c in sys.groups && c in sys.defs && c in valid && !OwnReads(sys, c, c)
    requires forall r :: r in sys.defs && Reads(sys, c, r) ==> r in valid
    ensures ChoiceReady(sys, valid, c, u, v, shown)
  {
    hide OwnReads, PromptReads, CondReads, SeenMembers, InputsOf, Fit, ChoiceValue, PromptsReady, CondsReady, OwnReady;
    FitFacts(sys, u);
    FitMembers(sys, c);
    OwnReadyIf(sys, valid - {c}, c, v);
    forall i | 0 <= i < |sys.groups[c]| ensures PromptsReady(sys, valid, sys.groups[c][i]) {
      forall r | r in sys.defs && PromptReads(sys, sys.groups[c][i], r) ensures r in valid {
        assert SelectionReads(sys, c, r);
      }
      PromptsReadyIf(sys, valid, sys.groups[c][i]);
    }
    SeenSize(sys, c, u, v, shown);
    DefaultsSize(sys, c, v, shown);
    FitChoice(sys, u, c);
    forall r | r in sys.defs && CondReads(sys, c, r) ensures r in valid { assert SelectionReads(sys, c, r); }
    CondsReadyIf(sys, valid, c, SeenMembers(sys, c, u, v, shown), InputsOf(sys, c, v, shown, {}), 0);
  }

  lemma DefaultsSize(sys: System, c: Symbol, v: Valuation, shown: nat -> Tristate)
    requires c in sys.groups && c in sys.defs && forall i :: 0 <= i < |sys.groups[c]| ==> sys.groups[c][i] in sys.defs
    ensures |InputsOf(sys, c, v, shown, {}).defaults| == |sys.defs[c].defaults|
  {
  }

  // ----- what is seen of other symbols -----

  /** If all defaults name members, nothing is seen of other symbols. */
  lemma ShownIsIrrelevant(sys: System, c: Symbol, u: Cells, v: Valuation, shown1: nat -> Tristate,
                          shown2: nat -> Tristate)
    requires Fit(sys, u) && TargetsAreMembers(sys) && c in sys.groups
    ensures ChoiceCell(sys, c, u, v, shown1) == ChoiceCell(sys, c, u, v, shown2)
  {
    hide Choice.ChoiceCalculated, MemberInputs, PromptTris, Fit, TargetsAreMembers;
    FitFacts(sys, u);
    FitChoice(sys, u, c);
    FitMembers(sys, c);
    ShownInside(sys, c, u, v, shown1, shown2);
    OutsideIsIrrelevant(GroupOf(sys, u, c), InputsOf(sys, c, v, shown1, {}), InputsOf(sys, c, v, shown2, {}));
  }

  lemma ShownInside(sys: System, c: Symbol, u: Cells, v: Valuation, shown1: nat -> Tristate, shown2: nat -> Tristate)
    requires Fit(sys, u) && TargetsAreMembers(sys) && c in sys.groups && c in sys.defs
    requires forall i :: 0 <= i < |sys.groups[c]| ==> sys.groups[c][i] in sys.defs
    ensures var g, env1, env2 := GroupOf(sys, u, c), InputsOf(sys, c, v, shown1, {}), InputsOf(sys, c, v, shown2, {});
            && Choice.Fits(g, env1) && env2 == env1.(outside := env2.outside)
            && forall k :: 0 <= k < |env1.defaults| ==> env1.defaults[k].target < |g.members|
  {
    hide MemberInputs, PromptTris;
    GroupFits(sys, u, c, InputsOf(sys, c, v, shown1, {}));
    forall k | 0 <= k < |sys.defs[c].defaults| ensures Number(sys, c, k) < |sys.groups[c]| {
      assert Target(sys, c, k) in sys.groups[c];
    }
  }

  lemma OutsideIsIrrelevant(g: Choice.Group, env1: Choice.Inputs, env2: Choice.Inputs)
    requires Choice.Fits(g, env1) && Choice.Fits(g, env2) && env2 == env1.(outside := env2.outside)
    requires forall k :: 0 <= k < |env1.defaults| ==> env1.defaults[k].target < |g.members|
    ensures Choice.ChoiceCalculated(g, env1) == Choice.ChoiceCalculated(g, env2)
  {
    hide Choice.MemberVisibility, Choice.Visibility, Choice.AllUser, Choice.ChoiceTri, Choice.FirstVisible;
    TriOfOutside(g, env1, env2);
    var seen := Choice.Seen(g.members, env1, YES);
    assert seen == Choice.Seen(g.members, env2, YES);
    FirstDefaultInside(seen, env1, env2, 0);
  }

  lemma TriOfOutside(g: Choice.Group, env1: Choice.Inputs, env2: Choice.Inputs)
    requires env2 == env1.(outside := env2.outside)
    ensures Choice.ChoiceTri(g, env1, g.user, g.defTri) == Choice.ChoiceTri(g, env2, g.user, g.defTri)
    ensures Choice.RevDep(g, env1) == Choice.RevDep(g, env2) && Choice.Implied(g, env1) == Choice.Implied(g, env2)
  {
  }

  lemma {:induction false} FirstDefaultInside(m: seq<Choice.Member>, env1: Choice.Inputs, env2: Choice.Inputs, k: nat)
    requires env2 == env1.(outside := env2.outside) && k <= |env1.defaults|
    requires forall j :: 0 <= j < |env1.defaults| ==> env1.defaults[j].target < |m|
    ensures Choice.FirstDefault(m, env1, k) == Choice.FirstDefault(m, env2, k)
    decreases |env1.defaults| - k
  {
    if k < |env1.defaults| { FirstDefaultInside(m, env1, env2, k + 1); }
  }

  // ----- the values are unique -----

  ghost function Below(sys: System, rank: Symbol -> nat, n: nat): set<Symbol> {
    set r | r in sys.defs && rank(r) < n
  }

  ghost predicate AgreeBelow(sys: System, rank: Symbol -> nat, n: nat, f1: Cells, f2: Cells)
    requires f1.Keys == sys.defs.Keys == f2.Keys
  {
    forall s :: s in Below(sys, rank, n) ==> f1[s] == f2[s]
  }

  lemma RightCell(sys: System, u: Cells, k: Snapshot, s: Symbol)
    requires Fit(sys, u) && Fit(sys, k.cells) && RightAt(sys, u, k, s) && s in u && s in k.cells
    ensures s !in sys.groups ==>
              k.cells[s] == if s in sys.choiceOf
                then MemberCell(sys, s, u[s], Val(sys, k.cells), k.cells[sys.choiceOf[s]].sel)
                            else SymbolCell(sys, s, u[s], Val(sys, k.cells))
  {
    hide Fit, SymbolReady, SymbolCell, MemberReady, MemberCell;
  }

  lemma AgreeAt(sys: System, rank: Symbol -> nat, u: Cells, k1: Snapshot, k2: Snapshot, s: Symbol)
    requires AllRight(sys, u, k1) && AllRight(sys, u, k2) && TargetsAreMembers(sys) && Ordered(sys, rank, {})
             && s in sys.defs
    requires k1.cells.Keys == sys.defs.Keys == k2.cells.Keys && AgreeBelow(sys, rank, rank(s), k1.cells, k2.cells)
    ensures k1.cells[s] == k2.cells[s]
  {
    hide Fit, Reads, SymbolReady, SymbolCell, MemberReady, MemberCell, RightAt, TargetsAreMembers, Same, Proper;
    FitFacts(sys, u);
    FitFacts(sys, k1.cells);
    FitFacts(sys, k2.cells);
    var a, v1, v2 := Below(sys, rank, rank(s)), Val(sys, k1.cells), Val(sys, k2.cells);
    ValSame(sys, a, k1.cells, k2.cells);
    RightCell(sys, u, k1, s);
    RightCell(sys, u, k2, s);
    forall r | r in sys.defs && Reads(sys, s, r) ensures r in a {}
    if s in sys.groups {
      AgreeChoice(sys, a, u, k1, k2, s);
    } else if s in sys.choiceOf {
      ProperMember(sys, s);
      AgreeMember(sys, a, u[s], k1, k2, s);
    } else {
      SymbolReadyIf(sys, a, s, u[s], v1);
      SymbolSame(sys, a, s, u[s], v1, v2);
    }
  }

  lemma SymbolReadyIf(sys: System, valid: set<Symbol>, s: Symbol, u: Cell, v: Valuation)
    requires Proper(sys) && s in sys.defs && s !in sys.groups
    requires forall r :: r in sys.defs && Reads(sys, s, r) ==> r in valid
    ensures SymbolReady(sys, valid, s, u, v) && MemberReady(sys, valid, s, u, v)
  {
    hide OwnReads, PromptReads, CondReads, ValueReads, Visible, DefaultsReady, OwnReady, PromptsReady, Proper;
    OwnReadyIf(sys, valid, s, v);
    OwnHasPrompts(sys, valid, s, v);
    DefaultsReadyIf(sys, valid, s, 0, v);
  }

  lemma OwnHasPrompts(sys: System, valid: set<Symbol>, s: Symbol, v: Valuation)
    requires s in sys.defs && OwnReady(sys, valid, s, v)
    ensures PromptsReady(sys, valid, s)
  {
  }

  lemma AgreeMember(sys: System, a: set<Symbol>, u: Cell, k1: Snapshot, k2: Snapshot, s: Symbol)
    requires Proper(sys) && k1.cells.Keys == sys.defs.Keys == k2.cells.Keys && s in sys.choiceOf && s in sys.defs
    requires s !in sys.groups && sys.choiceOf[s] in sys.defs
    requires forall r :: r in sys.defs && Reads(sys, s, r) ==> r in a
    requires forall r :: r in a && r in sys.defs ==> k1.cells[r] == k2.cells[r]
    ensures MemberCell(sys, s, u, Val(sys, k1.cells), k1.cells[sys.choiceOf[s]].sel)
         == MemberCell(sys, s, u, Val(sys, k2.cells), k2.cells[sys.choiceOf[s]].sel)
  {
    hide Reads, MemberReady, MemberCell, Same, Proper;
    var v1, v2, c := Val(sys, k1.cells), Val(sys, k2.cells), sys.choiceOf[s];
    ValText(sys, k1.cells);
    ValText(sys, k2.cells);
    ValSame(sys, a, k1.cells, k2.cells);
    SymbolReadyIf(sys, a, s, u, v1);
    MemberSame(sys, a, s, u, v1, v2, k1.cells[c].sel);
    if sys.defs[s].prompts == [] {
      UnseenMember(sys, s, u, v2, k1.cells[c].sel, k2.cells[c].sel);
    } else {
      ReadsItsChoice(sys, s);
    }
  }

  lemma AgreeChoice(sys: System, a: set<Symbol>, u: Cells, k1: Snapshot, k2: Snapshot, c: Symbol)
    requires Fit(sys, u) && Fit(sys, k1.cells) && Fit(sys, k2.cells) && TargetsAreMembers(sys) && c in sys.groups
             && c in sys.defs
    requires !Reads(sys, c, c) && RightAt(sys, u, k1, c) && RightAt(sys, u, k2, c)
    requires forall r :: r in sys.defs && Reads(sys, c, r) ==> r in a
    requires Same(sys, a, Val(sys, k1.cells), Val(sys, k2.cells))
    ensures k1.cells[c] == k2.cells[c]
  {
    hide Fit, ChoiceReady, ChoiceCell, TargetsAreMembers, Same, OwnReads, SelectionReads;
    FitFacts(sys, k1.cells);
    FitFacts(sys, k2.cells);
    var v1, v2 := Val(sys, k1.cells), Val(sys, k2.cells);
    var shown1 :| ChoiceReady(sys, k1.valid, c, u, v1, shown1) && k1.cells[c] == ChoiceCell(sys, c, u, v1, shown1);
    var shown2 :| ChoiceReady(sys, k2.valid, c, u, v2, shown2) && k2.cells[c] == ChoiceCell(sys, c, u, v2, shown2);
    FitFacts(sys, u);
    SameLess(sys, a, c, v1, v2);
    ChoiceReadyIf(sys, a + {c}, c, u, v1, shown1);
    UsersSelf(sys, u, c);
    LessSelf(sys, a, c, v1, v2);
    ChoiceSame(sys, a + {c}, c, u, u, v1, v2, shown1);
    ShownIsIrrelevant(sys, c, u, v2, shown1, shown2);
  }

  lemma LessSelf(sys: System, a: set<Symbol>, c: Symbol, v1: Valuation, v2: Valuation)
    requires Same(sys, a - {c}, v1, v2)
    ensures Same(sys, a + {c} - {c}, v1, v2)
  {
  }

  lemma {:induction false} AgreeUpTo(sys: System, rank: Symbol -> nat, u: Cells, k1: Snapshot, k2: Snapshot, n: nat)
    requires AllRight(sys, u, k1) && AllRight(sys, u, k2) && TargetsAreMembers(sys) && Ordered(sys, rank, {})
    ensures k1.cells.Keys == sys.defs.Keys == k2.cells.Keys && AgreeBelow(sys, rank, n, k1.cells, k2.cells)
  {
    hide TargetsAreMembers, Ordered, RightAt;
    FitFacts(sys, k1.cells);
    FitFacts(sys, k2.cells);
    if n > 0 {
      AgreeUpTo(sys, rank, u, k1, k2, n - 1);
      forall s | s in Below(sys, rank, n) ensures k1.cells[s] == k2.cells[s] {
        if rank(s) == n - 1 { AgreeAt(sys, rank, u, k1, k2, s); }
      }
    }
  }

  /** In whatever order symbols are calculated, their cells are the same in the end. */
  lemma ValuesAreUnique(sys: System, rank: Symbol -> nat, u: Cells, k1: Snapshot, k2: Snapshot)
    requires AllRight(sys, u, k1) && AllRight(sys, u, k2) && TargetsAreMembers(sys) && Ordered(sys, rank, {})
    ensures k1.cells == k2.cells
  {
    hide AllRight, TargetsAreMembers, Ordered;
    var b := RanksBounded(rank, sys.defs.Keys);
    AgreeUpTo(sys, rank, u, k1, k2, b);
    assert forall s :: s in sys.defs ==> s in Below(sys, rank, b);
  }

  lemma AdvancedIsRight(sys: System, rank: Symbol -> nat, b: nat, u: Cells, k: Snapshot)
    requires Advanced(sys, rank, b, {}, Snapshot(u, {}), k) && forall s :: s in sys.defs ==> s in k.valid
    ensures AllRight(sys, u, k)
  {
    hide RightAt, Fit;
  }

  /** Every radio group has its law. */
  lemma GroupsAreRadio(sys: System, u: Cells, k: Snapshot, c: Symbol)
    requires AllRight(sys, u, k) && c in sys.groups
    ensures GroupIsRadio(sys, k.cells, c)
  {
    hide Fit, RightAt, Choice.Radio, Choice.Calculated, Choice.Selected, Choice.Seen, Choice.ChoiceTri, GroupOf,
         InputsOf, Proper;
    FitFacts(sys, u);
    FitFacts(sys, k.cells);
    ChoiceIsNoMember(sys, c);
    FitMembers(sys, c);
    assert c.IsLogical() by { FitLogical(sys, c); }
    forall i | 0 <= i < |sys.groups[c]| ensures RightAt(sys, u, k, sys.groups[c][i]) {}
    RightGroup(sys, u, k, c);
    var shown :| var g, env := GroupOf(sys, u, c), InputsOf(sys, c, Val(sys, k.cells), shown, {});
                 Choice.Fits(g, env) && GroupOf(sys, k.cells, c) == Choice.Calculated(g, env);
    NothingAsked(sys, c, Val(sys, k.cells), shown);
    Choice.CalculationEstablishesRadio(GroupOf(sys, u, c), InputsOf(sys, c, Val(sys, k.cells), shown, {}));
  }

  lemma NothingAsked(sys: System, c: Symbol, v: Valuation, shown: nat -> Tristate)
    requires c in sys.groups && c in sys.defs && forall i :: 0 <= i < |sys.groups[c]| ==> sys.groups[c][i] in sys.defs
    ensures InputsOf(sys, c, v, shown, {}).early == {}
  {
  }

  lemma FitLogical(sys: System, s: Symbol)
    requires Proper(sys) && s in sys.defs
    ensures s.IsLogical()
  {
  }

  // ----- calculated values are what expressions rely on -----

  lemma SymbolMayBe(sys: System, s: Symbol, u: Cell, v: Valuation)
    requires s in sys.defs && s.IsLogical()
    ensures Choice.MayBe(s.Kind(), sys.modules, SymbolCell(sys, s, u, v).tri)
  {
    hide Visible, DirTri, ImpliedTri, RevTri, DefaultTri;
  }

  lemma MemberMayBe(sys: System, m: Symbol, u: Cell, v: Valuation, sel: Option<nat>)
    requires Proper(sys) && m in sys.choiceOf && m.IsLogical()
    ensures Choice.MayBe(m.Kind(), sys.modules, MemberCell(sys, m, u, v, sel).tri)
  {
    hide MemberInputs, Choice.MemberVisibility, Index, Proper;
  }

  lemma ChoiceMayBe(sys: System, c: Symbol, u: Cells, v: Valuation, shown: nat -> Tristate)
    requires Fit(sys, u) && c in sys.groups && c.IsLogical()
    ensures Choice.MayBe(c.Kind(), sys.modules, ChoiceCell(sys, c, u, v, shown).tri)
  {
    hide MemberInputs, PromptTris, Choice.Seen, Choice.Selected, Choice.AllUser, Choice.DirDep, Choice.RevDep,
         Choice.Implied;
  }

  /** A boolean is never m, and nothing is without modules. */
  lemma RightMayBe(sys: System, u: Cells, k: Snapshot, s: Symbol)
    requires AllRight(sys, u, k) && s in sys.defs
    ensures s in k.cells && s.IsLogical() && Choice.MayBe(s.Kind(), sys.modules, k.cells[s].tri)
  {
    hide Fit, SymbolReady, SymbolCell, MemberReady, MemberCell, ChoiceReady, ChoiceCell, Proper;
    FitFacts(sys, u);
    FitFacts(sys, k.cells);
    FitLogical(sys, s);
    assert RightAt(sys, u, k, s);
    var v := Val(sys, k.cells);
    if s in sys.groups {
      var shown :| ChoiceReady(sys, k.valid, s, u, v, shown) && k.cells[s] == ChoiceCell(sys, s, u, v, shown);
      ChoiceMayBe(sys, s, u, v, shown);
    } else if s in sys.choiceOf {
      MemberMayBe(sys, s, u[s], v, k.cells[sys.choiceOf[s]].sel);
    } else {
      SymbolMayBe(sys, s, u[s], v);
    }
  }

  /** What was calculated is a well-formed valuation, if what is given is one. */
  lemma CalculatedIsWellFormed(sys: System, u: Cells, k: Snapshot)
    requires AllRight(sys, u, k) && WellFormed(sys.given)
    ensures WellFormed(Val(sys, k.cells))
  {
    hide AllRight, Choice.MayBe;
    var v := Val(sys, k.cells);
    forall s: Symbol
      ensures s in k.cells ==>
                s.IsLogical() && (s.Kind() == BooleanType ==> v.tri(s) != MOD) && v.str(s) == TriName(v.tri(s))
    {
      if s in k.cells { LogicalValue(sys, u, k, s); }
    }
  }

  lemma LogicalValue(sys: System, u: Cells, k: Snapshot, s: Symbol)
    requires AllRight(sys, u, k) && s in k.cells
    ensures var v := Val(sys, k.cells);
            s.IsLogical() && (s.Kind() == BooleanType ==> v.tri(s) != MOD) && v.str(s) == TriName(v.tri(s))
  {
    hide RightAt;
    FitFacts(sys, k.cells);
    RightMayBe(sys, u, k, s);
  }
}
