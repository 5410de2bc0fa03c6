/**
 * What one step of the recursive calculation of symbol values keeps and adds
 * (scripts/config/symbol.c, scripts/config/expr.c).
 */
module CalcSteps {
  import opened Basics
  import opened Exprs
  import opened Calc
  import Choice

  /** The cells, and the symbols with SYMBOL_VALID set. */
  datatype Snapshot = Snapshot(cells: Cells, valid: set<Symbol>)

  // ----- what is read -----

  ghost predicate PromptReads(sys: System, s: Symbol, r: Symbol)
    requires s in sys.defs
  {
    exists k :: 0 <= k < |sys.defs[s].prompts| && r in DepRefs(sys.defs[s].prompts[k])
  }

  /** `r` occurs in the prompts of `s` or in its dependencies. */
  ghost predicate OwnReads(sys: System, s: Symbol, r: Symbol)
    requires s in sys.defs
  {
    || PromptReads(sys, s, r)
    || r in DepRefs(sys.defs[s].dir) || r in DepRefs(sys.defs[s].rev) || r in DepRefs(sys.defs[s].implied)
  }

  ghost predicate CondReads(sys: System, s: Symbol, r: Symbol)
    requires s in sys.defs
  {
    exists k :: 0 <= k < |sys.defs[s].defaults| && r in DepRefs(sys.defs[s].defaults[k].cond)
  }

  ghost predicate ValueReads(sys: System, s: Symbol, r: Symbol)
    requires s in sys.defs
  {
    exists k :: 0 <= k < |sys.defs[s].defaults| && r in Refs(sys.defs[s].defaults[k].value)
  }

  /**
   * What the choice `c` asks for to select a symbol: the prompts of its members, and the conditions of its
   * defaults.
   */
  ghost predicate SelectionReads(sys: System, c: Symbol, r: Symbol)
    requires Proper(sys) && c in sys.groups
  {
    CondReads(sys, c, r) || exists i :: 0 <= i < |sys.groups[c]| && PromptReads(sys, sys.groups[c][i], r)
  }

  /** The calculation of `s` may ask for `r`. */
  ghost predicate Reads(sys: System, s: Symbol, r: Symbol)
    requires Proper(sys) && s in sys.defs
  {
    || OwnReads(sys, s, r)
    || if s in sys.groups then SelectionReads(sys, s, r) && r != s
       else CondReads(sys, s, r) || ValueReads(sys, s, r)
  }

  /** Among the symbols that are not yet calculated, what a symbol reads is of lower rank. */
  ghost predicate Ordered(sys: System, rank: Symbol -> nat, valid: set<Symbol>)
    requires Proper(sys)
  {
    forall s, r :: s in sys.defs && s !in valid && r in sys.defs && r !in valid && Reads(sys, s, r) ==>
      rank(r) < rank(s)
  }

  /** What is still to be calculated of an expression is of a rank below `b`. */
  ghost predicate Low(sys: System, rank: Symbol -> nat, valid: set<Symbol>, b: nat, e: Option<Expr>) {
    forall r :: r in DepRefs(e) && r in sys.defs && r !in valid ==> rank(r) < b
  }

  // ----- right values -----

  /** The symbol `s` has the value that its definition gives it, all that was asked for being calculated. */
  ghost predicate RightAt(sys: System, u: Cells, k: Snapshot, s: Symbol)
    requires Fit(sys, u) && Fit(sys, k.cells)
  {
    && s in sys.defs
    && var v := Val(sys, k.cells);
       if s in sys.groups then
         exists shown :: ChoiceReady(sys, k.valid, s, u, v, shown) && k.cells[s] == ChoiceCell(sys, s, u, v, shown)
       else if s in sys.choiceOf then
         && MemberReady(sys, k.valid, s, u[s], v)
         && k.cells[s] == MemberCell(sys, s, u[s], v, k.cells[sys.choiceOf[s]].sel)
       else SymbolReady(sys, k.valid, s, u[s], v) && k.cells[s] == SymbolCell(sys, s, u[s], v)
  }

  predicate UpToVisible(a: Cell, b: Cell) { b == a.(visible := b.visible) }

  /**
   * The cell of `s` is unchanged; only the visibility of a member changes when its choice is
   * calculated, or is one of those in `open`.
   */
  ghost predicate Kept(sys: System, open: set<Symbol>, k0: Snapshot, k1: Snapshot, s: Symbol) {
    && s in k0.cells && s in k1.cells && UpToVisible(k0.cells[s], k1.cells[s])
    && (k1.cells[s].visible != k0.cells[s].visible ==>
          && s in sys.choiceOf
          && ((sys.choiceOf[s] in k1.valid && sys.choiceOf[s] !in k0.valid) || sys.choiceOf[s] in open))
  }

  /** From `k0` to `k1` symbols of ranks below `b` were calculated, and rightly so; all others are as they were. */
  ghost predicate Advanced(sys: System, rank: Symbol -> nat, b: nat, open: set<Symbol>, k0: Snapshot, k1: Snapshot) {
    && Fit(sys, k0.cells) && Fit(sys, k1.cells) && k0.valid <= k1.valid
    && (forall s :: s in sys.defs && (s in k0.valid || s !in k1.valid) ==> Kept(sys, open, k0, k1, s))
    && (forall s :: s in k1.valid && s !in k0.valid ==> s in sys.defs && rank(s) < b && RightAt(sys, k0.cells, k1, s))
  }

  lemma ValSame(sys: System, valid: set<Symbol>, c1: Cells, c2: Cells)
    requires c1.Keys == sys.defs.Keys == c2.Keys
    requires forall s :: s in valid && s in sys.defs ==> c2[s].tri == c1[s].tri
    ensures Same(sys, valid, Val(sys, c1), Val(sys, c2))
  {
  }

  lemma ValText(sys: System, cells: Cells)
    requires cells.Keys == sys.defs.Keys
    ensures TextFits(sys, Val(sys, cells))
  {
  }

  /** More symbols being calculated, what was ready still is. */
  lemma {:induction false} DefaultsReadyGrows(sys: System, a: set<Symbol>, b: set<Symbol>, d: seq<Default>, k: nat,
                                              v: Valuation)
    requires k <= |d| && a <= b && DefaultsReady(sys, a, d, k, v)
    ensures DefaultsReady(sys, b, d, k, v)
    decreases |d| - k
  {
    if k < |d| && EvalDep(d[k].cond, v) == NO { DefaultsReadyGrows(sys, a, b, d, k + 1, v); }
  }

  lemma {:induction false} CondsReadyGrows(sys: System, a: set<Symbol>, b: set<Symbol>, c: Symbol,
                                           seen: seq<Choice.Member>, env: Choice.Inputs, k: nat)
    requires c in sys.defs && |env.defaults| == |sys.defs[c].defaults| && k <= |env.defaults|
    requires a <= b && CondsReady(sys, a, c, seen, env, k)
    ensures CondsReady(sys, b, c, seen, env, k)
    decreases |env.defaults| - k
  {
    if k < |env.defaults| && (env.defaults[k].cond == NO || Choice.VisibleOf(seen, env, env.defaults[k].target) == NO) {
      CondsReadyGrows(sys, a, b, c, seen, env, k + 1);
    }
  }

  lemma OwnReadyGrows(sys: System, a: set<Symbol>, b: set<Symbol>, s: Symbol, v: Valuation)
    requires s in sys.defs && a <= b && OwnReady(sys, a, s, v)
    ensures OwnReady(sys, b, s, v)
  {
    hide DirTri;
  }

  lemma ChoiceReadyGrows(sys: System, a: set<Symbol>, b: set<Symbol>, c: Symbol, u: Cells, v: Valuation,
                         shown: nat -> Tristate)
    requires Fit(sys, u) && c in sys.groups && a <= b && ChoiceReady(sys, a, c, u, v, shown)
    ensures ChoiceReady(sys, b, c, u, v, shown)
  {
    hide OwnReady, ChoiceValue, SeenMembers, InputsOf;
    OwnReadyGrows(sys, a - {c}, b - {c}, c, v);
    if ChoiceValue(sys, c, u, v, shown) == YES { SelectionReadyGrows(sys, a, b, c, u, v, shown); }
  }

  lemma SelectionReadyGrows(sys: System, a: set<Symbol>, b: set<Symbol>, c: Symbol, u: Cells, v: Valuation,
                            shown: nat -> Tristate)
    requires Fit(sys, u) && c in sys.groups && a <= b && SelectionReady(sys, a, c, u, v, shown)
    ensures SelectionReady(sys, b, c, u, v, shown)
  {
    hide SeenMembers;
    var seen := SeenMembers(sys, c, u, v, shown);
    SeenSize(sys, c, u, v, shown);
    var user := u[c].defSel;
    if user.None? || seen[user.value].visible == NO {
      CondsReadyGrows(sys, a, b, c, seen, InputsOf(sys, c, v, shown, {}), 0);
    }
  }

  /** A prompt of a member of a choice that is not calculated is not ready. */
  lemma ReadyMember(sys: System, valid: set<Symbol>, m: Symbol)
    requires Proper(sys) && m in sys.choiceOf && PromptsReady(sys, valid, m) && sys.defs[m].prompts != []
    ensures sys.choiceOf[m] in valid
  {
    assert sys.choiceOf[m] in DepRefs(sys.defs[m].prompts[0]) && Ready(sys, valid, sys.defs[m].prompts[0]);
  }

  /** A member without prompts does not depend on the selection. */
  lemma UnseenMember(sys: System, m: Symbol, u: Cell, v: Valuation, sel1: Option<nat>, sel2: Option<nat>)
    requires Proper(sys) && m in sys.choiceOf && sys.defs[m].prompts == [] && TextFits(sys, v)
    ensures MemberCell(sys, m, u, v, sel1) == MemberCell(sys, m, u, v, sel2)
    ensures MemberCell(sys, m, u, v, sel1).visible == NO
  {
    hide MemberCell, Proper, TextFits;
    ProperMember(sys, m);
    MemberCellIs(sys, m, u, v, sel1);
    MemberCellIs(sys, m, u, v, sel2);
    assert PromptTris(sys, m, v) == [];
  }

  /** A right value stays right while nothing it depends on changes. */
  lemma RightKept(sys: System, u1: Cells, k1: Snapshot, u2: Cells, k2: Snapshot, s: Symbol)
    requires Fit(sys, u1) && Fit(sys, u2) && Fit(sys, k1.cells) && Fit(sys, k2.cells) && k1.valid <= k2.valid
    requires RightAt(sys, u1, k1, s) && k2.cells[s] == k1.cells[s]
    requires forall r :: r in k1.valid && r in sys.defs && (s in sys.groups ==> r != s) ==>
               k2.cells[r].tri == k1.cells[r].tri && k2.cells[r].sel == k1.cells[r].sel
    requires if s in sys.groups then SameUsers(sys, s, u1, u2) else UpToVisible(u1[s], u2[s])
    ensures RightAt(sys, u2, k2, s)
  {
    hide Same, Fit, SymbolCell, MemberCell, ChoiceCell, ChoiceReady, MemberReady, SymbolReady, Proper;
    var v1, v2 := Val(sys, k1.cells), Val(sys, k2.cells);
    FitFacts(sys, u1);
    FitFacts(sys, u2);
    FitFacts(sys, k1.cells);
    FitFacts(sys, k2.cells);
    if s in sys.groups {
      var shown :| ChoiceReady(sys, k1.valid, s, u1, v1, shown) && k1.cells[s] == ChoiceCell(sys, s, u1, v1, shown);
      ValSame(sys, k1.valid - {s}, k1.cells, k2.cells);
      ChoiceSame(sys, k1.valid, s, u1, u2, v1, v2, shown);
      ChoiceReadyGrows(sys, k1.valid, k2.valid, s, u2, v2, shown);
    } else if s in sys.choiceOf {
      MemberKept(sys, u1[s], k1, u2[s], k2, s);
    } else {
      SymbolKept(sys, u1[s], k1, u2[s], k2, s);
    }
  }

  lemma FitFacts(sys: System, cells: Cells)
    requires Fit(sys, cells)
    ensures Proper(sys) && cells.Keys == sys.defs.Keys && TextFits(sys, Val(sys, cells))
  {
    ValText(sys, cells);
  }

  lemma SymbolKept(sys: System, u1: Cell, k1: Snapshot, u2: Cell, k2: Snapshot, s: Symbol)
    requires Proper(sys) && s in sys.defs && k1.cells.Keys == sys.defs.Keys == k2.cells.Keys && k1.valid <= k2.valid
    requires SymbolReady(sys, k1.valid, s, u1, Val(sys, k1.cells)) && UpToVisible(u1, u2)
    requires forall r :: r in k1.valid && r in sys.defs ==> k2.cells[r].tri == k1.cells[r].tri
    ensures SymbolReady(sys, k2.valid, s, u2, Val(sys, k2.cells))
    ensures SymbolCell(sys, s, u2, Val(sys, k2.cells)) == SymbolCell(sys, s, u1, Val(sys, k1.cells))
  {
    hide Same, PromptTris, DefaultsReady, OwnReady, Proper;
    var v2 := Val(sys, k2.cells);
    ValSame(sys, k1.valid, k1.cells, k2.cells);
    SymbolSame(sys, k1.valid, s, u1, Val(sys, k1.cells), v2);
    OwnReadyGrows(sys, k1.valid, k2.valid, s, v2);
    if Visible(sys, s, v2) == NO || !u2.user {
      DefaultsReadyGrows(sys, k1.valid, k2.valid, sys.defs[s].defaults, 0, v2);
    }
  }

  lemma MemberKept(sys: System, u1: Cell, k1: Snapshot, u2: Cell, k2: Snapshot, s: Symbol)
    requires Proper(sys) && s in sys.choiceOf && k1.cells.Keys == sys.defs.Keys == k2.cells.Keys && k1.valid <= k2.valid
    requires MemberReady(sys, k1.valid, s, u1, Val(sys, k1.cells)) && UpToVisible(u1, u2)
    requires forall r :: r in k1.valid && r in sys.defs ==>
               k2.cells[r].tri == k1.cells[r].tri && k2.cells[r].sel == k1.cells[r].sel
    ensures MemberReady(sys, k2.valid, s, u2, Val(sys, k2.cells))
    ensures MemberCell(sys, s, u2, Val(sys, k2.cells), k2.cells[sys.choiceOf[s]].sel)
         == MemberCell(sys, s, u1, Val(sys, k1.cells), k1.cells[sys.choiceOf[s]].sel)
  {
    hide Same, PromptTris, DefaultsReady, MemberCell, PromptsReady;
    var v1, v2, c := Val(sys, k1.cells), Val(sys, k2.cells), sys.choiceOf[s];
    var sel1, sel2 := k1.cells[c].sel, k2.cells[c].sel;
    ValSame(sys, k1.valid, k1.cells, k2.cells);
    ValText(sys, k1.cells);
    ValText(sys, k2.cells);
    MemberSame(sys, k1.valid, s, u1, v1, v2, sel1);
    MemberCellIs(sys, s, u1, v2, sel1);
    MemberCellIs(sys, s, u2, v2, sel1);
    MemberCellIs(sys, s, u2, v2, sel2);
    PromptsReadyGrows(sys, k1.valid, k2.valid, s);
    if sys.defs[s].prompts == [] {
      UnseenMember(sys, s, u2, v2, sel1, sel2);
    } else {
      ReadyMember(sys, k1.valid, s);
    }
    if Visible(sys, s, v2) != YES && (Visible(sys, s, v2) == NO || !u2.user) {
      DefaultsReadyGrows(sys, k1.valid, k2.valid, sys.defs[s].defaults, 0, v2);
    }
  }

  lemma PromptsReadyGrows(sys: System, a: set<Symbol>, b: set<Symbol>, s: Symbol)
    requires s in sys.defs && a <= b && PromptsReady(sys, a, s)
    ensures PromptsReady(sys, b, s)
  {
  }

  // ----- progress -----

  lemma AdvancedNothing(sys: System, rank: Symbol -> nat, b: nat, k: Snapshot)
    requires Fit(sys, k.cells)
    ensures Advanced(sys, rank, b, {}, k, k)
  {
  }

  /** What the user set stays, except that the calculation of a choice may drop that the user set it. */
  lemma UsersKept(sys: System, rank: Symbol -> nat, b: nat, open: set<Symbol>, k0: Snapshot, k1: Snapshot, c: Symbol)
    requires Advanced(sys, rank, b, open, k0, k1) && c in sys.groups && c !in k1.valid
    ensures SameUsers(sys, c, k0.cells, k1.cells)
  {
    hide SymbolReady, MemberReady, ChoiceReady, MemberCell, ChoiceCell, SymbolCell;
    forall i | 0 <= i < |sys.groups[c]| ensures SameUser(k0.cells, k1.cells, sys.groups[c][i]) {
      MemberUser(sys, rank, b, open, k0, k1, sys.groups[c][i]);
    }
  }

  lemma MemberUser(sys: System, rank: Symbol -> nat, b: nat, open: set<Symbol>, k0: Snapshot, k1: Snapshot, m: Symbol)
    requires Advanced(sys, rank, b, open, k0, k1) && m in sys.choiceOf
    ensures SameUser(k0.cells, k1.cells, m)
  {
    hide SymbolReady, MemberReady, ChoiceReady, ChoiceCell, SymbolCell;
    FitFacts(sys, k0.cells);
    ProperMember(sys, m);
    if m in k0.valid || m !in k1.valid {
      assert Kept(sys, open, k0, k1, m);
    } else {
      assert RightAt(sys, k0.cells, k1, m);
    }
  }

  /** A calculated member that has prompts has its choice calculated. */
  lemma RightMember(sys: System, u: Cells, k: Snapshot, m: Symbol)
    requires Fit(sys, u) && Fit(sys, k.cells) && RightAt(sys, u, k, m) && m in sys.choiceOf && sys.defs[m].prompts != []
    ensures sys.choiceOf[m] in k.valid
  {
    hide MemberCell;
    ReadyMember(sys, k.valid, m);
  }

  lemma KeptTransitive(sys: System, open: set<Symbol>, k0: Snapshot, k1: Snapshot, k2: Snapshot, s: Symbol)
    requires Kept(sys, open, k0, k1, s) && Kept(sys, {}, k1, k2, s) && k0.valid <= k1.valid <= k2.valid
    ensures Kept(sys, open, k0, k2, s)
  {
  }

  /** A symbol calculated in the first part is not touched in the second. */
  lemma CalculatedStays(sys: System, rank: Symbol -> nat, b: nat, open: set<Symbol>, k0: Snapshot, k1: Snapshot,
                        k2: Snapshot, s: Symbol)
    requires Advanced(sys, rank, b, open, k0, k1) && Advanced(sys, rank, b, {}, k1, k2) && s in k1.valid
             && s !in k0.valid
    ensures s in sys.defs && k2.cells[s] == k1.cells[s]
  {
    hide SymbolReady, MemberReady, ChoiceReady, MemberCell, ChoiceCell, SymbolCell, RightAt;
    assert RightAt(sys, k0.cells, k1, s) && Kept(sys, {}, k1, k2, s);
    if k2.cells[s].visible != k1.cells[s].visible {
      assert s in sys.choiceOf;
      if sys.defs[s].prompts != [] { RightMember(sys, k0.cells, k1, s); }
    }
  }

  lemma AdvancedTransitive(sys: System, rank: Symbol -> nat, b: nat, open: set<Symbol>, k0: Snapshot, k1: Snapshot,
                           k2: Snapshot)
    requires Advanced(sys, rank, b, open, k0, k1) && Advanced(sys, rank, b, {}, k1, k2)
    ensures Advanced(sys, rank, b, open, k0, k2)
  {
    hide RightAt, Fit, Proper;
    forall s | s in sys.defs && (s in k0.valid || s !in k2.valid) ensures Kept(sys, open, k0, k2, s) {
      KeptTransitive(sys, open, k0, k1, k2, s);
    }
    forall s | s in k2.valid && s !in k0.valid ensures s in sys.defs && rank(s) < b && RightAt(sys, k0.cells, k2, s) {
      if s in k1.valid {
        FirstStaysRight(sys, rank, b, open, k0, k1, k2, s);
      } else {
        SecondIsRight(sys, rank, b, open, {}, k0, k1, k2, s);
      }
    }
  }

  lemma FirstStaysRight(sys: System, rank: Symbol -> nat, b: nat, open: set<Symbol>, k0: Snapshot, k1: Snapshot,
                        k2: Snapshot, s: Symbol)
    requires Advanced(sys, rank, b, open, k0, k1) && Advanced(sys, rank, b, {}, k1, k2) && s in k1.valid
             && s !in k0.valid
    ensures RightAt(sys, k0.cells, k2, s)
  {
    hide RightAt, Fit, Proper;
    CalculatedStays(sys, rank, b, open, k0, k1, k2, s);
    forall r | r in k1.valid && r in sys.defs
      ensures k2.cells[r].tri == k1.cells[r].tri && k2.cells[r].sel == k1.cells[r].sel
    {
      assert Kept(sys, {}, k1, k2, r);
    }
    SelfSame(sys, k0.cells, s);
    RightKept(sys, k0.cells, k1, k0.cells, k2, s);
  }

  lemma SelfSame(sys: System, u: Cells, s: Symbol)
    requires Fit(sys, u) && s in sys.defs
    ensures if s in sys.groups then SameUsers(sys, s, u, u) else UpToVisible(u[s], u[s])
  {
  }

  lemma SecondIsRight(sys: System, rank: Symbol -> nat, b: nat, open: set<Symbol>, open2: set<Symbol>, k0: Snapshot,
                      k1: Snapshot, k2: Snapshot, s: Symbol)
    requires Advanced(sys, rank, b, open, k0, k1) && Advanced(sys, rank, b, open2, k1, k2) && s in k2.valid
             && s !in k1.valid
    ensures RightAt(sys, k0.cells, k2, s)
  {
    hide RightAt, Fit, Proper;
    assert RightAt(sys, k1.cells, k2, s) && Kept(sys, open, k0, k1, s);
    if s in sys.groups {
      UsersKept(sys, rank, b, open, k0, k1, s);
      UsersSymmetric(sys, s, k0.cells, k1.cells);
    }
    RightKept(sys, k1.cells, k2, k0.cells, k2, s);
  }

  lemma UsersSymmetric(sys: System, c: Symbol, u1: Cells, u2: Cells)
    requires c in sys.groups && SameUsers(sys, c, u1, u2)
    ensures SameUsers(sys, c, u2, u1)
  {
  }

  lemma OrderedGrows(sys: System, rank: Symbol -> nat, a: set<Symbol>, b: set<Symbol>)
    requires Proper(sys) && Ordered(sys, rank, a) && a <= b
    ensures Ordered(sys, rank, b)
  {
    hide Reads, Proper;
  }

  /** What was ready and had a value still has it after more was calculated. */
  lemma ValueStays(sys: System, rank: Symbol -> nat, b: nat, k0: Snapshot, k1: Snapshot)
    requires Advanced(sys, rank, b, {}, k0, k1)
    ensures Same(sys, k0.valid, Val(sys, k0.cells), Val(sys, k1.cells))
  {
    hide RightAt;
    FitFacts(sys, k0.cells);
    FitFacts(sys, k1.cells);
    forall s | s in k0.valid && s in sys.defs ensures k1.cells[s].tri == k0.cells[s].tri {
      assert Kept(sys, {}, k0, k1, s);
    }
    ValSame(sys, k0.valid, k0.cells, k1.cells);
  }

  lemma DepStays(sys: System, rank: Symbol -> nat, b: nat, k0: Snapshot, k1: Snapshot, e: Option<Expr>)
    requires Advanced(sys, rank, b, {}, k0, k1) && Ready(sys, k0.valid, e)
    ensures Ready(sys, k1.valid, e) && EvalDep(e, Val(sys, k1.cells)) == EvalDep(e, Val(sys, k0.cells))
    ensures RevTri(e, Val(sys, k1.cells)) == RevTri(e, Val(sys, k0.cells))
  {
    ValueStays(sys, rank, b, k0, k1);
    DepSame(sys, k0.valid, e, Val(sys, k0.cells), Val(sys, k1.cells));
  }

  lemma LowGrows(sys: System, rank: Symbol -> nat, v0: set<Symbol>, v1: set<Symbol>, b: nat, e: Option<Expr>)
    requires Low(sys, rank, v0, b, e) && v0 <= v1
    ensures Low(sys, rank, v1, b, e)
  {
  }

  /** The first prompts of `s` are ready, and `v` is the highest of them. */
  ghost predicate PromptsSoFar(sys: System, k: Snapshot, s: Symbol, n: nat, v: Tristate)
    requires s in sys.defs && n <= |sys.defs[s].prompts|
  {
    && (forall j :: 0 <= j < n ==> Ready(sys, k.valid, sys.defs[s].prompts[j]))
    && v == Choice.Highest(PromptTris(sys, s, Val(sys, k.cells))[..n])
  }

  lemma PromptsSoFarStep(sys: System, rank: Symbol -> nat, b: nat, k0: Snapshot, k1: Snapshot, s: Symbol, n: nat,
                         v: Tristate)
    requires Advanced(sys, rank, b, {}, k0, k1) && s in sys.defs && n < |sys.defs[s].prompts|
    requires PromptsSoFar(sys, k0, s, n, v) && Ready(sys, k1.valid, sys.defs[s].prompts[n])
    ensures PromptsSoFar(sys, k1, s, n + 1, TriOr(v, PromptTri(sys, s, sys.defs[s].prompts[n], Val(sys, k1.cells))))
  {
    hide Advanced, Ready, Proper, Fit;
    AdvancedFit(sys, rank, b, k0, k1);
    var p := sys.defs[s].prompts;
    var t0, t1 := PromptTris(sys, s, Val(sys, k0.cells)), PromptTris(sys, s, Val(sys, k1.cells));
    forall j | 0 <= j < n ensures t0[j] == t1[j] && Ready(sys, k1.valid, p[j]) {
      PromptStays(sys, rank, b, k0, k1, s, j);
    }
    assert t0[..n] == t1[..n] && t1[..n + 1] == t1[..n] + [t1[n]];
    HighestSnoc(t1[..n], t1[n]);
  }

  lemma HighestSnoc(ts: seq<Tristate>, t: Tristate)
    ensures Choice.Highest(ts + [t]) == TriOr(Choice.Highest(ts), t)
  {
    assert (ts + [t])[..|ts|] == ts;
  }

  lemma AdvancedFit(sys: System, rank: Symbol -> nat, b: nat, k0: Snapshot, k1: Snapshot)
    requires Advanced(sys, rank, b, {}, k0, k1)
    ensures Fit(sys, k0.cells) && Fit(sys, k1.cells) && Proper(sys) && k0.valid <= k1.valid
  {
  }

  lemma PromptStays(sys: System, rank: Symbol -> nat, b: nat, k0: Snapshot, k1: Snapshot, s: Symbol, j: nat)
    requires Advanced(sys, rank, b, {}, k0, k1) && s in sys.defs && j < |sys.defs[s].prompts|
    requires Ready(sys, k0.valid, sys.defs[s].prompts[j])
    ensures Ready(sys, k1.valid, sys.defs[s].prompts[j])
    ensures PromptTri(sys, s, sys.defs[s].prompts[j], Val(sys, k0.cells))
            == PromptTri(sys, s, sys.defs[s].prompts[j], Val(sys, k1.cells))
  {
    hide Advanced;
    AdvancedFit(sys, rank, b, k0, k1);
    var p := sys.defs[s].prompts[j];
    DepStays(sys, rank, b, k0, k1, p);
    ValueStays(sys, rank, b, k0, k1);
    if s in sys.choiceOf { assert sys.choiceOf[s] in DepRefs(p); }
  }

  /** Nothing of what `s` reads is of rank `b` or above. */
  ghost predicate LowPrompts(sys: System, rank: Symbol -> nat, valid: set<Symbol>, b: nat, s: Symbol)
    requires s in sys.defs
  {
    forall k :: 0 <= k < |sys.defs[s].prompts| ==> Low(sys, rank, valid, b, sys.defs[s].prompts[k])
  }

  lemma LowPromptsGrow(sys: System, rank: Symbol -> nat, a: set<Symbol>, v: set<Symbol>, b: nat, s: Symbol)
    requires s in sys.defs && LowPrompts(sys, rank, a, b, s) && a <= v
    ensures LowPrompts(sys, rank, v, b, s)
  {
    hide DepRefs;
  }

  ghost predicate LowDefaults(sys: System, rank: Symbol -> nat, valid: set<Symbol>, b: nat, s: Symbol)
    requires s in sys.defs
  {
    forall k :: 0 <= k < |sys.defs[s].defaults| ==>
      && Low(sys, rank, valid, b, sys.defs[s].defaults[k].cond)
      && Low(sys, rank, valid, b, Some(sys.defs[s].defaults[k].value))
  }

  /** The defaults of `s` before number `n` were looked at and do not count. */
  ghost predicate DefaultsSoFar(sys: System, k: Snapshot, s: Symbol, n: nat)
    requires s in sys.defs && n <= |sys.defs[s].defaults|
  {
    forall j :: 0 <= j < n ==>
      Ready(sys, k.valid, sys.defs[s].defaults[j].cond)
        && EvalDep(sys.defs[s].defaults[j].cond, Val(sys, k.cells)) == NO
  }

  lemma DefaultsSoFarStays(sys: System, rank: Symbol -> nat, b: nat, k0: Snapshot, k1: Snapshot, s: Symbol, n: nat)
    requires Advanced(sys, rank, b, {}, k0, k1) && s in sys.defs && n <= |sys.defs[s].defaults|
             && DefaultsSoFar(sys, k0, s, n)
    ensures DefaultsSoFar(sys, k1, s, n)
  {
    hide Advanced, Ready;
    forall j | 0 <= j < n
      ensures Ready(sys, k1.valid, sys.defs[s].defaults[j].cond)
      ensures EvalDep(sys.defs[s].defaults[j].cond, Val(sys, k1.cells)) == NO
    {
      DepStays(sys, rank, b, k0, k1, sys.defs[s].defaults[j].cond);
    }
  }

  /** Defaults that do not count do not change what the others give. */
  lemma {:induction false} SkipDefaults(sys: System, k: Snapshot, s: Symbol, i: nat, n: nat)
    requires s in sys.defs && i <= n <= |sys.defs[s].defaults| && DefaultsSoFar(sys, k, s, n)
    ensures var d, v := sys.defs[s].defaults, Val(sys, k.cells);
            && DefaultTri(d, i, v) == DefaultTri(d, n, v)
            && (DefaultsReady(sys, k.valid, d, i, v) <==> DefaultsReady(sys, k.valid, d, n, v))
    decreases n - i
  {
    if i < n { SkipDefaults(sys, k, s, i + 1, n); }
  }

  // ----- a symbol that the others do not read -----

  lemma ReadyWithout(sys: System, valid: set<Symbol>, e: Option<Expr>, x: Symbol)
    requires Ready(sys, valid, e) && x !in DepRefs(e)
    ensures Ready(sys, valid - {x}, e)
  {
  }

  lemma PromptsReadyWithout(sys: System, valid: set<Symbol>, s: Symbol, x: Symbol)
    requires s in sys.defs && PromptsReady(sys, valid, s) && !PromptReads(sys, s, x)
    ensures PromptsReady(sys, valid - {x}, s)
  {
    forall k | 0 <= k < |sys.defs[s].prompts| ensures Ready(sys, valid - {x}, sys.defs[s].prompts[k]) {
      ReadyWithout(sys, valid, sys.defs[s].prompts[k], x);
    }
  }

  lemma OwnReadyWithout(sys: System, valid: set<Symbol>, s: Symbol, v: Valuation, x: Symbol)
    requires s in sys.defs && OwnReady(sys, valid, s, v) && !OwnReads(sys, s, x)
    ensures OwnReady(sys, valid - {x}, s, v)
  {
    hide DirTri, Ready, PromptReads;
    PromptsReadyWithout(sys, valid, s, x);
    ReadyWithout(sys, valid, sys.defs[s].dir, x);
    ReadyWithout(sys, valid, sys.defs[s].rev, x);
    if DirTri(sys, s, v) != NO { ReadyWithout(sys, valid, sys.defs[s].implied, x); }
  }

  lemma {:induction false} DefaultsReadyWithout(sys: System, valid: set<Symbol>, s: Symbol, k: nat, v: Valuation,
                                                x: Symbol)
    requires s in sys.defs && k <= |sys.defs[s].defaults| && DefaultsReady(sys, valid, sys.defs[s].defaults, k, v)
    requires !CondReads(sys, s, x) && !ValueReads(sys, s, x)
    ensures DefaultsReady(sys, valid - {x}, sys.defs[s].defaults, k, v)
    decreases |sys.defs[s].defaults| - k
  {
    hide Ready;
    var d := sys.defs[s].defaults;
    if k < |d| {
      ReadyWithout(sys, valid, d[k].cond, x);
      if EvalDep(d[k].cond, v) != NO { ReadyWithout(sys, valid, Some(d[k].value), x); }
      else { DefaultsReadyWithout(sys, valid, s, k + 1, v, x); }
    }
  }

  lemma {:induction false} CondsReadyWithout(sys: System, valid: set<Symbol>, c: Symbol, seen: seq<Choice.Member>,
                                             env: Choice.Inputs, k: nat, x: Symbol)
    requires c in sys.defs && |env.defaults| == |sys.defs[c].defaults| && k <= |env.defaults|
    requires CondsReady(sys, valid, c, seen, env, k) && !CondReads(sys, c, x)
    ensures CondsReady(sys, valid - {x}, c, seen, env, k)
    decreases |env.defaults| - k
  {
    hide Ready;
    if k < |env.defaults| {
      ReadyWithout(sys, valid, sys.defs[c].defaults[k].cond, x);
      if env.defaults[k].cond == NO || Choice.VisibleOf(seen, env, env.defaults[k].target) == NO {
        CondsReadyWithout(sys, valid, c, seen, env, k + 1, x);
      }
    }
  }

  lemma ChoiceReadyWithout(sys: System, valid: set<Symbol>, c: Symbol, u: Cells, v: Valuation, shown: nat -> Tristate,
                           x: Symbol)
    requires Fit(sys, u) && c in sys.groups && x != c && ChoiceReady(sys, valid, c, u, v, shown) && !Reads(sys, c, x)
    ensures ChoiceReady(sys, valid - {x}, c, u, v, shown)
  {
    hide OwnReady, ChoiceValue, SelectionReady, InputsOf, OwnReads, SelectionReads;
    OwnReadyWithout(sys, valid - {c}, c, v, x);
    assert valid - {c} - {x} == valid - {x} - {c};
    if ChoiceValue(sys, c, u, v, shown) == YES { SelectionReadyWithout(sys, valid, c, u, v, shown, x); }
  }

  lemma SelectionReadyWithout(sys: System, valid: set<Symbol>, c: Symbol, u: Cells, v: Valuation,
                              shown: nat -> Tristate, x: Symbol)
    requires Fit(sys, u) && c in sys.groups && SelectionReady(sys, valid, c, u, v, shown) && !SelectionReads(sys, c, x)
    ensures SelectionReady(sys, valid - {x}, c, u, v, shown)
  {
    hide SeenMembers, PromptReads, PromptsReady, CondsReady;
    var seen := SeenMembers(sys, c, u, v, shown);
    SeenSize(sys, c, u, v, shown);
    forall i | 0 <= i < |sys.groups[c]| ensures PromptsReady(sys, valid - {x}, sys.groups[c][i]) {
      PromptsReadyWithout(sys, valid, sys.groups[c][i], x);
    }
    var user := u[c].defSel;
    if user.None? || seen[user.value].visible == NO {
      CondsReadyWithout(sys, valid, c, seen, InputsOf(sys, c, v, shown, {}), 0, x);
    }
  }

  lemma RightWithout(sys: System, u: Cells, k: Snapshot, s: Symbol, x: Symbol)
    requires Fit(sys, u) && Fit(sys, k.cells) && RightAt(sys, u, k, s) && x != s && !Reads(sys, s, x)
    ensures RightAt(sys, u, Snapshot(k.cells, k.valid - {x}), s)
  {
    hide ChoiceReady, OwnReady, OwnReads, PromptReads, ChoiceCell, MemberCell, SymbolCell;
    hide CondReads, ValueReads, SelectionReads, Fit;
    FitFacts(sys, u);
    FitFacts(sys, k.cells);
    var v, d := Val(sys, k.cells), sys.defs[s].defaults;
    if s in sys.groups {
      var shown :| ChoiceReady(sys, k.valid, s, u, v, shown) && k.cells[s] == ChoiceCell(sys, s, u, v, shown);
      ChoiceReadyWithout(sys, k.valid, s, u, v, shown, x);
    } else if s in sys.choiceOf {
      assert !OwnReads(sys, s, x);
      OwnIsPrompt(sys, s, x);
      PromptsReadyWithout(sys, k.valid, s, x);
      if Visible(sys, s, v) != YES && (Visible(sys, s, v) == NO || !u[s].user) {
        DefaultsReadyWithout(sys, k.valid, s, 0, v, x);
      }
    } else {
      OwnReadyWithout(sys, k.valid, s, v, x);
      if Visible(sys, s, v) == NO || !u[s].user { DefaultsReadyWithout(sys, k.valid, s, 0, v, x); }
    }
  }

  lemma OwnIsPrompt(sys: System, s: Symbol, x: Symbol)
    requires s in sys.defs && !OwnReads(sys, s, x)
    ensures !PromptReads(sys, s, x)
  {
  }

  /** What the user set is the same of `s`, if only the cell of `x` differs. */
  lemma SameAround(sys: System, u1: Cells, u2: Cells, s: Symbol, x: Symbol)
    requires Proper(sys) && u1.Keys == sys.defs.Keys == u2.Keys && s in sys.defs && x != s && SameUser(u1, u2, x)
    requires forall r :: r in sys.defs && r != x ==> u2[r] == u1[r]
    ensures if s in sys.groups then SameUsers(sys, s, u1, u2) else UpToVisible(u1[s], u2[s])
  {
    if s in sys.groups { FitMembers(sys, s); }
  }

  /** A write to a symbol that newly calculated symbols do not read leaves them right. */
  lemma RightAround(sys: System, u1: Cells, u2: Cells, k: Snapshot, s: Symbol, x: Symbol, cell: Cell)
    requires Fit(sys, u1) && Fit(sys, u2) && Fit(sys, k.cells) && RightAt(sys, u1, k, s)
    requires Fit(sys, k.cells[x := cell]) && x in sys.defs && x != s && !Reads(sys, s, x)
    requires forall r :: r in sys.defs && r != x ==> u2[r] == u1[r]
    requires SameUser(u1, u2, x)
    ensures RightAt(sys, u2, Snapshot(k.cells[x := cell], k.valid), s)
  {
    hide *;
    FitFacts(sys, u1);
    FitFacts(sys, u2);
    FitFacts(sys, k.cells);
    RightWithout(sys, u1, k, s, x);
    assert s in sys.defs by { RightDefined(sys, u1, k, s); }
    SameAround(sys, u1, u2, s, x);
    RightKept(sys, u1, Snapshot(k.cells, k.valid - {x}), u2, Snapshot(k.cells[x := cell], k.valid), s);
  }

  lemma RightDefined(sys: System, u: Cells, k: Snapshot, s: Symbol)
    requires Fit(sys, u) && Fit(sys, k.cells) && RightAt(sys, u, k, s)
    ensures s in sys.defs
  {
  }

  /** `x` is valid, and no symbol of a rank below `b` that is still to be calculated reads it. */
  ghost predicate Unread(sys: System, rank: Symbol -> nat, b: nat, valid: set<Symbol>, x: Symbol)
    requires Proper(sys)
  {
    && x in sys.defs && x in valid
    && forall s :: s in sys.defs && s !in valid && Reads(sys, s, x) ==> rank(s) >= b
  }

  /** What was calculated after a write to a symbol not read was calculated rightly without the write, too. */
  lemma Unwrite(sys: System, rank: Symbol -> nat, b: nat, open: set<Symbol>, k: Snapshot, cell: Cell, k2: Snapshot,
                x: Symbol)
    requires Fit(sys, k.cells) && Unread(sys, rank, b, k.valid, x)
    requires SameUser(k.cells, k.cells[x := cell], x)
    requires Advanced(sys, rank, b, open, Snapshot(k.cells[x := cell], k.valid), k2)
    requires UpToVisible(cell, k2.cells[x])
    requires Fit(sys, k2.cells[x := k.cells[x]])
    ensures Advanced(sys, rank, b, open, k, Snapshot(k2.cells[x := k.cells[x]], k2.valid))
  {
    hide RightAt, Fit, Reads;
    var kw, k3 := Snapshot(k.cells[x := cell], k.valid), Snapshot(k2.cells[x := k.cells[x]], k2.valid);
    FitFacts(sys, k.cells);
    forall s | s in sys.defs && (s in k.valid || s !in k3.valid) ensures Kept(sys, open, k, k3, s) {
      assert Kept(sys, open, kw, k2, s);
    }
    forall s | s in k3.valid && s !in k.valid ensures s in sys.defs && rank(s) < b && RightAt(sys, k.cells, k3, s) {
      assert RightAt(sys, kw.cells, k2, s);
      RightAround(sys, kw.cells, k.cells, k2, s, x, k.cells[x]);
    }
  }

  /** The calculation of one symbol, after what it reads was calculated. */
  lemma Finished(sys: System, rank: Symbol -> nat, b: nat, k0: Snapshot, k1: Snapshot, cell: Cell, s: Symbol)
    requires Fit(sys, k0.cells) && Ordered(sys, rank, k0.valid) && s in sys.defs && s !in k0.valid && rank(s) < b
    requires Advanced(sys, rank, rank(s), {s}, Snapshot(k0.cells, k0.valid + {s}), k1)
    requires Fit(sys, k1.cells[s := cell]) && RightAt(sys, k0.cells, Snapshot(k1.cells[s := cell], k1.valid), s)
    ensures Advanced(sys, rank, b, {}, k0, Snapshot(k1.cells[s := cell], k1.valid)) && s in k1.valid
  {
    hide RightAt, Fit, Reads;
    var ka, k2 := Snapshot(k0.cells, k0.valid + {s}), Snapshot(k1.cells[s := cell], k1.valid);
    FitFacts(sys, k0.cells);
    forall x | x in sys.defs && (x in k0.valid || x !in k2.valid) ensures Kept(sys, {}, k0, k2, x) {
      assert Kept(sys, {s}, ka, k1, x);
    }
    forall x | x in k2.valid && x !in k0.valid ensures x in sys.defs && rank(x) < b && RightAt(sys, k0.cells, k2, x) {
      if x != s {
        assert RightAt(sys, ka.cells, k1, x) && !Reads(sys, x, s);
        RightAround(sys, k0.cells, k0.cells, k1, x, s, cell);
      }
    }
  }

  ghost predicate LowOwn(sys: System, rank: Symbol -> nat, valid: set<Symbol>, b: nat, s: Symbol)
    requires s in sys.defs
  {
    && LowPrompts(sys, rank, valid, b, s)
    && Low(sys, rank, valid, b, sys.defs[s].dir) && Low(sys, rank, valid, b, sys.defs[s].rev)
    && Low(sys, rank, valid, b, sys.defs[s].implied)
  }

  /** The visibility and the dependencies of `s` as just calculated. */
  ghost predicate OwnIs(sys: System, k: Snapshot, s: Symbol, visible: Tristate, dir: Tristate, rev: Tristate,
                        implied: Tristate)
    requires s in sys.defs
  {
    var v := Val(sys, k.cells);
    && OwnReady(sys, k.valid, s, v) && visible == Visible(sys, s, v) && dir == DirTri(sys, s, v)
    && rev == Choice.Promoted(s.Kind(), sys.modules, RevTri(sys.defs[s].rev, v)) && implied == ImpliedTri(sys, s, v)
  }

  /** What was read of `s`, which does not read itself, stays when only ranks below are calculated, and `s` written. */
  lemma OwnStays(sys: System, k: Snapshot, f: Snapshot, s: Symbol, visible: Tristate, dir: Tristate, rev: Tristate,
                 implied: Tristate)
    requires Proper(sys) && s in sys.defs && k.cells.Keys == sys.defs.Keys == f.cells.Keys && k.valid <= f.valid
    requires OwnIs(sys, k, s, visible, dir, rev, implied) && !OwnReads(sys, s, s)
    requires forall r :: r in k.valid && r in sys.defs && r != s ==> f.cells[r].tri == k.cells[r].tri
    ensures OwnIs(sys, f, s, visible, dir, rev, implied) && OwnReady(sys, f.valid - {s}, s, Val(sys, f.cells))
  {
    hide OwnReady, OwnReads, PromptTris, Same, RevTri, EvalDep;
    OwnReadyWithout(sys, k.valid, s, Val(sys, k.cells), s);
    ValSame(sys, k.valid - {s}, k.cells, f.cells);
    OwnSame(sys, k.valid - {s}, s, Val(sys, k.cells), Val(sys, f.cells));
    OwnReadyGrows(sys, k.valid - {s}, f.valid - {s}, s, Val(sys, f.cells));
    OwnReadyGrows(sys, f.valid - {s}, f.valid, s, Val(sys, f.cells));
  }

  lemma DefaultsStay(sys: System, k: Snapshot, f: Snapshot, s: Symbol)
    requires Proper(sys) && s in sys.defs && k.cells.Keys == sys.defs.Keys == f.cells.Keys && k.valid <= f.valid
    requires DefaultsReady(sys, k.valid, sys.defs[s].defaults, 0, Val(sys, k.cells)) && !CondReads(sys, s, s)
             && !ValueReads(sys, s, s)
    requires forall r :: r in k.valid && r in sys.defs && r != s ==> f.cells[r].tri == k.cells[r].tri
    ensures DefaultsReady(sys, f.valid, sys.defs[s].defaults, 0, Val(sys, f.cells))
    ensures DefaultTri(sys.defs[s].defaults, 0, Val(sys, f.cells))
            == DefaultTri(sys.defs[s].defaults, 0, Val(sys, k.cells))
  {
    hide CondReads, ValueReads, Same, RevTri, EvalDep;
    var d := sys.defs[s].defaults;
    DefaultsReadyWithout(sys, k.valid, s, 0, Val(sys, k.cells), s);
    ValSame(sys, k.valid - {s}, k.cells, f.cells);
    DefaultsSame(sys, k.valid - {s}, d, 0, Val(sys, k.cells), Val(sys, f.cells));
    DefaultsReadyGrows(sys, k.valid - {s}, f.valid, d, 0, Val(sys, f.cells));
  }

  /** What is calculated stays after a write to `s`, and `s` as it was written. */
  lemma WrittenKept(sys: System, rank: Symbol -> nat, b: nat, k1: Snapshot, kw: Snapshot, k2: Snapshot, s: Symbol)
    requires Fit(sys, k1.cells) && s in sys.defs && s in k1.valid && s in kw.cells
    requires kw == Snapshot(k1.cells[s := kw.cells[s]], k1.valid) && Advanced(sys, rank, b, {}, kw, k2)
    ensures k1.valid <= k2.valid && Fit(sys, k2.cells) && s in k2.cells && UpToVisible(kw.cells[s], k2.cells[s])
    ensures k2.cells[s].visible != kw.cells[s].visible ==> s in sys.choiceOf && sys.choiceOf[s] !in k1.valid
    ensures forall r :: r in k1.valid && r in sys.defs && r != s ==>
              && r in k1.cells && r in k2.cells
              && k2.cells[r].tri == k1.cells[r].tri && k2.cells[r].sel == k1.cells[r].sel
  {
    hide RightAt, Fit;
    assert Kept(sys, {}, kw, k2, s);
    FitFacts(sys, k1.cells);
    FitFacts(sys, k2.cells);
    forall r | r in k1.valid && r in sys.defs && r != s
      ensures r in k1.cells && r in k2.cells && k2.cells[r].tri == k1.cells[r].tri && k2.cells[r].sel == k1.cells[r].sel
    {
      assert Kept(sys, {}, kw, k2, r);
    }
  }

  lemma FitFree(sys: System, cells: Cells, m: Symbol)
    requires Fit(sys, cells) && m in sys.choiceOf
    ensures m in cells && cells[m].rev == NO && cells[m].implied == NO
  {
  }

  /** Progress around one write to a symbol that is not read. */
  lemma AfterWrite(sys: System, rank: Symbol -> nat, b: nat, open: set<Symbol>, k0: Snapshot, k1: Snapshot,
                   kw: Snapshot, k2: Snapshot, s: Symbol)
    requires Advanced(sys, rank, b, open, k0, k1) && Fit(sys, k1.cells) && Unread(sys, rank, b, k1.valid, s)
    requires s in kw.cells && s in k1.cells
    requires kw == Snapshot(k1.cells[s := kw.cells[s]], k1.valid) && SameUser(k1.cells, kw.cells, s)
    requires Advanced(sys, rank, b, {}, kw, k2)
    ensures Fit(sys, k2.cells) && s in k2.cells
            && Advanced(sys, rank, b, open, k0, Snapshot(k2.cells[s := k1.cells[s]], k2.valid))
    ensures k1.valid <= k2.valid && UpToVisible(kw.cells[s], k2.cells[s])
    ensures k2.cells[s].visible != kw.cells[s].visible ==> s in sys.choiceOf && sys.choiceOf[s] !in k1.valid
    ensures forall r :: r in k1.valid && r in sys.defs && r != s ==>
              && r in k1.cells && r in k2.cells
              && k2.cells[r].tri == k1.cells[r].tri && k2.cells[r].sel == k1.cells[r].sel
  {
    assert s in sys.defs && s in k1.valid;
    hide Advanced, RightAt, Fit, Reads, Unread, Kept;
    WrittenKept(sys, rank, b, k1, kw, k2, s);
    if s in sys.choiceOf {
      FitFree(sys, k1.cells, s);
      FitFree(sys, k2.cells, s);
      if sys.defs[s].prompts == [] { FitUnseen(sys, k1.cells, s); }
    }
    FitWrite(sys, k2.cells, s, k1.cells[s]);
    Unwrite(sys, rank, b, {}, k1, kw.cells[s], k2, s);
    AdvancedTransitive(sys, rank, b, open, k0, k1, Snapshot(k2.cells[s := k1.cells[s]], k2.valid));
  }

  /** The user's value of a symbol, or else its default, as just calculated. */
  ghost predicate BaseIs(sys: System, k: Snapshot, s: Symbol, u: Cell, visible: Tristate, implied: Tristate,
                         own: Tristate)
    requires s in sys.defs
  {
    if visible != NO && u.user then own == TriAnd(u.defTri, visible)
    else
      && DefaultsReady(sys, k.valid, sys.defs[s].defaults, 0, Val(sys, k.cells))
      && own == TriOr(DefaultTri(sys.defs[s].defaults, 0, Val(sys, k.cells)), implied)
  }

  lemma FitUnseen(sys: System, cells: Cells, s: Symbol)
    requires Fit(sys, cells) && s in sys.choiceOf && sys.defs[s].prompts == []
    ensures s in cells && cells[s].visible == NO
  {
  }

  predicate Chosen(sys: System, cells: Cells, s: Symbol)
    requires s in sys.choiceOf && sys.choiceOf[s] in sys.groups && s in sys.groups[sys.choiceOf[s]]
             && sys.choiceOf[s] in cells
  {
    cells[sys.choiceOf[s]].sel == Some(Index(sys.groups[sys.choiceOf[s]], s))
  }

  /** The value of a member, from its visibility, as just calculated. */
  ghost predicate MemberIs(sys: System, k: Snapshot, s: Symbol, u: Cell, visible: Tristate, tri: Tristate)
    requires Proper(sys) && s in sys.choiceOf && k.cells.Keys == sys.defs.Keys
  {
    var v, d := Val(sys, k.cells), sys.defs[s].defaults;
    && (visible != YES && (visible == NO || !u.user) ==> DefaultsReady(sys, k.valid, d, 0, v))
    && tri == MemberTri(sys, s, u, visible, DefaultTri(d, 0, v), Chosen(sys, k.cells, s))
  }

  lemma MemberStays(sys: System, k: Snapshot, f: Snapshot, s: Symbol, u: Cell, visible: Tristate, tri: Tristate)
    requires Proper(sys) && s in sys.choiceOf && k.cells.Keys == sys.defs.Keys == f.cells.Keys && k.valid <= f.valid
    requires MemberIs(sys, k, s, u, visible, tri) && !CondReads(sys, s, s) && !ValueReads(sys, s, s)
    requires forall r :: r in sys.defs && r != s ==>
               f.cells[r].tri == k.cells[r].tri && f.cells[r].sel == k.cells[r].sel
    ensures MemberIs(sys, f, s, u, visible, tri)
  {
    hide DefaultsReady, CondReads, ValueReads, DefaultTri, MemberTri;
    NotOwnGroup(sys, s);
    if visible != YES && (visible == NO || !u.user) {
      DefaultsStay(sys, k, f, s);
    } else {
      NoFallback(sys, s, u, visible, DefaultTri(sys.defs[s].defaults, 0, Val(sys, k.cells)),
                 DefaultTri(sys.defs[s].defaults, 0, Val(sys, f.cells)), Chosen(sys, f.cells, s));
    }
  }

  lemma UnseenWrite(sys: System, k: Snapshot, s: Symbol, cells: Cells)
    requires Fit(sys, k.cells) && s in sys.choiceOf && s in k.cells && s in sys.defs
    requires var v := Visible(sys, s, Val(sys, k.cells));
             cells == k.cells[s := k.cells[s].(visible := v)][s := k.cells[s].(visible := v, tri := NO)]
    ensures Fit(sys, cells) && cells == k.cells[s := cells[s]]
  {
    hide Visible, Proper, Fit;
    FitFacts(sys, k.cells);
    if sys.defs[s].prompts == [] { VisibleUnseen(sys, s, Val(sys, k.cells)); }
    var cell := k.cells[s].(visible := Visible(sys, s, Val(sys, k.cells)), tri := NO);
    FitWrite(sys, k.cells, s, cell);
    assert cells == k.cells[s := cell];
  }

  /** A member whose prompts were looked at does not change its visibility any more. */
  lemma SameVisible(sys: System, k: Snapshot, kw: Snapshot, ke: Snapshot, s: Symbol)
    requires Fit(sys, kw.cells) && Fit(sys, ke.cells) && s in sys.choiceOf && s in sys.defs
             && PromptsReady(sys, k.valid, s)
    requires s in kw.cells && s in ke.cells && UpToVisible(kw.cells[s], ke.cells[s])
    requires ke.cells[s].visible != kw.cells[s].visible ==> sys.choiceOf[s] !in k.valid
    ensures ke.cells[s] == kw.cells[s]
  {
    if sys.defs[s].prompts == [] {
      FitUnseen(sys, ke.cells, s);
      FitUnseen(sys, kw.cells, s);
    } else {
      ReadyMember(sys, k.valid, s);
    }
  }

  lemma NotSelfRead(sys: System, s: Symbol)
    requires Proper(sys) && s in sys.defs && s !in sys.groups && !Reads(sys, s, s)
    ensures !PromptReads(sys, s, s) && !CondReads(sys, s, s) && !ValueReads(sys, s, s)
  {
    hide Proper, PromptReads, CondReads, ValueReads;
  }

  lemma MemberRight(sys: System, u: Cells, ko: Snapshot, ke: Snapshot, s: Symbol, visible: Tristate, tri: Tristate)
    requires Fit(sys, u) && Fit(sys, ke.cells) && Fit(sys, ko.cells) && s in sys.choiceOf
    requires !Reads(sys, s, s) && PromptsReady(sys, ko.valid, s) && visible == Visible(sys, s, Val(sys, ko.cells))
             && ko.valid <= ke.valid
    requires ke.cells[s] == u[s].(visible := visible, tri := NO)
    requires forall r :: r in ko.valid && r in sys.defs && r != s ==> ke.cells[r].tri == ko.cells[r].tri
    requires MemberIs(sys, ke, s, ke.cells[s], visible, tri)
    ensures var f := Snapshot(ke.cells[s := ke.cells[s].(tri := tri)], ke.valid);
            Fit(sys, f.cells) && RightAt(sys, u, f, s)
  {
    hide *;
    FitFacts(sys, u);
    FitFacts(sys, ko.cells);
    FitFacts(sys, ke.cells);
    NotOwnGroup(sys, s);
    NotSelfRead(sys, s);
    var cell := ke.cells[s].(tri := tri);
    if sys.defs[s].prompts == [] { VisibleUnseen(sys, s, Val(sys, ko.cells)); }
    FitWrite(sys, ke.cells, s, cell);
    var f := Snapshot(ke.cells[s := cell], ke.valid);
    PromptsFinal(sys, ko, f, s);
    MemberStays(sys, ke, f, s, ke.cells[s], visible, tri);
    MemberIsRight(sys, u, f, s, visible, tri);
  }

  lemma MemberIsRight(sys: System, u: Cells, f: Snapshot, s: Symbol, visible: Tristate, tri: Tristate)
    requires Fit(sys, u) && Fit(sys, f.cells) && s in sys.choiceOf && s !in sys.groups
    requires PromptsReady(sys, f.valid, s) && visible == Visible(sys, s, Val(sys, f.cells))
    requires f.cells[s] == u[s].(visible := visible, tri := tri)
    requires MemberIs(sys, f, s, u[s].(visible := visible, tri := NO), visible, tri)
    ensures RightAt(sys, u, f, s)
  {
    hide DefaultsReady, DefaultTri, Fit, MemberCell, PromptsReady, Visible, Proper;
    FitFacts(sys, u);
    FitFacts(sys, f.cells);
    ProperMember(sys, s);
    MemberCellIs(sys, s, u[s], Val(sys, f.cells), f.cells[sys.choiceOf[s]].sel);
  }

  lemma NoFallback(sys: System, s: Symbol, u: Cell, visible: Tristate, t1: Tristate, t2: Tristate, chosen: bool)
    requires visible == YES || (visible != NO && u.user)
    ensures MemberTri(sys, s, u, visible, t1, chosen) == MemberTri(sys, s, u, visible, t2, chosen)
  {
  }

  /** The prompts of a symbol that does not read itself stay what they are. */
  lemma PromptsFinal(sys: System, k: Snapshot, f: Snapshot, s: Symbol)
    requires Proper(sys) && s in sys.defs && k.cells.Keys == sys.defs.Keys == f.cells.Keys && k.valid <= f.valid
    requires PromptsReady(sys, k.valid, s) && !PromptReads(sys, s, s)
    requires forall r :: r in k.valid && r in sys.defs && r != s ==> f.cells[r].tri == k.cells[r].tri
    ensures PromptsReady(sys, f.valid, s) && Visible(sys, s, Val(sys, f.cells)) == Visible(sys, s, Val(sys, k.cells))
  {
    hide PromptReads, PromptTris, PromptsReady, Same;
    PromptsReadyWithout(sys, k.valid, s, s);
    ValSame(sys, k.valid - {s}, k.cells, f.cells);
    PromptsSame(sys, k.valid - {s}, s, Val(sys, k.cells), Val(sys, f.cells));
    PromptsReadyGrows(sys, k.valid, f.valid, s);
  }

  lemma VisibleUnseen(sys: System, s: Symbol, v: Valuation)
    requires s in sys.defs && sys.defs[s].prompts == []
    ensures Visible(sys, s, v) == NO
  {
    assert PromptTris(sys, s, v) == [];
  }

  lemma NotOwnGroup(sys: System, s: Symbol)
    requires Proper(sys) && s in sys.choiceOf
    ensures s !in sys.groups && sys.choiceOf[s] != s
  {
  }

  lemma OrdinaryRight(sys: System, u: Cells, ko: Snapshot, ke: Snapshot, s: Symbol, visible: Tristate, dir: Tristate,
                      rev: Tristate, implied: Tristate, own: Tristate)
    requires Fit(sys, u) && Fit(sys, ke.cells) && Fit(sys, ko.cells) && s in sys.defs && s !in sys.groups
             && s !in sys.choiceOf
    requires !Reads(sys, s, s) && OwnIs(sys, ko, s, visible, dir, rev, implied) && ko.valid <= ke.valid
    requires ke.cells[s] == u[s].(visible := visible, dir := dir, rev := rev, implied := implied, tri := NO)
    requires forall r :: r in ko.valid && r in sys.defs && r != s ==> ke.cells[r].tri == ko.cells[r].tri
    requires BaseIs(sys, ke, s, ke.cells[s], visible, implied, own)
    ensures var f := Snapshot(ke.cells[s := ke.cells[s].(tri := Combined(sys, s, dir, rev, implied, own))], ke.valid);
            Fit(sys, f.cells) && RightAt(sys, u, f, s)
  {
    hide OwnReady, DefaultsReady, OwnReads, CondReads, ValueReads, RevTri, Visible, DefaultTri, Fit, Combined;
    FitFacts(sys, u);
    FitFacts(sys, ko.cells);
    FitFacts(sys, ke.cells);
    var cell := ke.cells[s].(tri := Combined(sys, s, dir, rev, implied, own));
    FitWrite(sys, ke.cells, s, cell);
    var f := Snapshot(ke.cells[s := cell], ke.valid);
    OwnStays(sys, ko, f, s, visible, dir, rev, implied);
    if visible == NO || !u[s].user { DefaultsStay(sys, ke, f, s); }
  }

  lemma NoDefaults(sys: System, k: Snapshot, s: Symbol)
    requires s in sys.defs
    ensures DefaultsSoFar(sys, k, s, 0)
  {
  }

  lemma LastDefault(sys: System, k: Snapshot, s: Symbol)
    requires s in sys.defs
    ensures var d := sys.defs[s].defaults;
            DefaultsReady(sys, k.valid, d, |d|, Val(sys, k.cells)) && DefaultTri(d, |d|, Val(sys, k.cells)) == NO
  {
  }

  lemma GrowingDefaults(sys: System, rank: Symbol -> nat, b: nat, k0: Snapshot, k1: Snapshot, s: Symbol, n: nat)
    requires Advanced(sys, rank, b, {}, k0, k1) && s in sys.defs && n < |sys.defs[s].defaults|
    requires Ordered(sys, rank, k0.valid) && LowDefaults(sys, rank, k0.valid, b, s)
    ensures Fit(sys, k1.cells) && Ordered(sys, rank, k1.valid) && k0.valid <= k1.valid
    ensures Low(sys, rank, k1.valid, b, sys.defs[s].defaults[n].cond)
    ensures Low(sys, rank, k1.valid, b, Some(sys.defs[s].defaults[n].value))
  {
    hide Advanced, Ordered, Low;
    AdvancedFit(sys, rank, b, k0, k1);
    OrderedGrows(sys, rank, k0.valid, k1.valid);
    LowGrows(sys, rank, k0.valid, k1.valid, b, sys.defs[s].defaults[n].cond);
    LowGrows(sys, rank, k0.valid, k1.valid, b, Some(sys.defs[s].defaults[n].value));
  }

  lemma DefaultSkipped(sys: System, rank: Symbol -> nat, b: nat, k1: Snapshot, k2: Snapshot, s: Symbol, n: nat)
    requires Advanced(sys, rank, b, {}, k1, k2) && s in sys.defs && n < |sys.defs[s].defaults|
             && DefaultsSoFar(sys, k1, s, n)
    requires var c := sys.defs[s].defaults[n].cond; Ready(sys, k2.valid, c) && EvalDep(c, Val(sys, k2.cells)) == NO
    ensures DefaultsSoFar(sys, k2, s, n + 1)
  {
    hide Advanced, Ready;
    DefaultsSoFarStays(sys, rank, b, k1, k2, s, n);
  }

  lemma DefaultFound(sys: System, rank: Symbol -> nat, b: nat, k0: Snapshot, k1: Snapshot, k2: Snapshot, k3: Snapshot,
                     s: Symbol, n: nat)
    requires Advanced(sys, rank, b, {}, k0, k2) && Advanced(sys, rank, b, {}, k1, k2)
             && Advanced(sys, rank, b, {}, k2, k3)
    requires s in sys.defs && n < |sys.defs[s].defaults| && DefaultsSoFar(sys, k1, s, n)
    requires var c := sys.defs[s].defaults[n].cond; Ready(sys, k2.valid, c) && EvalDep(c, Val(sys, k2.cells)) != NO
    requires Ready(sys, k3.valid, Some(sys.defs[s].defaults[n].value))
    ensures Advanced(sys, rank, b, {}, k0, k3)
    ensures var d := sys.defs[s].defaults;
            && DefaultsReady(sys, k3.valid, d, 0, Val(sys, k3.cells))
            && DefaultTri(d, 0, Val(sys, k3.cells))
               == TriAnd(Eval(d[n].value, Val(sys, k3.cells)), EvalDep(d[n].cond, Val(sys, k2.cells)))
  {
    hide Advanced, Ready;
    AdvancedTransitive(sys, rank, b, {}, k0, k2, k3);
    AdvancedTransitive(sys, rank, b, {}, k1, k2, k3);
    DefaultsSoFarStays(sys, rank, b, k1, k3, s, n);
    DepStays(sys, rank, b, k2, k3, sys.defs[s].defaults[n].cond);
    SkipDefaults(sys, k3, s, 0, n);
  }

  // ----- selecting a symbol -----

  ghost predicate LowSelection(sys: System, rank: Symbol -> nat, valid: set<Symbol>, b: nat, c: Symbol)
    requires Proper(sys) && c in sys.groups
  {
    && (forall i :: 0 <= i < |sys.groups[c]| ==> LowPrompts(sys, rank, valid, b, sys.groups[c][i]))
    && (forall k :: 0 <= k < |sys.defs[c].defaults| ==> Low(sys, rank, valid, b, sys.defs[c].defaults[k].cond))
  }

  /** The first `n` members of the choice `c` show what their prompts are worth. */
  ghost predicate MembersSeen(sys: System, k: Snapshot, c: Symbol, n: nat)
    requires Fit(sys, k.cells) && c in sys.groups && n <= |sys.groups[c]|
  {
    forall i :: 0 <= i < n ==>
      && PromptsReady(sys, k.valid, sys.groups[c][i])
      && k.cells[sys.groups[c][i]].visible == Visible(sys, sys.groups[c][i], Val(sys, k.cells))
  }

  lemma MemberStaysSeen(sys: System, rank: Symbol -> nat, b: nat, k0: Snapshot, k1: Snapshot, m: Symbol)
    requires Advanced(sys, rank, b, {}, k0, k1) && m in sys.choiceOf && sys.choiceOf[m] in k0.valid
    requires PromptsReady(sys, k0.valid, m) && k0.cells[m].visible == Visible(sys, m, Val(sys, k0.cells))
    ensures PromptsReady(sys, k1.valid, m) && k1.cells[m].visible == Visible(sys, m, Val(sys, k1.cells))
  {
    hide Visible, PromptsReady, MemberCell, Fit, SymbolReady, ChoiceReady;
    AdvancedFit(sys, rank, b, k0, k1);
    ProperMember(sys, m);
    NotOwnGroup(sys, m);
    VisibleStays(sys, rank, b, k0, k1, m);
    if m in k0.valid || m !in k1.valid {
      assert Kept(sys, {}, k0, k1, m);
    } else {
      assert RightAt(sys, k0.cells, k1, m);
      FitFacts(sys, k1.cells);
      MemberCellIs(sys, m, k0.cells[m], Val(sys, k1.cells), k1.cells[sys.choiceOf[m]].sel);
    }
  }

  lemma MembersStaySeen(sys: System, rank: Symbol -> nat, b: nat, k0: Snapshot, k1: Snapshot, c: Symbol, n: nat)
    requires Advanced(sys, rank, b, {}, k0, k1) && c in sys.groups && c in k0.valid && n <= |sys.groups[c]|
    requires MembersSeen(sys, k0, c, n)
    ensures MembersSeen(sys, k1, c, n)
    ensures forall i :: 0 <= i < n ==>
      Visible(sys, sys.groups[c][i], Val(sys, k1.cells)) == Visible(sys, sys.groups[c][i], Val(sys, k0.cells))
  {
    hide Advanced, Visible, PromptsReady;
    AdvancedFit(sys, rank, b, k0, k1);
    forall i | 0 <= i < n
      ensures PromptsReady(sys, k1.valid, sys.groups[c][i])
      ensures k1.cells[sys.groups[c][i]].visible == Visible(sys, sys.groups[c][i], Val(sys, k1.cells))
      ensures Visible(sys, sys.groups[c][i], Val(sys, k1.cells)) == Visible(sys, sys.groups[c][i], Val(sys, k0.cells))
    {
      MemberStaysSeen(sys, rank, b, k0, k1, sys.groups[c][i]);
      VisibleStays(sys, rank, b, k0, k1, sys.groups[c][i]);
    }
  }

  /** Of the first `n` members of `c` the visible ones were set by the user. */
  ghost predicate AllSet(sys: System, k: Snapshot, u: Cells, c: Symbol, n: nat)
    requires Fit(sys, k.cells) && Fit(sys, u) && c in sys.groups && n <= |sys.groups[c]|
  {
    forall i :: 0 <= i < n && Visible(sys, sys.groups[c][i], Val(sys, k.cells)) != NO ==> u[sys.groups[c][i]].user
  }

  /** The state after the visibility of the member `m` was stored. */
  function Stored(sys: System, k: Snapshot, m: Symbol): Snapshot
    requires m in sys.defs && m in k.cells
  {
    Snapshot(k.cells[m := k.cells[m].(visible := Visible(sys, m, Val(sys, k.cells)))], k.valid)
  }

  lemma StoredSame(sys: System, k: Snapshot, m: Symbol, s: Symbol)
    requires Fit(sys, k.cells) && m in sys.defs && m in k.cells && s in sys.defs
    ensures Visible(sys, s, Val(sys, Stored(sys, k, m).cells)) == Visible(sys, s, Val(sys, k.cells))
  {
    hide Visible;
    SameVal(sys, k.cells, Stored(sys, k, m).cells);
    VisibleSame(sys, s, k.cells, Stored(sys, k, m).cells);
  }

  lemma StoredSeen(sys: System, k: Snapshot, c: Symbol, n: nat)
    requires Fit(sys, k.cells) && c in sys.groups && n < |sys.groups[c]| && MembersSeen(sys, k, c, n)
    requires var m := sys.groups[c][n];
             m in sys.defs && m in k.cells && PromptsReady(sys, k.valid, m) && Fit(sys, Stored(sys, k, m).cells)
    ensures MembersSeen(sys, Stored(sys, k, sys.groups[c][n]), c, n + 1)
  {
    hide Visible, PromptsReady, Fit;
    FitFacts(sys, k.cells);
    var m := sys.groups[c][n];
    forall i | 0 <= i <= n
      ensures sys.groups[c][i] in sys.defs && PromptsReady(sys, k.valid, sys.groups[c][i])
      ensures Stored(sys, k, m).cells[sys.groups[c][i]].visible
           == Visible(sys, sys.groups[c][i], Val(sys, Stored(sys, k, m).cells))
    {
      GroupMember(sys, c, i);
      StoredSame(sys, k, m, sys.groups[c][i]);
      if i < n { GroupDistinct(sys, c, i, n); }
    }
  }

  /** Two states in which the members of `c` are worth the same to be seen. */
  lemma AllSetSame(sys: System, k0: Snapshot, k1: Snapshot, u: Cells, c: Symbol, n: nat)
    requires Fit(sys, k0.cells) && Fit(sys, k1.cells) && Fit(sys, u) && c in sys.groups && n <= |sys.groups[c]|
    requires forall i :: 0 <= i < n ==>
      Visible(sys, sys.groups[c][i], Val(sys, k1.cells)) == Visible(sys, sys.groups[c][i], Val(sys, k0.cells))
    ensures AllSet(sys, k0, u, c, n) == AllSet(sys, k1, u, c, n)
  {
    hide Visible;
  }

  /** One round of the loop: the member was looked at and its visibility stored. */
  lemma MemberLooked(sys: System, rank: Symbol -> nat, b: nat, k0: Snapshot, ka: Snapshot, ko: Snapshot, c: Symbol,
                     n: nat)
    requires Advanced(sys, rank, b, {c}, k0, ka) && Advanced(sys, rank, b, {}, ka, ko) && c in sys.groups
             && c in k0.valid
    requires n < |sys.groups[c]| && MembersSeen(sys, ka, c, n)
    requires sys.groups[c][n] in ko.cells && PromptsReady(sys, ko.valid, sys.groups[c][n])
    ensures var k1 := Stored(sys, ko, sys.groups[c][n]);
            && Advanced(sys, rank, b, {c}, k0, k1) && Fit(sys, k1.cells) && MembersSeen(sys, k1, c, n + 1)
            && AllSet(sys, ka, k0.cells, c, n) == AllSet(sys, k1, k0.cells, c, n)
            && k1.cells[sys.groups[c][n]].user == k0.cells[sys.groups[c][n]].user
  {
    hide Advanced, Visible, PromptsReady, Fit, MembersSeen, AllSet;
    var m := sys.groups[c][n];
    AdvancedOpenFit(sys, rank, b, {c}, k0, ka);
    GroupMember(sys, c, n);
    AdvancedTransitive(sys, rank, b, {c}, k0, ka, ko);
    VisibleWrite(sys, rank, b, k0, ko, m);
    AdvancedOpenFit(sys, rank, b, {c}, k0, ko);
    MemberUser(sys, rank, b, {c}, k0, ko, m);
    MembersStaySeen(sys, rank, b, ka, ko, c, n);
    StoredSeen(sys, ko, c, n);
    forall i | 0 <= i < n
      ensures Visible(sys, sys.groups[c][i], Val(sys, Stored(sys, ko, m).cells))
              == Visible(sys, sys.groups[c][i], Val(sys, ka.cells))
    {
      GroupMember(sys, c, i);
      StoredSame(sys, ko, m, sys.groups[c][i]);
    }
    AllSetSame(sys, ka, Stored(sys, ko, m), k0.cells, c, n);
  }

  lemma GroupMember(sys: System, c: Symbol, i: nat)
    requires Proper(sys) && c in sys.groups && i < |sys.groups[c]|
    ensures var m := sys.groups[c][i]; m in sys.choiceOf && sys.choiceOf[m] == c && m in sys.defs
  {
  }

  lemma MemberOfGroup(sys: System, m: Symbol)
    requires Proper(sys) && m in sys.choiceOf
    ensures var c := sys.choiceOf[m]; c in sys.groups && c in sys.defs && m in sys.groups[c] && m in sys.defs && m != c
  {
  }

  lemma GroupDistinct(sys: System, c: Symbol, i: nat, j: nat)
    requires Proper(sys) && c in sys.groups && i < j < |sys.groups[c]|
    ensures sys.groups[c][i] != sys.groups[c][j]
  {
  }

  lemma SameVal(sys: System, c1: Cells, c2: Cells)
    requires Fit(sys, c1) && c2.Keys == c1.Keys && forall s :: s in c1 ==> c2[s].tri == c1[s].tri
    ensures Same(sys, sys.defs.Keys, Val(sys, c1), Val(sys, c2))
  {
  }

  lemma VisibleSame(sys: System, s: Symbol, c1: Cells, c2: Cells)
    requires Fit(sys, c1) && s in sys.defs && Same(sys, sys.defs.Keys, Val(sys, c1), Val(sys, c2))
    ensures Visible(sys, s, Val(sys, c1)) == Visible(sys, s, Val(sys, c2))
  {
    PromptsSame(sys, sys.defs.Keys, s, Val(sys, c1), Val(sys, c2));
  }

  lemma StoredFits(sys: System, k: Snapshot, m: Symbol)
    requires Fit(sys, k.cells) && m in k.cells && m in sys.defs
    ensures Fit(sys, Stored(sys, k, m).cells) && m in Stored(sys, k, m).cells
  {
    hide Visible, Fit;
    if sys.defs[m].prompts == [] { VisibleUnseen(sys, m, Val(sys, k.cells)); }
    FitWrite(sys, k.cells, m, Stored(sys, k, m).cells[m]);
  }

  lemma StoredRight(sys: System, u: Cells, k: Snapshot, m: Symbol, s: Symbol)
    requires Fit(sys, u) && Fit(sys, k.cells) && m in k.cells && m in sys.defs && s != m && RightAt(sys, u, k, s)
    ensures Fit(sys, Stored(sys, k, m).cells) && RightAt(sys, u, Stored(sys, k, m), s)
  {
    hide Visible, Fit, RightAt;
    StoredFits(sys, k, m);
    RightDefined(sys, u, k, s);
    FitFacts(sys, k.cells);
    SelfSame(sys, u, s);
    RightKept(sys, u, k, u, Stored(sys, k, m), s);
  }

  /** A choice being calculated stores the visibility of one of its members. */
  lemma VisibleWrite(sys: System, rank: Symbol -> nat, b: nat, k0: Snapshot, k1: Snapshot, m: Symbol)
    requires m in sys.choiceOf && Advanced(sys, rank, b, {sys.choiceOf[m]}, k0, k1)
    requires m in k1.cells && m in sys.defs && PromptsReady(sys, k1.valid, m)
    ensures Fit(sys, Stored(sys, k1, m).cells) && Advanced(sys, rank, b, {sys.choiceOf[m]}, k0, Stored(sys, k1, m))
  {
    hide Visible, PromptsReady, Fit, RightAt;
    AdvancedOpenFit(sys, rank, b, {sys.choiceOf[m]}, k0, k1);
    var c, k2 := sys.choiceOf[m], Stored(sys, k1, m);
    StoredFits(sys, k1, m);
    if m in k1.valid && m !in k0.valid {
      RightShows(sys, k0.cells, k1, m);
      assert k2.cells == k1.cells;
    } else {
      forall s | s in sys.defs && (s in k0.valid || s !in k2.valid) ensures Kept(sys, {c}, k0, k2, s) {
        assert Kept(sys, {c}, k0, k1, s);
      }
      forall s | s in k2.valid && s !in k0.valid ensures s in sys.defs && rank(s) < b && RightAt(sys, k0.cells, k2, s) {
        StoredRight(sys, k0.cells, k1, m, s);
      }
    }
  }

  lemma AdvancedOpenFit(sys: System, rank: Symbol -> nat, b: nat, open: set<Symbol>, k0: Snapshot, k1: Snapshot)
    requires Advanced(sys, rank, b, open, k0, k1)
    ensures Fit(sys, k0.cells) && Fit(sys, k1.cells) && Proper(sys) && k0.valid <= k1.valid
  {
  }

  lemma RightShows(sys: System, u: Cells, k: Snapshot, m: Symbol)
    requires Fit(sys, u) && Fit(sys, k.cells) && m in sys.choiceOf && RightAt(sys, u, k, m)
    ensures k.cells[m].visible == Visible(sys, m, Val(sys, k.cells))
  {
    hide Visible, MemberCell, Fit, SymbolReady, ChoiceReady, MemberReady;
    FitFacts(sys, u);
    FitFacts(sys, k.cells);
    ProperMember(sys, m);
    NotOwnGroup(sys, m);
    MemberCellIs(sys, m, u[m], Val(sys, k.cells), k.cells[sys.choiceOf[m]].sel);
  }

  // ----- the default of a choice -----

  /** The stored visibility of a symbol. */
  function VisibleIn(sys: System, cells: Cells, s: Symbol): Tristate {
    if s in cells then cells[s].visible else sys.shown(s)
  }

  /** Under a choice at y its members are seen with the visibility that they show. */
  lemma SeenVisible(sys: System, c: Symbol, u: Cells, v: Valuation, shown: nat -> Tristate, i: nat)
    requires Fit(sys, u) && c in sys.groups && i < |sys.groups[c]| && TextFits(sys, v) && v.tri(c) == YES
    ensures var seen := SeenMembers(sys, c, u, v, shown);
            |seen| == |sys.groups[c]| && seen[i].visible == Visible(sys, sys.groups[c][i], v)
  {
    hide Visible, MemberInputs, PromptTris, InputsOf;
    var m := sys.groups[c][i];
    SeenSize(sys, c, u, v, shown);
    SeenAt(sys, c, u, v, shown, i);
    MemberUnder(sys, c, m, v, YES);
    WithOwn(sys, v, c);
    SameVisibleOf(sys, m, With(sys, v, c, YES), v);
  }

  lemma SeenAt(sys: System, c: Symbol, u: Cells, v: Valuation, shown: nat -> Tristate, i: nat)
    requires Fit(sys, u) && c in sys.groups && i < |sys.groups[c]|
    ensures var seen, m := SeenMembers(sys, c, u, v, shown), sys.groups[c][i];
            && |seen| == |sys.groups[c]| && m in sys.choiceOf && sys.choiceOf[m] == c
            && seen[i].visible == Choice.MemberVisibility(m.Kind(), MemberInputs(sys, c, m, v), YES, sys.modules)
            && seen[i].user == u[m].user
  {
    hide PromptTris, MemberInputs;
  }

  lemma SameVisibleOf(sys: System, m: Symbol, v1: Valuation, v2: Valuation)
    requires Proper(sys) && m in sys.defs && Same(sys, sys.defs.Keys, v1, v2)
    ensures Visible(sys, m, v1) == Visible(sys, m, v2)
  {
    PromptsSame(sys, sys.defs.Keys, m, v1, v2);
  }

  /** The visibility of the target of the default `j`, `look` being that of a symbol from outside. */
  function TargetSeen(sys: System, c: Symbol, v: Valuation, j: nat, look: Tristate): Tristate
    requires Proper(sys) && c in sys.groups && j < |sys.defs[c].defaults|
  {
    if Target(sys, c, j) in sys.groups[c] then Visible(sys, Target(sys, c, j), v) else look
  }

  lemma TargetIsSeen(sys: System, c: Symbol, u: Cells, v: Valuation, shown: nat -> Tristate, j: nat)
    requires Fit(sys, u) && c in sys.groups && j < |sys.defs[c].defaults| && TextFits(sys, v) && v.tri(c) == YES
    ensures var seen, env := SeenMembers(sys, c, u, v, shown), InputsOf(sys, c, v, shown, {});
            && env.defaults[j].target == Number(sys, c, j)
            && Choice.VisibleOf(seen, env, Number(sys, c, j)) == TargetSeen(sys, c, v, j, shown(j))
            && env.defaults[j].cond == EvalDep(sys.defs[c].defaults[j].cond, v)
  {
    hide Visible, MemberInputs, PromptTris, SeenMembers;
    SeenSize(sys, c, u, v, shown);
    var list, t := sys.groups[c], Target(sys, c, j);
    if t in list { SeenVisible(sys, c, u, v, shown, Index(list, t)); }
    WithOwn(sys, v, c);
    AllReady(sys, sys.defs[c].defaults[j].cond);
    DepSame(sys, sys.defs.Keys, sys.defs[c].defaults[j].cond, With(sys, v, c, YES), v);
  }

  lemma AllReady(sys: System, e: Option<Expr>)
    ensures Ready(sys, sys.defs.Keys, e)
  {
  }

  /** The first `n` defaults of the choice were looked at, and name nothing to select. */
  ghost predicate CondsSoFar(sys: System, k: Snapshot, c: Symbol, looked: seq<Tristate>, n: nat)
    requires Proper(sys) && c in sys.groups && n <= |sys.defs[c].defaults| && n <= |looked|
  {
    forall j :: 0 <= j < n ==>
      && Ready(sys, k.valid, sys.defs[c].defaults[j].cond)
      && (EvalDep(sys.defs[c].defaults[j].cond, Val(sys, k.cells)) == NO
          || TargetSeen(sys, c, Val(sys, k.cells), j, looked[j]) == NO)
  }

  lemma CondsSoFarStay(sys: System, rank: Symbol -> nat, b: nat, k0: Snapshot, k1: Snapshot, c: Symbol,
                       looked: seq<Tristate>, n: nat)
    requires Advanced(sys, rank, b, {}, k0, k1) && c in sys.groups && n <= |sys.defs[c].defaults| && n <= |looked|
    requires MembersSeen(sys, k0, c, |sys.groups[c]|) && c in k0.valid && CondsSoFar(sys, k0, c, looked, n)
    ensures CondsSoFar(sys, k1, c, looked, n)
  {
    hide Advanced, Visible, PromptsReady, Ready, Fit;
    AdvancedFit(sys, rank, b, k0, k1);
    MembersStaySeen(sys, rank, b, k0, k1, c, |sys.groups[c]|);
    forall j | 0 <= j < n
      ensures Ready(sys, k1.valid, sys.defs[c].defaults[j].cond)
      ensures EvalDep(sys.defs[c].defaults[j].cond, Val(sys, k1.cells)) == NO
              || TargetSeen(sys, c, Val(sys, k1.cells), j, looked[j]) == NO
    {
      DepStays(sys, rank, b, k0, k1, sys.defs[c].defaults[j].cond);
      var list, t := sys.groups[c], Target(sys, c, j);
      if t in list { assert list[Index(list, t)] == t; }
    }
  }

  ghost predicate LookedLike(shown: nat -> Tristate, looked: seq<Tristate>) {
    forall j :: 0 <= j < |looked| ==> shown(j) == looked[j]
  }

  /** Defaults that name nothing to select are passed over. */
  lemma {:induction false} SkipConds(sys: System, k: Snapshot, c: Symbol, u: Cells, shown: nat -> Tristate,
                                     looked: seq<Tristate>, i: nat, n: nat)
    requires Fit(sys, k.cells) && Fit(sys, u) && c in sys.groups && i <= n <= |sys.defs[c].defaults| && n <= |looked|
    requires k.cells[c].tri == YES && CondsSoFar(sys, k, c, looked, n) && LookedLike(shown, looked)
    ensures var seen, env := SeenMembers(sys, c, u, Val(sys, k.cells), shown),
            InputsOf(sys, c, Val(sys, k.cells), shown, {});
            && Choice.FirstDefault(seen, env, i) == Choice.FirstDefault(seen, env, n)
            && (CondsReady(sys, k.valid, c, seen, env, i) <==> CondsReady(sys, k.valid, c, seen, env, n))
    decreases n - i
  {
    hide Visible, Ready, Fit, SeenMembers, TargetSeen, Proper, MemberInputs, PromptTris;
    FitFacts(sys, k.cells);
    ChoiceIsNoMember(sys, c);
    if i < n {
      TargetIsSeen(sys, c, u, Val(sys, k.cells), shown, i);
      SkipConds(sys, k, c, u, shown, looked, i + 1, n);
    }
  }

  /** The default `n` names a visible symbol. */
  lemma CondFound(sys: System, k: Snapshot, c: Symbol, u: Cells, shown: nat -> Tristate, looked: seq<Tristate>, n: nat)
    requires Fit(sys, k.cells) && Fit(sys, u) && c in sys.groups && n < |sys.defs[c].defaults| && |looked| == n + 1
    requires k.cells[c].tri == YES && CondsSoFar(sys, k, c, looked, n) && LookedLike(shown, looked)
    requires Ready(sys, k.valid, sys.defs[c].defaults[n].cond)
    requires EvalDep(sys.defs[c].defaults[n].cond, Val(sys, k.cells)) != NO
    requires TargetSeen(sys, c, Val(sys, k.cells), n, looked[n]) != NO
    ensures var seen, env := SeenMembers(sys, c, u, Val(sys, k.cells), shown),
            InputsOf(sys, c, Val(sys, k.cells), shown, {});
            CondsReady(sys, k.valid, c, seen, env, 0) && Choice.ChoiceDefault(seen, env) == Some(Number(sys, c, n))
  {
    hide Visible, Ready, Fit, SeenMembers, TargetSeen;
    FitFacts(sys, k.cells);
    ChoiceIsNoMember(sys, c);
    SkipConds(sys, k, c, u, shown, looked, 0, n);
    TargetIsSeen(sys, c, u, Val(sys, k.cells), shown, n);
  }

  /** No default names a visible symbol: the first visible member. */
  lemma NoCondFound(sys: System, k: Snapshot, c: Symbol, u: Cells, shown: nat -> Tristate, looked: seq<Tristate>)
    requires Fit(sys, k.cells) && Fit(sys, u) && c in sys.groups && |looked| == |sys.defs[c].defaults|
    requires k.cells[c].tri == YES && CondsSoFar(sys, k, c, looked, |looked|) && LookedLike(shown, looked)
    ensures var seen, env := SeenMembers(sys, c, u, Val(sys, k.cells), shown),
            InputsOf(sys, c, Val(sys, k.cells), shown, {});
            CondsReady(sys, k.valid, c, seen, env, 0) && Choice.ChoiceDefault(seen, env) == Choice.FirstVisible(seen, 0)
  {
    hide Visible, Ready, Fit, SeenMembers, TargetSeen;
    FitFacts(sys, k.cells);
    ChoiceIsNoMember(sys, c);
    SkipConds(sys, k, c, u, shown, looked, 0, |looked|);
  }

  /** The default `n` is the first one whose condition and symbol are visible. */
  ghost predicate FoundAt(sys: System, k: Snapshot, c: Symbol, looked: seq<Tristate>, n: nat)
    requires Proper(sys) && c in sys.groups && n < |sys.defs[c].defaults| && n < |looked|
  {
    && CondsSoFar(sys, k, c, looked, n)
    && Ready(sys, k.valid, sys.defs[c].defaults[n].cond)
    && EvalDep(sys.defs[c].defaults[n].cond, Val(sys, k.cells)) != NO
    && TargetSeen(sys, c, Val(sys, k.cells), n, looked[n]) != NO
  }

  lemma NoConds(sys: System, k: Snapshot, c: Symbol)
    requires Proper(sys) && c in sys.groups
    ensures CondsSoFar(sys, k, c, [], 0)
  {
  }

  lemma GrowingCond(sys: System, rank: Symbol -> nat, b: nat, a: set<Symbol>, v: set<Symbol>, c: Symbol, k: nat)
    requires Proper(sys) && c in sys.groups && k < |sys.defs[c].defaults| && a <= v
    requires Ordered(sys, rank, a) && LowSelection(sys, rank, a, b, c)
    ensures Ordered(sys, rank, v) && Low(sys, rank, v, b, sys.defs[c].defaults[k].cond)
  {
    hide Ordered, DepRefs;
    OrderedGrows(sys, rank, a, v);
  }

  /** Looking at the stored visibility of the target of the default `n`. */
  lemma CondLooked(sys: System, k: Snapshot, c: Symbol, looked: seq<Tristate>, n: nat, t: Tristate)
    requires Fit(sys, k.cells) && c in sys.groups && n < |sys.defs[c].defaults| && |looked| == n
    requires MembersSeen(sys, k, c, |sys.groups[c]|) && CondsSoFar(sys, k, c, looked, n)
    requires Ready(sys, k.valid, sys.defs[c].defaults[n].cond)
             && t == EvalDep(sys.defs[c].defaults[n].cond, Val(sys, k.cells))
    ensures var seen := VisibleIn(sys, k.cells, Target(sys, c, n));
            if t != NO && seen != NO then FoundAt(sys, k, c, looked + [seen], n)
              else CondsSoFar(sys, k, c, looked + [seen], n + 1)
  {
    hide Visible, Ready, PromptsReady, Fit;
    FitFacts(sys, k.cells);
    var list, target := sys.groups[c], Target(sys, c, n);
    if target in list {
      assert list[Index(list, target)] == target;
      GroupMember(sys, c, Index(list, target));
    }
  }

  lemma VisibleStays(sys: System, rank: Symbol -> nat, b: nat, k0: Snapshot, k1: Snapshot, s: Symbol)
    requires Advanced(sys, rank, b, {}, k0, k1) && s in sys.defs && PromptsReady(sys, k0.valid, s)
    ensures PromptsReady(sys, k1.valid, s) && Visible(sys, s, Val(sys, k1.cells)) == Visible(sys, s, Val(sys, k0.cells))
  {
    hide Advanced, PromptTris;
    AdvancedFit(sys, rank, b, k0, k1);
    ValueStays(sys, rank, b, k0, k1);
    PromptsSame(sys, k0.valid, s, Val(sys, k0.cells), Val(sys, k1.cells));
    PromptsReadyGrows(sys, k0.valid, k1.valid, s);
  }

  /** A symbol that was valid keeps its cell, unless it is a member. */
  lemma AdvancedSelf(sys: System, rank: Symbol -> nat, b: nat, open: set<Symbol>, k0: Snapshot, k1: Snapshot, s: Symbol)
    requires Advanced(sys, rank, b, open, k0, k1) && s in k0.valid && s in sys.defs
    ensures Fit(sys, k1.cells) && k0.valid <= k1.valid && s in k1.cells && s in k0.cells
    ensures s !in sys.choiceOf ==> k1.cells[s] == k0.cells[s]
  {
    assert Kept(sys, open, k0, k1, s);
  }

  lemma AdvancedMember(sys: System, rank: Symbol -> nat, b: nat, k0: Snapshot, k1: Snapshot, s: Symbol)
    requires Advanced(sys, rank, b, {}, k0, k1) && s in k0.valid && s in sys.defs
    ensures Fit(sys, k1.cells) && k0.valid <= k1.valid && s in k1.cells && s in k0.cells
    ensures UpToVisible(k0.cells[s], k1.cells[s])
  {
    assert Kept(sys, {}, k0, k1, s);
  }

  lemma NoneSeen(sys: System, k: Snapshot, c: Symbol)
    requires Fit(sys, k.cells) && c in sys.groups
    ensures MembersSeen(sys, k, c, 0) && AllSet(sys, k, k.cells, c, 0)
  {
  }

  lemma ChoiceIsNoMember(sys: System, c: Symbol)
    requires Proper(sys) && c in sys.groups
    ensures c !in sys.choiceOf && c in sys.defs
  {
  }

  lemma GrowingPrompts(sys: System, rank: Symbol -> nat, b: nat, a: set<Symbol>, v: set<Symbol>, c: Symbol, i: nat)
    requires Proper(sys) && c in sys.groups && i < |sys.groups[c]| && a <= v
    requires Ordered(sys, rank, a) && LowSelection(sys, rank, a, b, c)
    ensures Ordered(sys, rank, v) && LowPrompts(sys, rank, v, b, sys.groups[c][i])
  {
    hide Ordered, DepRefs;
    OrderedGrows(sys, rank, a, v);
  }

  lemma AllSetStep(sys: System, k: Snapshot, u: Cells, c: Symbol, n: nat)
    requires Fit(sys, k.cells) && Fit(sys, u) && c in sys.groups && n < |sys.groups[c]| && MembersSeen(sys, k, c, n + 1)
    requires k.cells[sys.groups[c][n]].user == u[sys.groups[c][n]].user
    ensures AllSet(sys, k, u, c, n + 1)
       <==> AllSet(sys, k, u, c, n) && (k.cells[sys.groups[c][n]].visible != NO ==> k.cells[sys.groups[c][n]].user)
  {
    hide Visible, PromptsReady;
  }

  function LookedAt(looked: seq<Tristate>, j: nat): Tristate { if j < |looked| then looked[j] else NO }

  lemma FoundIs(sys: System, k: Snapshot, c: Symbol, u: Cells, shown: nat -> Tristate, looked: seq<Tristate>)
    requires Fit(sys, k.cells) && Fit(sys, u) && c in sys.groups && c in k.cells && k.cells[c].tri == YES
    requires LookedLike(shown, looked) && 0 < |looked| <= |sys.defs[c].defaults|
             && FoundAt(sys, k, c, looked, |looked| - 1)
    ensures var seen, env := SeenMembers(sys, c, u, Val(sys, k.cells), shown),
            InputsOf(sys, c, Val(sys, k.cells), shown, {});
            CondsReady(sys, k.valid, c, seen, env, 0)
              && Choice.ChoiceDefault(seen, env) == Some(Number(sys, c, |looked| - 1))
  {
    hide Fit, CondsSoFar, Ready, TargetSeen, SeenMembers, InputsOf;
    CondFound(sys, k, c, u, shown, looked, |looked| - 1);
  }

  lemma GrowingSelection(sys: System, rank: Symbol -> nat, b: nat, a: set<Symbol>, v: set<Symbol>, c: Symbol)
    requires Proper(sys) && c in sys.groups && a <= v && Ordered(sys, rank, a) && LowSelection(sys, rank, a, b, c)
    ensures Ordered(sys, rank, v) && LowSelection(sys, rank, v, b, c)
  {
    hide Ordered, DepRefs;
    OrderedGrows(sys, rank, a, v);
  }

  lemma ShownAsSeen(sys: System, k: Snapshot, c: Symbol, u: Cells, shown: nat -> Tristate, i: nat)
    requires Fit(sys, k.cells) && Fit(sys, u) && c in sys.groups && i < |sys.groups[c]| && k.cells[c].tri == YES
    requires MembersSeen(sys, k, c, |sys.groups[c]|)
    ensures sys.groups[c][i] in k.cells
    ensures var seen := SeenMembers(sys, c, u, Val(sys, k.cells), shown);
            |seen| == |sys.groups[c]| && seen[i].visible == k.cells[sys.groups[c][i]].visible
  {
    hide Fit, SeenMembers, Visible, PromptsReady;
    FitFacts(sys, k.cells);
    ChoiceIsNoMember(sys, c);
    GroupMember(sys, c, i);
    SeenVisible(sys, c, u, Val(sys, k.cells), shown, i);
  }

  lemma UserIsMember(sys: System, cells: Cells, c: Symbol)
    requires Fit(sys, cells) && c in sys.groups
    ensures c in cells
    ensures cells[c].defSel.Some? ==>
              cells[c].defSel.value < |sys.groups[c]| && sys.groups[c][cells[c].defSel.value] in cells
  {
  }

  lemma UserReady(sys: System, k: Snapshot, c: Symbol, u: Cells, shown: nat -> Tristate, i: nat)
    requires Fit(sys, k.cells) && Fit(sys, u) && c in sys.groups && MembersSeen(sys, k, c, |sys.groups[c]|)
    requires u[c].defSel == Some(i) && i < |SeenMembers(sys, c, u, Val(sys, k.cells), shown)|
    requires SeenMembers(sys, c, u, Val(sys, k.cells), shown)[i].visible != NO
    ensures SelectionReady(sys, k.valid, c, u, Val(sys, k.cells), shown)
  {
    hide Visible, SeenMembers, CondsReady, PromptsReady, Proper, Fit, InputsOf;
  }

  lemma FitGroup(sys: System, u: Cells, c: Symbol)
    requires Fit(sys, u) && c in sys.groups
    ensures c in sys.defs && forall i :: 0 <= i < |sys.groups[c]| ==> sys.groups[c][i] in sys.defs
  {
  }

  lemma SelectedUser(i: nat, seen: seq<Choice.Member>, env: Choice.Inputs)
    requires i < |seen| && seen[i].visible != NO
    ensures Choice.Selected(Some(i), seen, env) == Some(i)
  {
  }

  lemma DefaultSelected(sys: System, k: Snapshot, c: Symbol, u: Cells, shown: nat -> Tristate)
    requires Fit(sys, k.cells) && Fit(sys, u) && c in sys.groups && c in k.cells && k.cells[c].tri == YES
    requires MembersSeen(sys, k, c, |sys.groups[c]|)
    requires u[c].defSel.Some? ==> k.cells[sys.groups[c][u[c].defSel.value]].visible == NO
    requires CondsReady(sys, k.valid, c, SeenMembers(sys, c, u, Val(sys, k.cells), shown),
                        InputsOf(sys, c, Val(sys, k.cells), shown, {}), 0)
    ensures var v := Val(sys, k.cells);
            var seen, env := SeenMembers(sys, c, u, v, shown), InputsOf(sys, c, v, shown, {});
            && SelectionReady(sys, k.valid, c, u, v, shown)
            && Choice.Selected(u[c].defSel, seen, env) == Choice.ChoiceDefault(seen, env)
  {
    hide Visible, InputsOf, SeenMembers, CondsReady, Choice.ChoiceDefault, PromptsReady, Proper;
    if u[c].defSel.Some? { ShownAsSeen(sys, k, c, u, shown, u[c].defSel.value); }
  }

  lemma StillUnseen(sys: System, k0: Snapshot, k1: Snapshot, c: Symbol, i: nat)
    requires Fit(sys, k0.cells) && Fit(sys, k1.cells) && c in sys.groups && i < |sys.groups[c]|
    requires MembersSeen(sys, k0, c, |sys.groups[c]|) && MembersSeen(sys, k1, c, |sys.groups[c]|)
    requires Visible(sys, sys.groups[c][i], Val(sys, k1.cells)) == Visible(sys, sys.groups[c][i], Val(sys, k0.cells))
    ensures k1.cells[sys.groups[c][i]].visible == k0.cells[sys.groups[c][i]].visible
  {
    hide Visible, PromptsReady;
  }

  lemma AllSetStays(sys: System, rank: Symbol -> nat, b: nat, k0: Snapshot, k1: Snapshot, k2: Snapshot, c: Symbol,
                    u: Cells,
                    shown: nat -> Tristate)
    requires Advanced(sys, rank, b, {c}, k0, k1) && Advanced(sys, rank, b, {}, k1, k2) && c in sys.groups
             && c in k1.valid
    requires Fit(sys, u) && SameUsers(sys, c, u, k0.cells) && MembersSeen(sys, k1, c, |sys.groups[c]|)
             && k2.cells[c].tri == YES
    ensures AllSet(sys, k1, k0.cells, c, |sys.groups[c]|)
            == Choice.AllUser(SeenMembers(sys, c, u, Val(sys, k2.cells), shown))
  {
    hide Advanced, Visible, SeenMembers, Fit, MembersSeen, Proper, PromptsReady;
    AdvancedFit(sys, rank, b, k1, k2);
    AdvancedOpenFit(sys, rank, b, {c}, k0, k1);
    FitFacts(sys, k2.cells);
    ChoiceIsNoMember(sys, c);
    MembersStaySeen(sys, rank, b, k1, k2, c, |sys.groups[c]|);
    var seen := SeenMembers(sys, c, u, Val(sys, k2.cells), shown);
    SeenSize(sys, c, u, Val(sys, k2.cells), shown);
    forall i | 0 <= i < |seen|
      ensures seen[i].visible == Visible(sys, sys.groups[c][i], Val(sys, k1.cells))
              && seen[i].user == k0.cells[sys.groups[c][i]].user
    {
      SeenVisible(sys, c, u, Val(sys, k2.cells), shown, i);
      SeenAt(sys, c, u, Val(sys, k2.cells), shown, i);
      assert SameUser(u, k0.cells, sys.groups[c][i]);
    }
  }

  /** From `k0` to `kp` the choice `c` got its value; in `k1` everything it depends on was calculated. */
  ghost predicate ChoiceBegun(sys: System, rank: Symbol -> nat, b: nat, c: Symbol, k0: Snapshot, k1: Snapshot,
                              kp: Snapshot)
    requires c in sys.groups && c in sys.defs
  {
    && c in k0.cells && c in k1.cells && c in kp.cells && k1.cells[c] == k0.cells[c]
    && kp == Snapshot(k1.cells[c := kp.cells[c]], k1.valid)
    && BegunCell(sys, c, k0.cells[c], kp.cells[c])
    && OwnIs(sys, k1, c, kp.cells[c].visible, kp.cells[c].dir, kp.cells[c].rev, kp.cells[c].implied)
    && Advanced(sys, rank, b, {}, k0, k1)
  }

  /** The cell `p` of a choice that was `u`, with its value from its visibility and its dependencies. */
  predicate BegunCell(sys: System, c: Symbol, u: Cell, p: Cell) {
    && p == u.(visible := p.visible, dir := p.dir, rev := p.rev, implied := p.implied, tri := p.tri, sel := None)
    && p.tri == Combined(sys, c, p.dir, p.rev, p.implied,
                         if p.visible != NO && p.user then TriAnd(p.defTri, p.visible) else NO)
  }

  /** The choice `c`, at y in the state `kp`, looks at its members and at its defaults, and ends in `k3`. */
  ghost predicate Selecting(sys: System, rank: Symbol -> nat, b: nat, c: Symbol, u: Cells, kp: Snapshot, k2: Snapshot,
                            k3: Snapshot, shown: nat -> Tristate)
    requires c in sys.groups && Fit(sys, u) && c in kp.cells
  {
    && Advanced(sys, rank, b, {c}, kp, k2) && c in k2.cells && c in k3.cells && k2.cells[c] == kp.cells[c]
    && MembersSeen(sys, k2, c, |sys.groups[c]|)
    && SelectionReady(sys, k2.valid, c, u, Val(sys, k2.cells), shown)
    && k3 == Snapshot(k2.cells[c := k3.cells[c]], k2.valid)
    && var seen := SeenMembers(sys, c, u, Val(sys, k2.cells), shown);
       var sel := Choice.Selected(u[c].defSel, seen, InputsOf(sys, c, Val(sys, k2.cells), shown, {}));
       k3.cells[c] == kp.cells[c].(user := kp.cells[c].user && Choice.AllUser(seen), tri := if sel.None? then NO
                                   else YES, sel := sel)
  }

  lemma CombinedIs(sys: System, s: Symbol, dir: Tristate, rev: Tristate, implied: Tristate, own: Tristate)
    ensures var tri := if dir == NO && rev != NO then NO else TriOr(own, rev);
            Combined(sys, s, dir, rev, implied, own)
            == if tri == MOD && (Choice.ChoiceType(s.Kind(), sys.modules) == BooleanType || implied == YES) then YES
              else tri
  {
  }

  lemma ChoiceHasBegun(sys: System, rank: Symbol -> nat, b: nat, c: Symbol, k0: Snapshot, k1: Snapshot, kp: Snapshot)
    requires c in sys.groups && c in sys.defs && c in k0.cells && c in k1.cells && c in kp.cells
             && k1.cells[c] == k0.cells[c]
    requires kp == Snapshot(k1.cells[c := kp.cells[c]], k1.valid) && Advanced(sys, rank, b, {}, k0, k1)
    requires var p := kp.cells[c];
             && OwnIs(sys, k1, c, p.visible, p.dir, p.rev, p.implied)
             && p == k0.cells[c].(visible := p.visible, dir := p.dir, rev := p.rev, implied := p.implied, tri := p.tri,
                                  sel := None)
             && p.tri == Combined(sys, c, p.dir, p.rev, p.implied,
                                  if p.visible != NO && p.user then TriAnd(p.defTri, p.visible) else NO)
    ensures ChoiceBegun(sys, rank, b, c, k0, k1, kp)
  {
    hide Combined, OwnIs, Advanced;
  }

  lemma GrowingChoice(sys: System, rank: Symbol -> nat, b0: nat, b: nat, k0: Snapshot, k1: Snapshot, c: Symbol,
                      cells: Cells)
    requires Advanced(sys, rank, b0, {}, k0, k1) && c in sys.groups && Ordered(sys, rank, k0.valid)
             && LowSelection(sys, rank, k0.valid, b, c)
    requires c in k1.cells && c in k0.valid && c in cells && cells == k1.cells[c := cells[c]]
             && SameUser(k1.cells, cells, c)
    ensures Ordered(sys, rank, k1.valid) && LowSelection(sys, rank, k1.valid, b, c)
            && SameUsers(sys, c, k0.cells, cells)
    ensures k0.valid <= k1.valid
  {
    hide Fit, Ordered, LowSelection, Proper, Advanced;
    AdvancedFit(sys, rank, b0, k0, k1);
    GrowingSelection(sys, rank, b, k0.valid, k1.valid, c);
    ChoiceIsNoMember(sys, c);
    AdvancedSelf(sys, rank, b0, {}, k0, k1, c);
    forall i | 0 <= i < |sys.groups[c]| ensures SameUser(k0.cells, cells, sys.groups[c][i]) {
      GroupMember(sys, c, i);
      MemberUser(sys, rank, b0, {}, k0, k1, sys.groups[c][i]);
    }
  }

  /** Progress before and while the choice `c`, which is not read, looks at its members. */
  lemma OpenTransitive(sys: System, rank: Symbol -> nat, b: nat, c: Symbol, k0: Snapshot, k1: Snapshot, k2: Snapshot)
    requires Advanced(sys, rank, b, {}, k0, k1) && Advanced(sys, rank, b, {c}, k1, k2)
             && Unread(sys, rank, b, k0.valid, c)
    ensures Advanced(sys, rank, b, {c}, k0, k2)
  {
    hide RightAt, Fit, Proper, Reads;
    forall s | s in sys.defs && (s in k0.valid || s !in k2.valid) ensures Kept(sys, {c}, k0, k2, s) {
      assert Kept(sys, {}, k0, k1, s) && Kept(sys, {c}, k1, k2, s);
    }
    forall s | s in k2.valid && s !in k0.valid ensures s in sys.defs && rank(s) < b && RightAt(sys, k0.cells, k2, s) {
      if s in k1.valid {
        UnreadStays(sys, rank, b, c, k0, k1, k2, s);
      } else {
        SecondIsRight(sys, rank, b, {}, {c}, k0, k1, k2, s);
      }
    }
  }

  lemma UnreadStays(sys: System, rank: Symbol -> nat, b: nat, c: Symbol, k0: Snapshot, k1: Snapshot, k2: Snapshot,
                    s: Symbol)
    requires Advanced(sys, rank, b, {}, k0, k1) && Advanced(sys, rank, b, {c}, k1, k2)
             && Unread(sys, rank, b, k0.valid, c)
    requires s in k1.valid && s !in k0.valid
    ensures s in sys.defs && RightAt(sys, k0.cells, k2, s)
  {
    hide RightAt, Fit;
    FitFacts(sys, k0.cells);
    assert RightAt(sys, k0.cells, k1, s) && Kept(sys, {c}, k1, k2, s);
    if k2.cells[s].visible != k1.cells[s].visible {
      assert s in sys.choiceOf;
      if sys.defs[s].prompts == [] {
        FitUnseen(sys, k1.cells, s);
        FitUnseen(sys, k2.cells, s);
      } else {
        RightMember(sys, k0.cells, k1, s);
        ReadsItsChoice(sys, s);
      }
    }
    forall r | r in k1.valid && r in sys.defs
      ensures k2.cells[r].tri == k1.cells[r].tri && k2.cells[r].sel == k1.cells[r].sel
    {
      assert Kept(sys, {c}, k1, k2, r);
    }
    SelfSame(sys, k0.cells, s);
    RightKept(sys, k0.cells, k1, k0.cells, k2, s);
  }

  lemma ReadsItsChoice(sys: System, m: Symbol)
    requires Proper(sys) && m in sys.choiceOf && m in sys.defs && sys.defs[m].prompts != []
    ensures Reads(sys, m, sys.choiceOf[m])
  {
    assert sys.choiceOf[m] in DepRefs(sys.defs[m].prompts[0]);
  }

  lemma ChoiceAfter(sys: System, rank: Symbol -> nat, b: nat, c: Symbol, k0: Snapshot, k1: Snapshot, kp: Snapshot,
                    k2: Snapshot, k3: Snapshot, shown: nat -> Tristate)
    requires Fit(sys, k0.cells) && Fit(sys, k1.cells) && Fit(sys, k3.cells) && c in sys.groups && c in sys.defs
             && c in kp.cells
    requires kp == Snapshot(k1.cells[c := kp.cells[c]], k1.valid)
    requires if kp.cells[c].tri != YES then k3 == kp else Selecting(sys, rank, b, c, k0.cells, kp, k2, k3, shown)
    ensures k1.valid <= k3.valid
    ensures forall r :: r in k1.valid && r in sys.defs && r != c ==> k3.cells[r].tri == k1.cells[r].tri
  {
    hide MembersSeen, SelectionReady, SeenMembers, InputsOf, Choice.Selected, Choice.AllUser, RightAt;
    FitFacts(sys, k1.cells);
    forall r | r in k1.valid && r in sys.defs && r != c ensures k3.cells[r].tri == k1.cells[r].tri {
      if kp.cells[c].tri == YES { assert Kept(sys, {c}, kp, k2, r); }
    }
  }

  /** The value of the choice before the selection, in terms of the whole group. */
  lemma ChoiceValueIs(sys: System, c: Symbol, u: Cells, k: Snapshot, shown: nat -> Tristate, p: Cell)
    requires Fit(sys, u) && c in sys.groups && c in sys.defs && OwnIs(sys, k, c, p.visible, p.dir, p.rev, p.implied)
    requires p.user == u[c].user && p.defTri == u[c].defTri
    ensures ChoiceValue(sys, c, u, Val(sys, k.cells), shown)
         == Combined(sys, c, p.dir, p.rev, p.implied, if p.visible != NO && p.user then TriAnd(p.defTri, p.visible)
                     else NO)
  {
    hide OwnReady, PromptTris, RevTri, EvalDep;
  }

  lemma OwnCellIs(sys: System, c: Symbol, u: Cells, k: Snapshot, shown: nat -> Tristate, p: Cell)
    requires Fit(sys, u) && c in sys.groups && c in sys.defs && OwnIs(sys, k, c, p.visible, p.dir, p.rev, p.implied)
    ensures var g, env := GroupOf(sys, u, c), InputsOf(sys, c, Val(sys, k.cells), shown, {});
            && Choice.Visibility(c.Kind(), env.prompts, sys.modules) == p.visible && Choice.DirDep(g, env) == p.dir
            && Choice.RevDep(g, env) == p.rev && Choice.Implied(g, env) == p.implied
  {
    hide OwnReady, PromptTris, RevTri, EvalDep;
  }

  /** What the choice selected, seen from the end. */
  lemma SelectingIs(sys: System, rank: Symbol -> nat, b: nat, c: Symbol, u: Cells, kp: Snapshot, k2: Snapshot,
                    k3: Snapshot,
                    shown: nat -> Tristate)
    requires Fit(sys, u) && Fit(sys, k3.cells) && c in sys.groups && c in kp.cells
             && Selecting(sys, rank, b, c, u, kp, k2, k3, shown)
    ensures var v := Val(sys, k3.cells);
            var seen := SeenMembers(sys, c, u, v, shown);
            var sel := Choice.Selected(u[c].defSel, seen, InputsOf(sys, c, v, shown, {}));
            && SelectionReady(sys, k3.valid, c, u, v, shown)
            && k3.cells[c] == kp.cells[c].(user := kp.cells[c].user && Choice.AllUser(seen), tri := if sel.None?
                                           then NO else YES, sel := sel)
  {
    hide MembersSeen, SelectionReady, SeenMembers, InputsOf, Choice.Selected, Choice.AllUser, Advanced, Fit;
    AdvancedOpenFit(sys, rank, b, {c}, kp, k2);
    FitFacts(sys, k2.cells);
    FitFacts(sys, k3.cells);
    ValSame(sys, k2.valid - {c}, k2.cells, k3.cells);
    UsersSelf(sys, u, c);
    SelectionSame(sys, k2.valid, c, u, u, Val(sys, k2.cells), Val(sys, k3.cells), shown);
    AllUserSame(SeenMembers(sys, c, u, Val(sys, k2.cells), shown), SeenMembers(sys, c, u, Val(sys, k3.cells), shown));
  }

  lemma UsersSelf(sys: System, u: Cells, c: Symbol)
    requires Fit(sys, u) && c in sys.groups
    ensures SameUsers(sys, c, u, u)
  {
  }

  lemma AllUserSame(s1: seq<Choice.Member>, s2: seq<Choice.Member>)
    requires SameSeen(s1, s2)
    ensures Choice.AllUser(s1) == Choice.AllUser(s2)
  {
  }

  /** A choice that has made its selection, or is not y, is right. */
  lemma ChoiceIsRight(sys: System, rank: Symbol -> nat, b0: nat, b: nat, c: Symbol, k0: Snapshot, k1: Snapshot,
                      kp: Snapshot,
                      k2: Snapshot, k3: Snapshot, shown: nat -> Tristate)
    requires Fit(sys, k0.cells) && Fit(sys, k3.cells) && c in sys.groups && c in sys.defs && c in kp.cells
             && !OwnReads(sys, c, c)
    requires ChoiceBegun(sys, rank, b0, c, k0, k1, kp)
    requires if kp.cells[c].tri != YES then k3 == kp else Selecting(sys, rank, b, c, k0.cells, kp, k2, k3, shown)
    ensures ChoiceReady(sys, k3.valid, c, k0.cells, Val(sys, k3.cells), shown)
    ensures k3.cells[c] == ChoiceCell(sys, c, k0.cells, Val(sys, k3.cells), shown)
  {
    hide Advanced, Fit, OwnIs, OwnReads, Proper, SelectionReady, SeenMembers, InputsOf, OwnReady, ChoiceCell,
         ChoiceValue, Combined;
    hide Choice.Selected, Choice.AllUser, Selecting;
    var p := kp.cells[c];
    FitFacts(sys, k3.cells);
    AdvancedFit(sys, rank, b0, k0, k1);
    ChoiceAfter(sys, rank, b, c, k0, k1, kp, k2, k3, shown);
    OwnStays(sys, k1, k3, c, p.visible, p.dir, p.rev, p.implied);
    ChoiceValueIs(sys, c, k0.cells, k3, shown, p);
    ChoiceCellIs(sys, c, k0.cells, Val(sys, k3.cells), shown);
    OwnCellIs(sys, c, k0.cells, k3, shown, p);
    if p.tri == YES { SelectingIs(sys, rank, b, c, k0.cells, kp, k2, k3, shown); }
  }

  ghost predicate Lower(sys: System, rank: Symbol -> nat, valid: set<Symbol>, s: Symbol)
    requires Proper(sys) && s in sys.defs
  {
    forall r :: r in sys.defs && r !in valid && Reads(sys, s, r) ==> rank(r) < rank(s)
  }

  lemma LowerOwn(sys: System, rank: Symbol -> nat, valid: set<Symbol>, s: Symbol)
    requires Proper(sys) && s in sys.defs && Lower(sys, rank, valid, s)
    ensures LowOwn(sys, rank, valid, rank(s), s)
  {
    hide CondReads, ValueReads, SelectionReads, DepRefs, Refs, Proper;
    forall k | 0 <= k < |sys.defs[s].prompts| ensures Low(sys, rank, valid, rank(s), sys.defs[s].prompts[k]) {
      forall r | r in DepRefs(sys.defs[s].prompts[k]) ensures PromptReads(sys, s, r) {}
    }
  }

  lemma LowerDefaults(sys: System, rank: Symbol -> nat, valid: set<Symbol>, s: Symbol)
    requires Proper(sys) && s in sys.defs && s !in sys.groups && Lower(sys, rank, valid, s)
    ensures LowDefaults(sys, rank, valid, rank(s), s)
  {
    hide OwnReads, SelectionReads, Refs, Proper;
    var d := sys.defs[s].defaults;
    forall k | 0 <= k < |d|
      ensures Low(sys, rank, valid, rank(s), d[k].cond) && Low(sys, rank, valid, rank(s), Some(d[k].value))
    {
      forall r | r in DepRefs(d[k].cond) ensures CondReads(sys, s, r) {}
      forall r | r in DepRefs(Some(d[k].value)) ensures ValueReads(sys, s, r) {}
    }
  }

  lemma LowerSelection(sys: System, rank: Symbol -> nat, valid: set<Symbol>, s: Symbol)
    requires Proper(sys) && s in sys.groups && s in sys.defs && s in valid && Lower(sys, rank, valid, s)
    ensures LowSelection(sys, rank, valid, rank(s), s)
  {
    hide OwnReads, ValueReads, DepRefs, Refs, Proper;
    FitMembers(sys, s);
    forall i, k | 0 <= i < |sys.groups[s]| && 0 <= k < |sys.defs[sys.groups[s][i]].prompts|
      ensures Low(sys, rank, valid, rank(s), sys.defs[sys.groups[s][i]].prompts[k])
    {
      forall r | r in DepRefs(sys.defs[sys.groups[s][i]].prompts[k]) ensures SelectionReads(sys, s, r) {
        assert PromptReads(sys, sys.groups[s][i], r);
      }
    }
    forall k | 0 <= k < |sys.defs[s].defaults| ensures Low(sys, rank, valid, rank(s), sys.defs[s].defaults[k].cond) {
      forall r | r in DepRefs(sys.defs[s].defaults[k].cond) ensures CondReads(sys, s, r) {}
    }
  }

  lemma FitMembers(sys: System, c: Symbol)
    requires Proper(sys) && c in sys.groups
    ensures forall i :: 0 <= i < |sys.groups[c]| ==> sys.groups[c][i] in sys.defs
  {
  }

  /** What a symbol reads that is still to be calculated is of lower rank. */
  lemma LowerReads(sys: System, rank: Symbol -> nat, valid: set<Symbol>, s: Symbol)
    requires Proper(sys) && Ordered(sys, rank, valid) && s in sys.defs && s !in valid
    ensures Ordered(sys, rank, valid + {s}) && Unread(sys, rank, rank(s), valid + {s}, s)
    ensures !Reads(sys, s, s) && !OwnReads(sys, s, s)
    ensures LowOwn(sys, rank, valid + {s}, rank(s), s) && LowPrompts(sys, rank, valid + {s}, rank(s), s)
    ensures s in sys.groups ==> LowSelection(sys, rank, valid + {s}, rank(s), s)
    ensures s !in sys.groups ==> LowDefaults(sys, rank, valid + {s}, rank(s), s)
  {
    OrderedGrows(sys, rank, valid, valid + {s});
    var b, v := rank(s), valid + {s};
    hide OwnReads, PromptReads, CondReads, ValueReads, SelectionReads, DepRefs, Refs;
    forall r | r in sys.defs && r !in v && Reads(sys, s, r) ensures rank(r) < b {}
    LowerOwn(sys, rank, v, s);
    if s in sys.groups { LowerSelection(sys, rank, v, s); } else { LowerDefaults(sys, rank, v, s); }
  }

  lemma ChoiceRightAt(sys: System, u: Cells, k: Snapshot, c: Symbol, shown: nat -> Tristate)
    requires Fit(sys, u) && Fit(sys, k.cells) && c in sys.groups && c in sys.defs
    requires ChoiceReady(sys, k.valid, c, u, Val(sys, k.cells), shown)
             && k.cells[c] == ChoiceCell(sys, c, u, Val(sys, k.cells), shown)
    ensures RightAt(sys, u, k, c)
  {
    hide ChoiceReady, ChoiceCell, Fit;
  }

  lemma ChoiceFinished(sys: System, rank: Symbol -> nat, b: nat, c: Symbol, k0: Snapshot, k1: Snapshot, kp: Snapshot,
                       k2: Snapshot, k3: Snapshot, shown: nat -> Tristate)
    requires Fit(sys, k0.cells) && Fit(sys, k3.cells) && c in sys.groups && c in sys.defs && c !in k0.valid
             && c in kp.cells
    requires Ordered(sys, rank, k0.valid) && rank(c) < b && Unread(sys, rank, rank(c), k0.valid + {c}, c)
             && !OwnReads(sys, c, c)
    requires ChoiceBegun(sys, rank, rank(c), c, Snapshot(k0.cells, k0.valid + {c}), k1, kp)
    requires if kp.cells[c].tri != YES then k3 == kp else Selecting(sys, rank, rank(c), c, k0.cells, kp, k2, k3, shown)
    ensures Advanced(sys, rank, b, {}, k0, k3) && c in k3.valid
  {
    hide Advanced, Fit, OwnIs, OwnReads, Proper, Selecting, Reads, Unread, RightAt, Combined, Ordered, ChoiceReady,
         ChoiceCell;
    var ka := Snapshot(k0.cells, k0.valid + {c});
    ChoiceIsRight(sys, rank, rank(c), rank(c), c, ka, k1, kp, k2, k3, shown);
    ChoiceRightAt(sys, k0.cells, k3, c, shown);
    AdvancedFit(sys, rank, rank(c), ka, k1);
    if kp.cells[c].tri != YES {
      OpenMore(sys, rank, rank(c), c, ka, k1);
      Finished(sys, rank, b, k0, k1, k3.cells[c], c);
    } else {
      UnreadGrows(sys, rank, rank(c), ka.valid, k1.valid, c);
      var k2r := Reopened(sys, rank, rank(c), c, k0.cells, k1, kp, k2, k3, shown);
      OpenTransitive(sys, rank, rank(c), c, ka, k1, k2r);
      Finished(sys, rank, b, k0, k2r, k3.cells[c], c);
    }
  }

  /** The selection as progress from before the choice was written. */
  lemma Reopened(sys: System, rank: Symbol -> nat, b: nat, c: Symbol, u: Cells, k1: Snapshot, kp: Snapshot,
                 k2: Snapshot, k3: Snapshot, shown: nat -> Tristate) returns (k2r: Snapshot)
    requires Fit(sys, u) && Fit(sys, k1.cells) && c in sys.groups && c in sys.defs && c in kp.cells && c in k1.cells
             && c in u
    requires Unread(sys, rank, b, k1.valid, c) && kp == Snapshot(k1.cells[c := kp.cells[c]], k1.valid)
    requires k1.cells[c] == u[c] && BegunCell(sys, c, u[c], kp.cells[c])
    requires Selecting(sys, rank, b, c, u, kp, k2, k3, shown)
    ensures c in k2.cells && k2r == Snapshot(k2.cells[c := k1.cells[c]], k2.valid)
            && Advanced(sys, rank, b, {c}, k1, k2r)
    ensures c in k3.cells && k3 == Snapshot(k2r.cells[c := k3.cells[c]], k2r.valid)
  {
    hide Advanced, Fit, Proper, SelectionReady, SeenMembers, InputsOf, MembersSeen, Unread, Combined, Choice.Selected,
         Choice.AllUser;
    AdvancedOpenFit(sys, rank, b, {c}, kp, k2);
    FitFacts(sys, k1.cells);
    ChoiceIsNoMember(sys, c);
    FitWrite(sys, k2.cells, c, k1.cells[c]);
    Unwrite(sys, rank, b, {c}, k1, kp.cells[c], k2, c);
    k2r := Snapshot(k2.cells[c := k1.cells[c]], k2.valid);
    assert k2r.cells[c := k3.cells[c]] == k3.cells;
  }

  lemma OpenMore(sys: System, rank: Symbol -> nat, b: nat, c: Symbol, k0: Snapshot, k1: Snapshot)
    requires Advanced(sys, rank, b, {}, k0, k1)
    ensures Advanced(sys, rank, b, {c}, k0, k1)
  {
    hide RightAt, Fit;
    forall s | s in sys.defs && (s in k0.valid || s !in k1.valid) ensures Kept(sys, {c}, k0, k1, s) {
      assert Kept(sys, {}, k0, k1, s);
    }
  }

  lemma Growing(sys: System, rank: Symbol -> nat, b: nat, k0: Snapshot, k1: Snapshot, s: Symbol)
    requires Advanced(sys, rank, b, {}, k0, k1) && s in sys.defs && Ordered(sys, rank, k0.valid)
    requires Unread(sys, rank, b, k0.valid, s) && LowDefaults(sys, rank, k0.valid, b, s)
    ensures Ordered(sys, rank, k1.valid) && Unread(sys, rank, b, k1.valid, s) && LowDefaults(sys, rank, k1.valid, b, s)
    ensures k0.valid <= k1.valid
  {
    hide Ordered, LowDefaults, Unread, Fit;
    AdvancedFit(sys, rank, b, k0, k1);
    OrderedGrows(sys, rank, k0.valid, k1.valid);
    UnreadGrows(sys, rank, b, k0.valid, k1.valid, s);
    LowDefaultsGrow(sys, rank, k0.valid, k1.valid, b, s);
  }

  lemma UnreadGrows(sys: System, rank: Symbol -> nat, b: nat, a: set<Symbol>, v: set<Symbol>, s: Symbol)
    requires Proper(sys) && Unread(sys, rank, b, a, s) && a <= v
    ensures Unread(sys, rank, b, v, s)
  {
    hide Reads;
  }

  lemma LowDefaultsGrow(sys: System, rank: Symbol -> nat, a: set<Symbol>, v: set<Symbol>, b: nat, s: Symbol)
    requires s in sys.defs && LowDefaults(sys, rank, a, b, s) && a <= v
    ensures LowDefaults(sys, rank, v, b, s)
  {
    hide DepRefs;
  }

  lemma WriteTwice(cells: Cells, s: Symbol, a: Cell, b: Cell)
    ensures cells[s := a][s := b] == cells[s := b]
  {
  }

  lemma FitWrite(sys: System, cells: Cells, s: Symbol, cell: Cell)
    requires Fit(sys, cells) && s in cells && cell.defSel == cells[s].defSel
    requires s in sys.choiceOf && sys.defs[s].prompts == [] ==> cell.visible == NO
    requires s in sys.choiceOf ==> cell.rev == cells[s].rev && cell.implied == cells[s].implied
    ensures Fit(sys, cells[s := cell])
  {
  }

  lemma NoPrompts(sys: System, k: Snapshot, s: Symbol)
    requires s in sys.defs
    ensures PromptsSoFar(sys, k, s, 0, NO)
  {
  }

  lemma AllPrompts(sys: System, k: Snapshot, s: Symbol, v: Tristate)
    requires s in sys.defs && PromptsSoFar(sys, k, s, |sys.defs[s].prompts|, v)
    ensures PromptsReady(sys, k.valid, s) && v == Choice.Highest(PromptTris(sys, s, Val(sys, k.cells)))
  {
    var t := PromptTris(sys, s, Val(sys, k.cells));
    assert t[..|t|] == t;
  }
}
