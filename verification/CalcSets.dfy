/**
 * Setting a boolean or tristate symbol: sym_tristate_within_range and
 * sym_set_tristate_value of scripts/config/symbol.c.
 */
module CalcSets {
  import opened Basics
  import opened Exprs
  import opened Calc
  import opened CalcSteps
  import Choice

  /** sym_get_type */
  function TypeOf(sys: System, s: Symbol, cell: Cell): SymbolType {
    if s.Kind() == TristateType && ((s in sys.choiceOf && cell.visible == YES) || sys.modules == NO) then BooleanType
    else s.Kind()
  }

  /** sym_tristate_within_range */
  predicate InRange(sys: System, s: Symbol, cell: Cell, val: Tristate) {
    && cell.visible != NO
    && !(TypeOf(sys, s, cell) == BooleanType && val == MOD)
    && cell.visible > cell.rev
    && !(cell.implied == YES && val == MOD)
    && if s in sys.choiceOf && cell.visible == YES then val == YES else cell.rev <= val <= cell.visible
  }

  predicate Accepts(sys: System, s: Symbol, cell: Cell, val: Tristate) {
    cell.tri == val || InRange(sys, s, cell, val)
  }

  /**
   * The cell of `r` when the user has set `s`: a member at y is selected, and no visible member of its choice
   * is new.
   */
  function SetCell(sys: System, cells: Cells, s: Symbol, val: Tristate, r: Symbol): Cell
    requires Proper(sys) && r in cells
  {
    if s in sys.choiceOf && val == YES && r == sys.choiceOf[s] then
      cells[r].(user := true, defSel := Some(Index(sys.groups[r], s)))
    else
      cells[r].(user := cells[r].user || r == s || (s in sys.choiceOf && val == YES && SeenWith(sys, cells[r], s, r)),
                defTri := if r == s then val else cells[r].defTri)
  }

  predicate SeenWith(sys: System, cell: Cell, s: Symbol, r: Symbol)
    requires Proper(sys) && s in sys.choiceOf
  {
    r in sys.groups[sys.choiceOf[s]] && cell.visible != NO
  }

  function CellsSet(sys: System, cells: Cells, s: Symbol, val: Tristate): Cells
    requires Proper(sys)
  {
    map r | r in cells :: SetCell(sys, cells, s, val, r)
  }

  lemma SetFits(sys: System, cells: Cells, s: Symbol, val: Tristate)
    requires Fit(sys, cells) && s in sys.defs
    ensures Fit(sys, CellsSet(sys, cells, s, val))
  {
  }

  lemma MemberAccepts(sys: System, cells: Cells, m: Symbol, val: Tristate)
    requires Fit(sys, cells) && m in sys.choiceOf
    ensures var c := sys.choiceOf[m];
            Choice.Accepts(GroupOf(sys, cells, c), Index(sys.groups[c], m), val) == Accepts(sys, m, cells[m], val)
  {
  }

  /** To set a member is to set it in the radio group, where the same values are accepted. */
  lemma MemberSetIs(sys: System, cells: Cells, m: Symbol, val: Tristate)
    requires Fit(sys, cells) && m in sys.choiceOf && Accepts(sys, m, cells[m], val)
    ensures var c := sys.choiceOf[m];
            var i, g := Index(sys.groups[c], m), GroupOf(sys, cells, c);
            Choice.Accepts(g, i, val) && GroupOf(sys, CellsSet(sys, cells, m, val), c) == Choice.MemberSet(g, i, val)
  {
    hide Accepts, Choice.Accepts, Fit;
    MemberAccepts(sys, cells, m, val);
    FitFacts(sys, cells);
    MemberOfGroup(sys, m);
    var c := sys.choiceOf[m];
    var list, i, g, h := sys.groups[c], Index(sys.groups[c], m), GroupOf(sys, cells, c),
      GroupOf(sys, CellsSet(sys, cells, m, val), c);
    forall j | 0 <= j < |list| ensures h.members[j] == Choice.MemberSet(g, i, val).members[j] {
      assert list[j] in list && (list[j] == m <==> j == i);
    }
  }

  /** To set a choice is to set it in the radio group. */
  lemma ChoiceSetIs(sys: System, cells: Cells, c: Symbol, val: Tristate)
    requires Fit(sys, cells) && c in sys.groups
    ensures var g := GroupOf(sys, cells, c);
            && Accepts(sys, c, cells[c], val) == (g.tri == val || Choice.ChoiceInRange(g, val))
            && (Accepts(sys, c, cells[c], val) ==>
                GroupOf(sys, CellsSet(sys, cells, c, val), c) == Choice.ChoiceSet(g, val))
  {
  }

  /**
   * An ordinary symbol that takes a value within its range has it after the next calculation with
   * the same inputs, exactly if it is not selected against its dependencies.
   */
  lemma AcceptedValueIs(sys: System, s: Symbol, u: Cell, v: Valuation, val: Tristate)
    requires s in sys.defs && s.IsLogical() && s !in sys.choiceOf
    requires InRange(sys, s, SymbolCell(sys, s, u, v), val)
    ensures var now := SymbolCell(sys, s, u, v);
            SymbolCell(sys, s, now.(user := true, defTri := val), v).tri == val
            <==> !(now.dir == NO && now.rev != NO)
  {
    hide Visible, DirTri, ImpliedTri, RevTri, DefaultTri;
  }

  /**
   * A member `s` was set to y: it is the one that the user wants, and of the members in `list` none that is
   * visible is new.
   */
  ghost predicate Flagged(sys: System, u: Cells, s: Symbol, list: seq<Symbol>, after: Cells)
    requires Proper(sys) && s in sys.choiceOf
  {
    var c := sys.choiceOf[s];
    && after.Keys == u.Keys && c in u
    && after[c] == u[c].(user := true, defSel := Some(Index(sys.groups[c], s)))
    && forall r :: r in u && r != c ==>
         after[r] == u[r].(user := u[r].user || r == s || (r in list && u[r].visible != NO))
  }

  lemma FlagNone(sys: System, u: Cells, s: Symbol)
    requires Proper(sys) && s in sys.choiceOf && s in u && sys.choiceOf[s] in u && s != sys.choiceOf[s]
    ensures var c, before := sys.choiceOf[s], u[s := u[s].(user := true)];
            Flagged(sys, u, s, [], before[c := before[c].(user := true, defSel := Some(Index(sys.groups[c], s)))])
  {
    hide Proper, Index;
  }

  lemma FlagMore(sys: System, u: Cells, s: Symbol, list: seq<Symbol>, m: Symbol, after: Cells)
    requires Proper(sys) && s in sys.choiceOf && Flagged(sys, u, s, list, after) && m in u && m != sys.choiceOf[s]
    ensures var more := if after[m].visible != NO then after[m := after[m].(user := true)] else after;
            Flagged(sys, u, s, list + [m], more)
  {
    hide Proper, Index;
  }

  /** The cells are those that the set leaves. */
  lemma SetDone(sys: System, u: Cells, s: Symbol, val: Tristate, before: Cells, after: Cells)
    requires Proper(sys) && u.Keys == sys.defs.Keys && s in u && before.Keys == u.Keys
    requires if s in sys.choiceOf && val == YES then Flagged(sys, u, s, sys.groups[sys.choiceOf[s]], before)
             && s != sys.choiceOf[s]
             else before == u[s := u[s].(user := true)]
    requires after == before[s := before[s].(defTri := val)]
    ensures after == CellsSet(sys, u, s, val)
  {
    hide Proper, Index;
    forall r | r in u ensures after[r] == SetCell(sys, u, s, val, r) {}
  }
}
