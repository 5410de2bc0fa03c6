/**
 * What the values of symbols are worth, given the values of the symbols that they depend on
 * (sym_calc_visibility and sym_calc_value of scripts/config/symbol.c): boolean and
 * tristate symbols, choices and their members among them.
 */
module Calc {
  import opened Basics
  import opened Exprs
  import Choice

  /** A default: its condition, and its value. A default of a choice names a symbol. */
  datatype Default = Default(cond: Option<Expr>, value: Expr)

  /** What a symbol depends on: the conditions of its prompts, dir_dep, rev_dep and implied, and its defaults. */
  datatype Def = Def(prompts: seq<Option<Expr>>, dir: Option<Expr>, rev: Option<Expr>, implied: Option<Expr>,
                     defaults: seq<Default>)

  /**
   * The symbols that are calculated, the members of each choice, and the choice of each
   * member. `given` holds the values of all other symbols, `shown` their visibility.
   */
  datatype System = System(defs: map<Symbol, Def>, groups: map<Symbol, seq<Symbol>>, choiceOf: map<Symbol, Symbol>,
                           modules: Tristate, given: Valuation, shown: Symbol -> Tristate)

  /**
   * A symbol as last calculated, with SYMBOL_DEF_USER and what the user set. The symbol that a
   * choice selects is a number: that of a member, or beyond these that of a default.
   */
  datatype Cell = Cell(visible: Tristate, dir: Tristate, rev: Tristate, implied: Tristate, tri: Tristate,
                       sel: Option<nat>,
                       user: bool, defTri: Tristate, defSel: Option<nat>)

  const NEW := Cell(NO, NO, NO, NO, NO, None, false, NO, None)

  type Cells = map<Symbol, Cell>

  function Refs(e: Expr): set<Symbol> {
    match e
    case Sym(s) => {s}
    case Cmp(_, l, r) => {l, r}
    case Not(x) => Refs(x)
    case Bin(_, l, r) => Refs(l) + Refs(r)
  }

  function DepRefs(e: Option<Expr>): set<Symbol> { if e.None? then {} else Refs(e.value) }

  /**
   * The members are listed once, below one choice; a choice is no member; and every prompt of a
   * member depends on its choice, as menu finalisation leaves it.
   */
  ghost predicate Proper(sys: System) {
    && (forall s :: s in sys.defs ==> s.IsLogical())
    && (forall c :: c in sys.groups ==> c in sys.defs && c !in sys.choiceOf)
    && (forall c, i :: c in sys.groups && 0 <= i < |sys.groups[c]| ==>
          sys.groups[c][i] in sys.choiceOf && sys.choiceOf[sys.groups[c][i]] == c)
    && (forall c, i, j :: c in sys.groups && 0 <= i < j < |sys.groups[c]| ==> sys.groups[c][i] != sys.groups[c][j])
    && (forall m :: m in sys.choiceOf ==>
          m in sys.defs && sys.choiceOf[m] in sys.groups && m in sys.groups[sys.choiceOf[m]])
    && (forall m, k :: m in sys.choiceOf && 0 <= k < |sys.defs[m].prompts| ==>
          sys.choiceOf[m] in DepRefs(sys.defs[m].prompts[k]))
  }

  // ----- values -----

  function Text(sys: System, t: Tristate): string { if t == MOD && sys.modules == NO then "n" else TriName(t) }

  function TriIn(sys: System, cells: Cells, s: Symbol): Tristate {
    if s in cells then cells[s].tri else sys.given.tri(s)
  }

  function StrIn(sys: System, cells: Cells, s: Symbol): string {
    if s in cells then Text(sys, cells[s].tri) else sys.given.str(s)
  }

  function Val(sys: System, cells: Cells): Valuation {
    Valuation((s: Symbol) => TriIn(sys, cells, s), (s: Symbol) => StrIn(sys, cells, s))
  }

  function TriWith(v: Valuation, c: Symbol, t: Tristate, s: Symbol): Tristate { if s == c then t else v.tri(s) }

  function StrWith(sys: System, v: Valuation, c: Symbol, t: Tristate, s: Symbol): string {
    if s == c then Text(sys, t) else v.str(s)
  }

  /** The same with another value of one symbol. */
  function With(sys: System, v: Valuation, c: Symbol, t: Tristate): Valuation {
    Valuation((s: Symbol) => TriWith(v, c, t, s), (s: Symbol) => StrWith(sys, v, c, t, s))
  }

  /** A prompt; one that is only m does not count for a tristate member of a choice at y. */
  function PromptTri(sys: System, s: Symbol, e: Option<Expr>, v: Valuation): Tristate {
    var t := EvalDep(e, v);
    if s in sys.choiceOf && s.Kind() == TristateType && t == MOD && v.tri(sys.choiceOf[s]) == YES then NO else t
  }

  function PromptTris(sys: System, s: Symbol, v: Valuation): seq<Tristate>
    requires s in sys.defs
  {
    seq(|sys.defs[s].prompts|, k requires 0 <= k < |sys.defs[s].prompts| =>
      PromptTri(sys, s, sys.defs[s].prompts[k], v))
  }

  function Visible(sys: System, s: Symbol, v: Valuation): Tristate
    requires s in sys.defs
  {
    Choice.Visibility(s.Kind(), PromptTris(sys, s, v), sys.modules)
  }

  /** A reverse dependency that is missing counts as n. */
  function RevTri(e: Option<Expr>, v: Valuation): Tristate { if e.None? then NO else Eval(e.value, v) }

  /** The first default, from number `k` on, whose condition is not n. */
  function DefaultTri(defaults: seq<Default>, k: nat, v: Valuation): Tristate
    requires k <= |defaults|
    decreases |defaults| - k
  {
    if k == |defaults| then NO
    else if EvalDep(defaults[k].cond, v) != NO then TriAnd(Eval(defaults[k].value, v), EvalDep(defaults[k].cond, v))
    else DefaultTri(defaults, k + 1, v)
  }

  // ----- ordinary symbols -----

  function DirTri(sys: System, s: Symbol, v: Valuation): Tristate
    requires s in sys.defs
  {
    Choice.Promoted(s.Kind(), sys.modules, EvalDep(sys.defs[s].dir, v))
  }

  function ImpliedTri(sys: System, s: Symbol, v: Valuation): Tristate
    requires s in sys.defs
  {
    Choice.Promoted(s.Kind(), sys.modules, if DirTri(sys, s, v) == NO then NO else RevTri(sys.defs[s].implied, v))
  }

  /** A symbol that is neither a choice nor a member, with what the user set in `u`. */
  function SymbolCell(sys: System, s: Symbol, u: Cell, v: Valuation): Cell
    requires s in sys.defs
  {
    var visible, dir, implied := Visible(sys, s, v), DirTri(sys, s, v), ImpliedTri(sys, s, v);
    var rev := Choice.Promoted(s.Kind(), sys.modules, RevTri(sys.defs[s].rev, v));
    var own := if visible != NO && u.user then TriAnd(u.defTri, visible)
               else TriOr(DefaultTri(sys.defs[s].defaults, 0, v), implied);
    u.(visible := visible, dir := dir, rev := rev, implied := implied, tri := Combined(sys, s, dir, rev, implied, own))
  }

  /** The value of a symbol from its own one and its dependencies. */
  function Combined(sys: System, s: Symbol, dir: Tristate, rev: Tristate, implied: Tristate, own: Tristate): Tristate {
    var tri := if dir == NO && rev != NO then NO else TriOr(own, rev);
    if tri == MOD && (Choice.ChoiceType(s.Kind(), sys.modules) == BooleanType || implied == YES) then YES else tri
  }

  // ----- choices and their members -----

  /** The prompts and the default of a member, as functions of the value of its choice. */
  function MemberInputs(sys: System, c: Symbol, m: Symbol, v: Valuation): Choice.MemberInputs
    requires m in sys.defs
  {
    var d := sys.defs[m];
    Choice.MemberInputs(
      seq(|d.prompts|, k requires 0 <= k < |d.prompts| => (t: Tristate) => EvalDep(d.prompts[k], With(sys, v, c, t))),
      (t: Tristate) => DefaultTri(d.defaults, 0, With(sys, v, c, t)))
  }

  function Index(list: seq<Symbol>, s: Symbol): (i: nat)
    requires s in list
    ensures i < |list| && list[i] == s
  {
    if list[0] == s then 0 else 1 + Index(list[1..], s)
  }

  /** The symbol named by the default `k` of a choice, and its number. */
  function Target(sys: System, c: Symbol, k: nat): Symbol
    requires c in sys.defs && k < |sys.defs[c].defaults|
  {
    if sys.defs[c].defaults[k].value.Sym? then sys.defs[c].defaults[k].value.sym else SYM_NO
  }

  function Number(sys: System, c: Symbol, k: nat): nat
    requires c in sys.defs && c in sys.groups && k < |sys.defs[c].defaults|
  {
    var s, list := Target(sys, c, k), sys.groups[c];
    if s in list then Index(list, s) else |list| + k
  }

  /** The visibility of the symbol with this number, if it is the target of a default. */
  function ShownTarget(sys: System, c: Symbol, shown: nat -> Tristate, n: nat): Tristate
    requires c in sys.defs && c in sys.groups
  {
    var size := |sys.groups[c]|;
    if size <= n < size + |sys.defs[c].defaults| then shown(n - size) else NO
  }

  /** What the calculation of the choice `c` reads: `shown` tells the visibility of the targets of defaults. */
  function InputsOf(sys: System, c: Symbol, v: Valuation, shown: nat -> Tristate, early: set<nat>): Choice.Inputs
    requires c in sys.defs && c in sys.groups && forall i :: 0 <= i < |sys.groups[c]| ==> sys.groups[c][i] in sys.defs
  {
    var d, list := sys.defs[c], sys.groups[c];
    Choice.Inputs(
      sys.modules, PromptTris(sys, c, v), EvalDep(d.dir, v), RevTri(d.rev, v), RevTri(d.implied, v),
      seq(|d.defaults|, k requires 0 <= k < |d.defaults| =>
        Choice.Default(EvalDep(d.defaults[k].cond, With(sys, v, c, YES)), Number(sys, c, k))),
      (n: nat) => ShownTarget(sys, c, shown, n),
      seq(|list|, i requires 0 <= i < |list| => MemberInputs(sys, c, list[i], v)),
      early)
  }

  function MemberOf(m: Symbol, cell: Cell): Choice.Member {
    Choice.Member(m.Kind(), cell.visible, cell.tri, cell.user, cell.defTri)
  }

  function GroupOf(sys: System, cells: Cells, c: Symbol): Choice.Group
    requires c in cells && c in sys.groups && forall i :: 0 <= i < |sys.groups[c]| ==> sys.groups[c][i] in cells
  {
    var cell, list := cells[c], sys.groups[c];
    Choice.Group(c.Kind(), sys.modules, cell.visible, cell.rev, cell.implied, cell.tri, cell.sel,
                 cell.user, cell.defTri, cell.defSel,
                 seq(|list|, i requires 0 <= i < |list| => MemberOf(list[i], cells[list[i]])))
  }

  /**
   * All calculated symbols have cells, the user's member of a choice is one of its members, and
   * the reverse dependencies of members are not calculated.
   */
  ghost predicate Fit(sys: System, cells: Cells) {
    && Proper(sys) && cells.Keys == sys.defs.Keys
    && (forall c :: c in sys.groups && cells[c].defSel.Some? ==> cells[c].defSel.value < |sys.groups[c]|)
    && (forall m :: m in sys.choiceOf && sys.defs[m].prompts == [] ==> cells[m].visible == NO)
    && (forall m :: m in sys.choiceOf ==> cells[m].rev == NO && cells[m].implied == NO)
  }

  /** The choice `c`, with what the user set in `u`. */
  function ChoiceCell(sys: System, c: Symbol, u: Cells, v: Valuation, shown: nat -> Tristate): Cell
    requires Fit(sys, u) && c in sys.groups
  {
    var g := Choice.ChoiceCalculated(GroupOf(sys, u, c), InputsOf(sys, c, v, shown, {}));
    u[c].(visible := g.visible, dir := DirTri(sys, c, v), rev := g.rev, implied := g.implied,
          tri := g.tri, sel := g.val, user := g.user)
  }

  /** The member `m` under its choice, which selects the symbol `sel`. */
  function MemberCell(sys: System, m: Symbol, u: Cell, v: Valuation, sel: Option<nat>): Cell
    requires Proper(sys) && m in sys.choiceOf
  {
    var c := sys.choiceOf[m];
    var r := Choice.MemberCalculated(MemberOf(m, u), MemberInputs(sys, c, m, v), v.tri(c),
                                     sel == Some(Index(sys.groups[c], m)), sys.modules);
    u.(visible := r.visible, tri := r.tri)
  }

  // ----- what a value depends on -----

  /** Every calculated symbol of the expression is in `valid`. */
  predicate Ready(sys: System, valid: set<Symbol>, e: Option<Expr>) {
    forall r :: r in DepRefs(e) && r in sys.defs ==> r in valid
  }

  predicate PromptsReady(sys: System, valid: set<Symbol>, s: Symbol)
    requires s in sys.defs
  {
    forall k :: 0 <= k < |sys.defs[s].prompts| ==> Ready(sys, valid, sys.defs[s].prompts[k])
  }

  /** The same for the defaults that are looked at, from number `k` on. */
  predicate DefaultsReady(sys: System, valid: set<Symbol>, defaults: seq<Default>, k: nat, v: Valuation)
    requires k <= |defaults|
    decreases |defaults| - k
  {
    k < |defaults| ==>
      && Ready(sys, valid, defaults[k].cond)
      && if EvalDep(defaults[k].cond, v) != NO then Ready(sys, valid, Some(defaults[k].value))
         else DefaultsReady(sys, valid, defaults, k + 1, v)
  }

  predicate OwnReady(sys: System, valid: set<Symbol>, s: Symbol, v: Valuation)
    requires s in sys.defs
  {
    && PromptsReady(sys, valid, s) && Ready(sys, valid, sys.defs[s].dir) && Ready(sys, valid, sys.defs[s].rev)
    && (DirTri(sys, s, v) != NO ==> Ready(sys, valid, sys.defs[s].implied))
  }

  predicate SymbolReady(sys: System, valid: set<Symbol>, s: Symbol, u: Cell, v: Valuation)
    requires s in sys.defs
  {
    && OwnReady(sys, valid, s, v)
    && (Visible(sys, s, v) == NO || !u.user ==> DefaultsReady(sys, valid, sys.defs[s].defaults, 0, v))
  }

  predicate MemberReady(sys: System, valid: set<Symbol>, m: Symbol, u: Cell, v: Valuation)
    requires m in sys.defs
  {
    && PromptsReady(sys, valid, m)
    && (Visible(sys, m, v) != YES && (Visible(sys, m, v) == NO || !u.user) ==>
          DefaultsReady(sys, valid, sys.defs[m].defaults, 0, v))
  }

  /** The members of the choice `c` as they are visible when it is y. */
  function SeenMembers(sys: System, c: Symbol, u: Cells, v: Valuation, shown: nat -> Tristate): seq<Choice.Member>
    requires Fit(sys, u) && c in sys.groups
  {
    Choice.Seen(GroupOf(sys, u, c).members, InputsOf(sys, c, v, shown, {}), YES)
  }

  /** The same for the defaults of a choice that are looked at. */
  predicate CondsReady(sys: System, valid: set<Symbol>, c: Symbol, seen: seq<Choice.Member>, env: Choice.Inputs, k: nat)
    requires c in sys.defs && |env.defaults| == |sys.defs[c].defaults| && k <= |env.defaults|
    decreases |env.defaults| - k
  {
    k < |env.defaults| ==>
      && Ready(sys, valid, sys.defs[c].defaults[k].cond)
      && (env.defaults[k].cond == NO || Choice.VisibleOf(seen, env, env.defaults[k].target) == NO ==>
            CondsReady(sys, valid, c, seen, env, k + 1))
  }

  /** The choice at y, with what it asks for to select a symbol. */
  predicate SelectionReady(sys: System, valid: set<Symbol>, c: Symbol, u: Cells, v: Valuation, shown: nat -> Tristate)
    requires Fit(sys, u) && c in sys.groups
  {
    var seen, user := SeenMembers(sys, c, u, v, shown), u[c].defSel;
    && (forall i :: 0 <= i < |sys.groups[c]| ==> PromptsReady(sys, valid, sys.groups[c][i]))
    && (user.None? || seen[user.value].visible == NO ==>
          CondsReady(sys, valid, c, seen, InputsOf(sys, c, v, shown, {}), 0))
  }

  function ChoiceValue(sys: System, c: Symbol, u: Cells, v: Valuation, shown: nat -> Tristate): Tristate
    requires Fit(sys, u) && c in sys.groups
  {
    Choice.ChoiceTri(GroupOf(sys, u, c), InputsOf(sys, c, v, shown, {}), u[c].user, u[c].defTri)
  }

  predicate ChoiceReady(sys: System, valid: set<Symbol>, c: Symbol, u: Cells, v: Valuation, shown: nat -> Tristate)
    requires Fit(sys, u) && c in sys.groups
  {
    && OwnReady(sys, valid - {c}, c, v)
    && (ChoiceValue(sys, c, u, v, shown) == YES ==> SelectionReady(sys, valid, c, u, v, shown))
  }

  /** The valuations agree on the symbols in `valid` and on those that are not calculated. */
  ghost predicate Same(sys: System, valid: set<Symbol>, v1: Valuation, v2: Valuation) {
    forall s :: s in valid || s !in sys.defs ==> v1.tri(s) == v2.tri(s) && v1.str(s) == v2.str(s)
  }

  lemma {:induction false} EvalSame(sys: System, valid: set<Symbol>, e: Expr, v1: Valuation, v2: Valuation)
    requires Ready(sys, valid, Some(e)) && Same(sys, valid, v1, v2)
    ensures Eval(e, v1) == Eval(e, v2)
  {
    match e
    case Sym(s) => assert s in DepRefs(Some(e));
    case Cmp(_, l, r) => assert l in DepRefs(Some(e)) && r in DepRefs(Some(e));
    case Not(x) => EvalSame(sys, valid, x, v1, v2);
    case Bin(_, l, r) =>
      EvalSame(sys, valid, l, v1, v2);
      EvalSame(sys, valid, r, v1, v2);
  }

  lemma DepSame(sys: System, valid: set<Symbol>, e: Option<Expr>, v1: Valuation, v2: Valuation)
    requires Ready(sys, valid, e) && Same(sys, valid, v1, v2)
    ensures EvalDep(e, v1) == EvalDep(e, v2) && RevTri(e, v1) == RevTri(e, v2)
  {
    if e.Some? { EvalSame(sys, valid, e.value, v1, v2); }
  }

  lemma WithSame(sys: System, valid: set<Symbol>, c: Symbol, t: Tristate, v1: Valuation, v2: Valuation)
    requires Same(sys, valid, v1, v2)
    ensures Same(sys, valid + {c}, With(sys, v1, c, t), With(sys, v2, c, t))
  {
  }

  lemma PromptsSame(sys: System, valid: set<Symbol>, s: Symbol, v1: Valuation, v2: Valuation)
    requires Proper(sys) && s in sys.defs && PromptsReady(sys, valid, s) && Same(sys, valid, v1, v2)
    ensures PromptTris(sys, s, v1) == PromptTris(sys, s, v2) && Visible(sys, s, v1) == Visible(sys, s, v2)
  {
    var p := sys.defs[s].prompts;
    forall k | 0 <= k < |p| ensures PromptTri(sys, s, p[k], v1) == PromptTri(sys, s, p[k], v2) {
      DepSame(sys, valid, p[k], v1, v2);
    }
    assert PromptTris(sys, s, v1) == PromptTris(sys, s, v2);
  }

  lemma {:induction false} DefaultsSame(sys: System, valid: set<Symbol>, d: seq<Default>, k: nat, v1: Valuation,
                                        v2: Valuation)
    requires k <= |d| && DefaultsReady(sys, valid, d, k, v1) && Same(sys, valid, v1, v2)
    ensures DefaultTri(d, k, v1) == DefaultTri(d, k, v2) && DefaultsReady(sys, valid, d, k, v2)
    decreases |d| - k
  {
    hide Ready, Same;
    if k < |d| {
      DepSame(sys, valid, d[k].cond, v1, v2);
      if EvalDep(d[k].cond, v1) != NO { EvalSame(sys, valid, d[k].value, v1, v2); }
      else { DefaultsSame(sys, valid, d, k + 1, v1, v2); }
    }
  }

  lemma OwnSame(sys: System, valid: set<Symbol>, s: Symbol, v1: Valuation, v2: Valuation)
    requires Proper(sys) && s in sys.defs && OwnReady(sys, valid, s, v1) && Same(sys, valid, v1, v2)
    ensures OwnReady(sys, valid, s, v2)
    ensures PromptTris(sys, s, v1) == PromptTris(sys, s, v2) && DirTri(sys, s, v1) == DirTri(sys, s, v2)
    ensures RevTri(sys.defs[s].rev, v1) == RevTri(sys.defs[s].rev, v2)
            && EvalDep(sys.defs[s].dir, v1) == EvalDep(sys.defs[s].dir, v2)
    ensures DirTri(sys, s, v1) != NO ==> RevTri(sys.defs[s].implied, v1) == RevTri(sys.defs[s].implied, v2)
  {
    hide Ready, Same, PromptTris;
    PromptsSame(sys, valid, s, v1, v2);
    DepSame(sys, valid, sys.defs[s].dir, v1, v2);
    DepSame(sys, valid, sys.defs[s].rev, v1, v2);
    if DirTri(sys, s, v1) != NO { DepSame(sys, valid, sys.defs[s].implied, v1, v2); }
  }

  lemma SymbolSame(sys: System, valid: set<Symbol>, s: Symbol, u: Cell, v1: Valuation, v2: Valuation)
    requires Proper(sys) && s in sys.defs && SymbolReady(sys, valid, s, u, v1) && Same(sys, valid, v1, v2)
    ensures SymbolReady(sys, valid, s, u, v2) && SymbolCell(sys, s, u, v1) == SymbolCell(sys, s, u, v2)
  {
    hide OwnReady, Same, PromptTris, DefaultsReady, RevTri, EvalDep;
    OwnSame(sys, valid, s, v1, v2);
    if Visible(sys, s, v1) == NO || !u.user { DefaultsSame(sys, valid, sys.defs[s].defaults, 0, v1, v2); }
  }

  // ----- the same for members and choices -----

  ghost predicate TextFits(sys: System, v: Valuation) { forall s :: s in sys.defs ==> v.str(s) == Text(sys, v.tri(s)) }

  /** What a member reads under a choice worth `t`. */
  lemma MemberUnder(sys: System, c: Symbol, m: Symbol, v: Valuation, t: Tristate)
    requires Proper(sys) && m in sys.choiceOf && sys.choiceOf[m] == c
    ensures var env := MemberInputs(sys, c, m, v);
            && Choice.MemberVisibility(m.Kind(), env, t, sys.modules) == Visible(sys, m, With(sys, v, c, t))
            && env.fallback(t) == DefaultTri(sys.defs[m].defaults, 0, With(sys, v, c, t))
  {
    var env := MemberInputs(sys, c, m, v);
    assert Choice.PromptsUnder(m.Kind(), env.prompts, t) == PromptTris(sys, m, With(sys, v, c, t));
  }

  lemma WithOwn(sys: System, v: Valuation, c: Symbol)
    requires c in sys.defs && TextFits(sys, v)
    ensures Same(sys, sys.defs.Keys, With(sys, v, c, v.tri(c)), v)
  {
  }

  /** The member, from what it reads. */
  lemma MemberCellIs(sys: System, m: Symbol, u: Cell, v: Valuation, sel: Option<nat>)
    requires Proper(sys) && m in sys.choiceOf && TextFits(sys, v)
    ensures var r := MemberCell(sys, m, u, v, sel);
            && r == u.(visible := Visible(sys, m, v), tri := r.tri)
            && r.tri == MemberTri(sys, m, u, Visible(sys, m, v), DefaultTri(sys.defs[m].defaults, 0, v),
                                  sel == Some(Index(sys.groups[sys.choiceOf[m]], m)))
  {
    hide Same, TextFits, PromptTris, DefaultTri, Visible, Choice.MemberVisibility, Proper;
    ProperMember(sys, m);
    var c := sys.choiceOf[m];
    MemberUnder(sys, c, m, v, v.tri(c));
    WithOwn(sys, v, c);
    var all := sys.defs.Keys;
    PromptsSame(sys, all, m, With(sys, v, c, v.tri(c)), v);
    DefaultsAllReady(sys, sys.defs[m].defaults, 0, With(sys, v, c, v.tri(c)));
    DefaultsSame(sys, all, sys.defs[m].defaults, 0, With(sys, v, c, v.tri(c)), v);
  }

  lemma {:induction false} DefaultsAllReady(sys: System, d: seq<Default>, k: nat, v: Valuation)
    requires k <= |d|
    ensures DefaultsReady(sys, sys.defs.Keys, d, k, v)
    decreases |d| - k
  {
    if k < |d| { DefaultsAllReady(sys, d, k + 1, v); }
  }

  /** The value of a member, from its visibility and its default. */
  function MemberTri(sys: System, m: Symbol, u: Cell, visible: Tristate, fallback: Tristate, chosen: bool): Tristate {
    Choice.MemberTri(MemberOf(m, u.(visible := visible)), Choice.MemberInputs([], (t: Tristate) => fallback), NO,
                     chosen,
                     sys.modules)
  }

  lemma MemberSame(sys: System, valid: set<Symbol>, m: Symbol, u: Cell, v1: Valuation, v2: Valuation, sel: Option<nat>)
    requires Proper(sys) && m in sys.choiceOf && TextFits(sys, v1) && TextFits(sys, v2)
    requires MemberReady(sys, valid, m, u, v1) && Same(sys, valid, v1, v2)
    ensures MemberReady(sys, valid, m, u, v2) && MemberCell(sys, m, u, v1, sel) == MemberCell(sys, m, u, v2, sel)
  {
    hide Same, PromptTris, DefaultsReady, MemberCell, PromptsReady, TextFits, Proper;
    ProperMember(sys, m);
    PromptsSame(sys, valid, m, v1, v2);
    MemberCellIs(sys, m, u, v1, sel);
    MemberCellIs(sys, m, u, v2, sel);
    var vis := Visible(sys, m, v1);
    if vis != YES && (vis == NO || !u.user) { DefaultsSame(sys, valid, sys.defs[m].defaults, 0, v1, v2); }
  }

  lemma ProperMember(sys: System, m: Symbol)
    requires Proper(sys) && m in sys.choiceOf
    ensures m in sys.defs && m.IsLogical()
    ensures var c := sys.choiceOf[m]; c in sys.defs && c in sys.groups && m in sys.groups[c]
  {
  }

  /** What the user set of a symbol is the same. */
  predicate SameUser(u1: Cells, u2: Cells, s: Symbol) {
    s in u1 && s in u2 && u1[s].user == u2[s].user && u1[s].defTri == u2[s].defTri && u1[s].defSel == u2[s].defSel
  }

  /** What the user set of the choice and of its members is the same. */
  predicate SameUsers(sys: System, c: Symbol, u1: Cells, u2: Cells)
    requires c in sys.groups
  {
    SameUser(u1, u2, c) && forall i :: 0 <= i < |sys.groups[c]| ==> SameUser(u1, u2, sys.groups[c][i])
  }

  lemma ChoiceValueSame(sys: System, valid: set<Symbol>, c: Symbol, u1: Cells, u2: Cells, v1: Valuation, v2: Valuation,
                        shown: nat -> Tristate)
    requires Fit(sys, u1) && Fit(sys, u2) && c in sys.groups && SameUser(u1, u2, c)
    requires OwnReady(sys, valid, c, v1) && Same(sys, valid, v1, v2)
    ensures ChoiceValue(sys, c, u1, v1, shown) == ChoiceValue(sys, c, u2, v2, shown)
    ensures var g1, g2 := GroupOf(sys, u1, c), GroupOf(sys, u2, c);
            var env1, env2 := InputsOf(sys, c, v1, shown, {}), InputsOf(sys, c, v2, shown, {});
            && env1.prompts == env2.prompts && Choice.DirDep(g1, env1) == Choice.DirDep(g2, env2)
            && Choice.RevDep(g1, env1) == Choice.RevDep(g2, env2)
               && Choice.Implied(g1, env1) == Choice.Implied(g2, env2)
  {
    hide OwnReady, Same, PromptTris, RevTri, EvalDep;
    OwnSame(sys, valid, c, v1, v2);
  }

  /** The same members, up to their current values. */
  predicate SameSeen(m1: seq<Choice.Member>, m2: seq<Choice.Member>) {
    |m1| == |m2| && forall i :: 0 <= i < |m1| ==> m2[i].visible == m1[i].visible && m2[i].user == m1[i].user
  }

  lemma SeenSame(sys: System, valid: set<Symbol>, c: Symbol, u1: Cells, u2: Cells, v1: Valuation, v2: Valuation,
                 shown: nat -> Tristate)
    requires Fit(sys, u1) && Fit(sys, u2) && c in sys.groups && SameUsers(sys, c, u1, u2)
    requires forall i :: 0 <= i < |sys.groups[c]| ==> PromptsReady(sys, valid, sys.groups[c][i])
    requires Same(sys, valid - {c}, v1, v2)
    ensures SameSeen(SeenMembers(sys, c, u1, v1, shown), SeenMembers(sys, c, u2, v2, shown))
  {
    hide Same, PromptTris, PromptsReady, MemberInputs;
    WithSame(sys, valid - {c}, c, YES, v1, v2);
    var w1, w2 := With(sys, v1, c, YES), With(sys, v2, c, YES);
    SameGrows(sys, valid - {c} + {c}, valid, w1, w2);
    var s1, s2 := SeenMembers(sys, c, u1, v1, shown), SeenMembers(sys, c, u2, v2, shown);
    forall i | 0 <= i < |s1| ensures s1[i].visible == s2[i].visible && s2[i].user == s1[i].user {
      var m := sys.groups[c][i];
      assert SameUser(u1, u2, m);
      PromptsSame(sys, valid, m, w1, w2);
      MemberUnder(sys, c, m, v1, YES);
      MemberUnder(sys, c, m, v2, YES);
    }
  }

  lemma SameGrows(sys: System, a: set<Symbol>, b: set<Symbol>, v1: Valuation, v2: Valuation)
    requires Same(sys, a, v1, v2) && b <= a
    ensures Same(sys, b, v1, v2)
  {
  }

  lemma {:induction false} CondsSame(sys: System, valid: set<Symbol>, c: Symbol, v1: Valuation, v2: Valuation,
                                     shown: nat -> Tristate, s1: seq<Choice.Member>, s2: seq<Choice.Member>, k: nat)
    requires Proper(sys) && c in sys.groups && SameSeen(s1, s2) && |s1| == |sys.groups[c]|
    requires Same(sys, valid - {c}, v1, v2) && k <= |sys.defs[c].defaults|
    requires CondsReady(sys, valid, c, s1, InputsOf(sys, c, v1, shown, {}), k)
    ensures CondsReady(sys, valid, c, s2, InputsOf(sys, c, v2, shown, {}), k)
    ensures Choice.FirstDefault(s1, InputsOf(sys, c, v1, shown, {}), k)
            == Choice.FirstDefault(s2, InputsOf(sys, c, v2, shown, {}), k)
    decreases |sys.defs[c].defaults| - k
  {
    hide Same, MemberInputs, PromptTris;
    var env1, env2 := InputsOf(sys, c, v1, shown, {}), InputsOf(sys, c, v2, shown, {});
    if k < |env1.defaults| {
      WithSame(sys, valid - {c}, c, YES, v1, v2);
      SameGrows(sys, valid - {c} + {c}, valid, With(sys, v1, c, YES), With(sys, v2, c, YES));
      DepSame(sys, valid, sys.defs[c].defaults[k].cond, With(sys, v1, c, YES), With(sys, v2, c, YES));
      assert env1.defaults[k] == env2.defaults[k];
      assert Choice.VisibleOf(s1, env1, env1.defaults[k].target) == Choice.VisibleOf(s2, env2, env2.defaults[k].target);
      if env1.defaults[k].cond == NO || Choice.VisibleOf(s1, env1, env1.defaults[k].target) == NO {
        CondsSame(sys, valid, c, v1, v2, shown, s1, s2, k + 1);
      }
    }
  }

  lemma SelectionSame(sys: System, valid: set<Symbol>, c: Symbol, u1: Cells, u2: Cells, v1: Valuation, v2: Valuation,
                      shown: nat -> Tristate)
    requires Fit(sys, u1) && Fit(sys, u2) && c in sys.groups && SameUsers(sys, c, u1, u2)
    requires SelectionReady(sys, valid, c, u1, v1, shown) && Same(sys, valid - {c}, v1, v2)
    ensures SelectionReady(sys, valid, c, u2, v2, shown)
    ensures var s1, s2 := SeenMembers(sys, c, u1, v1, shown), SeenMembers(sys, c, u2, v2, shown);
            && SameSeen(s1, s2)
            && Choice.Selected(u1[c].defSel, s1, InputsOf(sys, c, v1, shown, {}))
               == Choice.Selected(u2[c].defSel, s2, InputsOf(sys, c, v2, shown, {}))
  {
    hide Same, PromptTris, PromptsReady, SeenMembers, CondsReady;
    SeenSame(sys, valid, c, u1, u2, v1, v2, shown);
    var s1, s2 := SeenMembers(sys, c, u1, v1, shown), SeenMembers(sys, c, u2, v2, shown);
    SeenSize(sys, c, u1, v1, shown);
    SeenSize(sys, c, u2, v2, shown);
    var user := u1[c].defSel;
    if user.None? || s1[user.value].visible == NO {
      CondsSame(sys, valid, c, v1, v2, shown, s1, s2, 0);
      Choice.FirstVisibleIgnoresValues(s1, s2, 0);
    }
  }

  lemma SeenSize(sys: System, c: Symbol, u: Cells, v: Valuation, shown: nat -> Tristate)
    requires Fit(sys, u) && c in sys.groups
    ensures |SeenMembers(sys, c, u, v, shown)| == |sys.groups[c]|
  {
  }

  /** The choice, from what it reads. */
  lemma ChoiceCellIs(sys: System, c: Symbol, u: Cells, v: Valuation, shown: nat -> Tristate)
    requires Fit(sys, u) && c in sys.groups
    ensures var g, env := GroupOf(sys, u, c), InputsOf(sys, c, v, shown, {});
            var s, r := SeenMembers(sys, c, u, v, shown), ChoiceCell(sys, c, u, v, shown);
            var tri, sel := ChoiceValue(sys, c, u, v, shown), Choice.Selected(u[c].defSel, s, env);
            && r.visible == Choice.Visibility(c.Kind(), env.prompts, sys.modules) && r.dir == Choice.DirDep(g, env)
            && r.rev == Choice.RevDep(g, env) && r.implied == Choice.Implied(g, env)
            && r.tri == (if tri == YES && sel.None? then NO else tri)
            && r.sel == (if tri == YES then sel else None)
            && r.user == (u[c].user && (tri == YES ==> Choice.AllUser(s)))
            && r.defTri == u[c].defTri && r.defSel == u[c].defSel
  {
    hide Choice.Selected, Choice.AllUser, PromptTris, MemberInputs;
  }

  lemma ChoiceSame(sys: System, valid: set<Symbol>, c: Symbol, u1: Cells, u2: Cells, v1: Valuation, v2: Valuation,
                   shown: nat -> Tristate)
    requires Fit(sys, u1) && Fit(sys, u2) && c in sys.groups && SameUsers(sys, c, u1, u2)
    requires ChoiceReady(sys, valid, c, u1, v1, shown) && Same(sys, valid - {c}, v1, v2)
    ensures ChoiceReady(sys, valid, c, u2, v2, shown)
    ensures ChoiceCell(sys, c, u1, v1, shown) == ChoiceCell(sys, c, u2, v2, shown)
  {
    hide Same, SelectionReady, OwnReady, SeenMembers, ChoiceCell, InputsOf, ChoiceValue, Choice.Selected, Fit;
    ChoiceValueSame(sys, valid - {c}, c, u1, u2, v1, v2, shown);
    FitChoice(sys, u1, c);
    OwnSame(sys, valid - {c}, c, v1, v2);
    ChoiceCellIs(sys, c, u1, v1, shown);
    ChoiceCellIs(sys, c, u2, v2, shown);
    if ChoiceValue(sys, c, u1, v1, shown) == YES { SelectionSame(sys, valid, c, u1, u2, v1, v2, shown); }
  }

  lemma FitChoice(sys: System, u: Cells, c: Symbol)
    requires Fit(sys, u) && c in sys.groups
    ensures Proper(sys) && c in sys.defs
  {
  }
}
