/**
 * The radio group that a choice and its members form: sym_calc_visibility,
 * sym_choice_default, sym_calc_choice, sym_calc_value, sym_tristate_within_range
 * and sym_set_tristate_value of scripts/config/symbol.c, for boolean and tristate symbols.
 */
module Choice {
  import opened Basics
  import opened Exprs

  /**
   * What the expressions of a member are worth: its prompts and its default, given
   * the value of the choice, on which they depend.
   */
  datatype MemberInputs = MemberInputs(prompts: seq<Tristate -> Tristate>, fallback: Tristate -> Tristate)

  /** A default of the choice: the value of its condition, and the symbol it names. */
  datatype Default = Default(cond: Tristate, target: nat)

  /**
   * What everything outside the group is worth in one calculation. Symbols are
   * numbers, the members being the first ones. The members in `early` are those whose
   * value some expression asks for before the choice at y has selected a symbol.
   */
  datatype Inputs = Inputs(modules: Tristate, prompts: seq<Tristate>, dir: Tristate, rev: Tristate, implied: Tristate,
                           defaults: seq<Default>, outside: nat -> Tristate, members: seq<MemberInputs>,
                           early: set<nat>)

  /** A member: its current visibility and value, and SYMBOL_DEF_USER with the value set by the user. */
  datatype Member = Member(kind: SymbolType, visible: Tristate, tri: Tristate, user: bool, defTri: Tristate)

  /** The whole group; `val` is the selected symbol, `defVal` the member last set by the user. */
  datatype Group = Group(kind: SymbolType, modules: Tristate, visible: Tristate, rev: Tristate, implied: Tristate,
                         tri: Tristate, val: Option<nat>,
                         user: bool, defTri: Tristate, defVal: Option<nat>, members: seq<Member>)

  predicate Logical(kind: SymbolType) { kind == BooleanType || kind == TristateType }

  predicate Formed(g: Group) {
    && Logical(g.kind) && (forall i :: 0 <= i < |g.members| ==> Logical(g.members[i].kind))
    && (g.defVal.Some? ==> g.defVal.value < |g.members|)
  }

  predicate Fits(g: Group, env: Inputs) {
    Formed(g) && |env.members| == |g.members| && forall i :: i in env.early ==> i < |g.members|
  }

  // ----- visibility -----

  /** sym_get_type of a symbol that is not a choice value, and of one that is. */
  function ChoiceType(kind: SymbolType, modules: Tristate): SymbolType {
    if kind == TristateType && modules == NO then BooleanType else kind
  }

  function MemberType(m: Member, modules: Tristate): SymbolType {
    if m.kind == TristateType && (m.visible == YES || modules == NO) then BooleanType else m.kind
  }

  function Highest(ts: seq<Tristate>): Tristate {
    if ts == [] then NO else TriOr(Highest(ts[..|ts| - 1]), ts[|ts| - 1])
  }

  function Visibility(kind: SymbolType, prompts: seq<Tristate>, modules: Tristate): Tristate {
    var tri := Highest(prompts);
    if tri == MOD && (kind != TristateType || modules == NO) then YES else tri
  }

  /** A prompt of a tristate member that is only m does not count while the choice is y. */
  function PromptUnder(kind: SymbolType, prompt: Tristate -> Tristate, choice: Tristate): Tristate {
    if kind == TristateType && prompt(choice) == MOD && choice == YES then NO else prompt(choice)
  }

  function PromptsUnder(kind: SymbolType, prompts: seq<Tristate -> Tristate>, choice: Tristate): seq<Tristate> {
    seq(|prompts|, i requires 0 <= i < |prompts| => PromptUnder(kind, prompts[i], choice))
  }

  function MemberVisibility(kind: SymbolType, env: MemberInputs, choice: Tristate, modules: Tristate): Tristate {
    Visibility(kind, PromptsUnder(kind, env.prompts, choice), modules)
  }

  // ----- the value of the choice -----

  function Promoted(kind: SymbolType, modules: Tristate, t: Tristate): Tristate {
    if t == MOD && ChoiceType(kind, modules) == BooleanType then YES else t
  }

  function DirDep(g: Group, env: Inputs): Tristate { Promoted(g.kind, env.modules, env.dir) }

  function RevDep(g: Group, env: Inputs): Tristate { Promoted(g.kind, env.modules, env.rev) }

  function Implied(g: Group, env: Inputs): Tristate {
    Promoted(g.kind, env.modules, if DirDep(g, env) == NO then NO else env.implied)
  }

  /** The value of the choice if the user has set it to `def`, or has not set it. */
  function ChoiceTri(g: Group, env: Inputs, user: bool, def: Tristate): Tristate {
    var own := if user then TriAnd(def, Visibility(g.kind, env.prompts, env.modules)) else NO;
    var tri := if DirDep(g, env) == NO && RevDep(g, env) != NO then NO else TriOr(own, RevDep(g, env));
    if tri == MOD && (ChoiceType(g.kind, env.modules) == BooleanType || Implied(g, env) == YES) then YES else tri
  }

  // ----- the selected symbol -----

  function VisibleOf(members: seq<Member>, env: Inputs, s: nat): Tristate {
    if s < |members| then members[s].visible else env.outside(s)
  }

  /** The target of the first default, from `k` on, whose condition and target are visible. */
  function FirstDefault(members: seq<Member>, env: Inputs, k: nat): (r: Option<nat>)
    requires k <= |env.defaults|
    ensures r.Some? ==> VisibleOf(members, env, r.value) != NO
    ensures r.Some? ==> exists j :: k <= j < |env.defaults| && env.defaults[j].target == r.value
    decreases |env.defaults| - k
  {
    if k == |env.defaults| then None
    else if env.defaults[k].cond != NO && VisibleOf(members, env, env.defaults[k].target) != NO then
      Some(env.defaults[k].target)
    else FirstDefault(members, env, k + 1)
  }

  function FirstVisible(members: seq<Member>, k: nat): (r: Option<nat>)
    requires k <= |members|
    ensures r.Some? ==> k <= r.value < |members| && members[r.value].visible != NO
    ensures r.None? ==> forall j :: k <= j < |members| ==> members[j].visible == NO
    decreases |members| - k
  {
    if k == |members| then None else if members[k].visible != NO then Some(k) else FirstVisible(members, k + 1)
  }

  function ChoiceDefault(members: seq<Member>, env: Inputs): Option<nat> {
    var d := FirstDefault(members, env, 0);
    if d.Some? then d else FirstVisible(members, 0)
  }

  /** The member set by the user if it is visible, else the default. */
  function Selected(defVal: Option<nat>, members: seq<Member>, env: Inputs): Option<nat>
    requires defVal.Some? ==> defVal.value < |members|
  {
    if defVal.Some? && members[defVal.value].visible != NO then defVal else ChoiceDefault(members, env)
  }

  /** The condition of the default `k` and its target are visible. */
  predicate DefaultCounts(members: seq<Member>, env: Inputs, k: nat)
    requires k < |env.defaults|
  {
    env.defaults[k].cond != NO && VisibleOf(members, env, env.defaults[k].target) != NO
  }

  lemma {:induction false} FirstDefaultIsFirst(members: seq<Member>, env: Inputs, k: nat, j: nat)
    requires k <= j < |env.defaults| && DefaultCounts(members, env, j)
    requires forall i :: k <= i < j ==> !DefaultCounts(members, env, i)
    ensures FirstDefault(members, env, k) == Some(env.defaults[j].target)
    decreases j - k
  {
    if k < j {
      assert !DefaultCounts(members, env, k);
      FirstDefaultIsFirst(members, env, k + 1, j);
    }
  }

  lemma {:induction false} NoDefaultCounts(members: seq<Member>, env: Inputs, k: nat)
    requires k <= |env.defaults| && forall i :: k <= i < |env.defaults| ==> !DefaultCounts(members, env, i)
    ensures FirstDefault(members, env, k).None?
    decreases |env.defaults| - k
  {
    if k < |env.defaults| {
      assert !DefaultCounts(members, env, k);
      NoDefaultCounts(members, env, k + 1);
    }
  }

  lemma {:induction false} FirstVisibleIsFirst(members: seq<Member>, k: nat, j: nat)
    requires k <= j < |members| && members[j].visible != NO && forall i :: k <= i < j ==> members[i].visible == NO
    ensures FirstVisible(members, k) == Some(j)
    decreases j - k
  {
    if k < j { FirstVisibleIsFirst(members, k + 1, j); }
  }

  /**
   * What is selected: the user's member if it is visible; else the target of the first default that counts; else
   * the first visible member; else nothing.
   */
  lemma SelectionOrder(defVal: Option<nat>, members: seq<Member>, env: Inputs, j: nat)
    requires defVal.Some? ==> defVal.value < |members|
    ensures defVal.Some? && members[defVal.value].visible != NO ==> Selected(defVal, members, env) == defVal
    ensures (defVal.Some? ==> members[defVal.value].visible == NO) ==>
      var none := forall i :: 0 <= i < |env.defaults| ==> !DefaultCounts(members, env, i);
      && (j < |env.defaults| && DefaultCounts(members, env, j)
          && (forall i :: 0 <= i < j ==> !DefaultCounts(members, env, i)) ==>
            Selected(defVal, members, env) == Some(env.defaults[j].target))
      && (none && j < |members| && members[j].visible != NO && (forall i :: 0 <= i < j ==> members[i].visible == NO) ==>
            Selected(defVal, members, env) == Some(j))
      && (none && (forall i :: 0 <= i < |members| ==> members[i].visible == NO) ==>
            Selected(defVal, members, env).None?)
  {
    hide DefaultCounts, VisibleOf;
    if j < |env.defaults| && DefaultCounts(members, env, j)
       && forall i :: 0 <= i < j ==> !DefaultCounts(members, env, i) {
      FirstDefaultIsFirst(members, env, 0, j);
    }
    if forall i :: 0 <= i < |env.defaults| ==> !DefaultCounts(members, env, i) {
      NoDefaultCounts(members, env, 0);
      if j < |members| && members[j].visible != NO && forall i :: 0 <= i < j ==> members[i].visible == NO {
        FirstVisibleIsFirst(members, 0, j);
      }
    }
  }

  /** Every visible member has been set by the user. */
  predicate AllUser(members: seq<Member>) {
    forall j :: 0 <= j < |members| && members[j].visible != NO ==> members[j].user
  }

  // ----- the calculation of the whole group -----

  /** The members with their visibility under a choice worth `tri`. */
  function Seen(members: seq<Member>, env: Inputs, tri: Tristate): seq<Member>
    requires |env.members| == |members|
  {
    seq(|members|, i requires 0 <= i < |members| =>
      members[i].(visible := MemberVisibility(members[i].kind, env.members[i], tri, env.modules)))
  }

  /** The value of a member whose visibility is known. */
  function MemberTri(m: Member, env: MemberInputs, choice: Tristate, chosen: bool, modules: Tristate): Tristate {
    var tri :=
      if m.visible == YES then if chosen then YES else NO
      else if m.visible != NO && m.user then TriAnd(m.defTri, m.visible)
      else env.fallback(choice);
    if tri == MOD && MemberType(m, modules) == BooleanType then YES else tri
  }

  /** A member under a choice worth `choice`. */
  function MemberCalculated(m: Member, env: MemberInputs, choice: Tristate, chosen: bool, modules: Tristate): Member {
    var seen := m.(visible := MemberVisibility(m.kind, env, choice, modules));
    seen.(tri := MemberTri(seen, env, choice, chosen, modules))
  }

  /**
   * The members under a choice worth `tri`. Those in `early` were calculated under the choice
   * at y with nothing selected, and keep the values they got.
   */
  function MembersCalculated(members: seq<Member>, env: Inputs, tri: Tristate, val: Option<nat>,
                             early: set<nat>): seq<Member>
    requires |env.members| == |members|
  {
    seq(|members|, i requires 0 <= i < |members| =>
      if i in early then MemberCalculated(members[i], env.members[i], YES, false, env.modules)
      else MemberCalculated(members[i], env.members[i], tri, val == Some(i), env.modules))
  }

  /** The choice symbol calculated, and with it the visibility of the members if it is y. */
  function ChoiceCalculated(g: Group, env: Inputs): Group
    requires Fits(g, env)
  {
    var base := g.(modules := env.modules, visible := Visibility(g.kind, env.prompts, env.modules),
                   rev := RevDep(g, env), implied := Implied(g, env));
    var tri := ChoiceTri(g, env, g.user, g.defTri);
    if tri != YES then base.(tri := tri, val := None)
    else
      var seen := Seen(g.members, env, YES);
      var val := Selected(g.defVal, seen, env);
      base.(tri := if val.None? then NO else YES, val := val, user := g.user && AllUser(seen), members := seen)
  }

  /** The members whose values are asked for before the selection, if the choice gets that far. */
  function Early(g: Group, env: Inputs): set<nat> {
    if ChoiceTri(g, env, g.user, g.defTri) == YES then env.early else {}
  }

  function Calculated(g: Group, env: Inputs): Group
    requires Fits(g, env)
  {
    var c := ChoiceCalculated(g, env);
    c.(members := MembersCalculated(c.members, env, c.tri, c.val, Early(g, env)))
  }

  // ----- setting values -----

  predicate MemberInRange(m: Member, modules: Tristate, val: Tristate) {
    && m.visible != NO
    && !(MemberType(m, modules) == BooleanType && val == MOD)
    && if m.visible == YES then val == YES else val <= m.visible
  }

  predicate ChoiceInRange(g: Group, val: Tristate) {
    && g.visible != NO
    && !(ChoiceType(g.kind, g.modules) == BooleanType && val == MOD)
    && g.visible > g.rev
    && !(g.implied == YES && val == MOD)
    && g.rev <= val <= g.visible
  }

  predicate Accepts(g: Group, i: nat, val: Tristate)
    requires i < |g.members|
  {
    g.members[i].tri == val || MemberInRange(g.members[i], g.modules, val)
  }

  /** The group after the user has set member `i`; current values change only in the next calculation. */
  function MemberSet(g: Group, i: nat, val: Tristate): Group
    requires i < |g.members|
  {
    if !Accepts(g, i, val) then g
    else
      var all := val == YES;
      g.(user := g.user || all, defVal := if all then Some(i) else g.defVal,
         members := seq(|g.members|, j requires 0 <= j < |g.members| =>
           g.members[j].(user := g.members[j].user || j == i || (all && g.members[j].visible != NO),
                         defTri := if j == i then val else g.members[j].defTri)))
  }

  function ChoiceSet(g: Group, val: Tristate): Group {
    if g.tri == val || ChoiceInRange(g, val) then g.(user := true, defTri := val) else g
  }

  // ----- the law of the radio group -----

  /**
   * While the choice is y a symbol is selected, and of the visible members
   * exactly the selected one is y, the others being n.
   */
  predicate Radio(g: Group) {
    g.tri == YES ==>
      && g.val.Some?
      && (forall i :: 0 <= i < |g.members| && g.members[i].visible != NO ==>
            g.members[i].visible == YES && g.members[i].tri == if g.val == Some(i) then YES else NO)
      && (g.val.value < |g.members| ==> g.members[g.val.value].visible != NO)
  }

  lemma {:induction false} HighestWithoutMod(ts: seq<Tristate>)
    requires forall i :: 0 <= i < |ts| ==> ts[i] != MOD
    ensures Highest(ts) != MOD
  {
    if ts != [] { HighestWithoutMod(ts[..|ts| - 1]); }
  }

  /** Under a choice that is y a member is fully visible or not at all. */
  lemma VisibleUnderYes(kind: SymbolType, env: MemberInputs, modules: Tristate)
    requires Logical(kind)
    ensures MemberVisibility(kind, env, YES, modules) != MOD
  {
    if kind == TristateType { HighestWithoutMod(PromptsUnder(kind, env.prompts, YES)); }
  }

  lemma SelectedIsVisible(defVal: Option<nat>, members: seq<Member>, env: Inputs)
    requires defVal.Some? ==> defVal.value < |members|
    ensures var r := Selected(defVal, members, env);
            && (r.Some? ==> VisibleOf(members, env, r.value) != NO)
            && (r.None? ==> forall i :: 0 <= i < |members| ==> members[i].visible == NO)
  {
  }

  /** What a calculation has done when the choice is y. */
  lemma YesOutcome(g: Group, env: Inputs)
    requires Fits(g, env) && Calculated(g, env).tri == YES
    ensures var h, seen := Calculated(g, env), Seen(g.members, env, YES);
            && h.val == Selected(g.defVal, seen, env) && h.val.Some?
            && h.user == (g.user && AllUser(seen)) && h.defTri == g.defTri && h.defVal == g.defVal
            && h.kind == g.kind && h.modules == env.modules
            && ChoiceTri(g, env, g.user, g.defTri) == YES
            && |h.members| == |g.members|
            && forall i :: 0 <= i < |g.members| ==>
                 h.members[i] == seen[i].(tri := MemberTri(seen[i], env.members[i], YES,
                                                           h.val == Some(i) && i !in env.early, env.modules))
  {
    hide MemberVisibility, MemberTri, Selected, AllUser, ChoiceTri;
    var c := ChoiceCalculated(g, env);
    assert c.tri == YES && c.members == Seen(g.members, env, YES);
    assert Seen(c.members, env, YES) == c.members;
  }

  lemma CalculationKeepsForm(g: Group, env: Inputs)
    requires Fits(g, env)
    ensures Fits(Calculated(g, env), env) && Calculated(g, env).defVal == g.defVal
  {
    hide MemberVisibility, MemberTri, Selected, AllUser, ChoiceTri;
  }

  /** The symbol that the calculation selects, if it selects one, is none of those asked for before. */
  predicate SelectsUnasked(g: Group, env: Inputs)
    requires Fits(g, env)
  {
    var selected := Selected(g.defVal, Seen(g.members, env, YES), env);
    ChoiceTri(g, env, g.user, g.defTri) == YES && selected.Some? ==> selected.value !in env.early
  }

  /**
   * Under a choice calculated to y a visible member is fully visible, and y exactly if it was selected and not
   * asked for.
   */
  lemma VisibleMembers(g: Group, env: Inputs)
    requires Fits(g, env) && Calculated(g, env).tri == YES
    ensures var h := Calculated(g, env);
            && h.val.Some? && |h.members| == |g.members|
            && (h.val.value < |h.members| ==> h.members[h.val.value].visible != NO)
            && forall i :: 0 <= i < |h.members| && h.members[i].visible != NO ==>
                 && h.members[i].visible == YES
                 && h.members[i].tri == if h.val == Some(i) && i !in env.early then YES else NO
  {
    hide Calculated, MemberVisibility, Selected, AllUser, ChoiceTri;
    var h := Calculated(g, env);
    YesOutcome(g, env);
    var seen := Seen(g.members, env, YES);
    SelectedIsVisible(g.defVal, seen, env);
    forall i | 0 <= i < |h.members| ensures h.members[i].visible == seen[i].visible != MOD {
      VisibleUnderYes(g.members[i].kind, env.members[i], env.modules);
    }
  }

  /**
   * A calculation, from whatever state, establishes the law exactly if the selected symbol
   * was not asked for before the selection.
   */
  lemma CalculationEstablishesRadio(g: Group, env: Inputs)
    requires Fits(g, env)
    ensures Fits(Calculated(g, env), env)
    ensures Radio(Calculated(g, env)) <==> SelectsUnasked(g, env)
  {
    hide Calculated, ChoiceTri, Selected, Seen;
    CalculationKeepsForm(g, env);
    YesIfSelected(g, env);
    if Calculated(g, env).tri == YES {
      VisibleMembers(g, env);
      YesOutcome(g, env);
    }
  }

  /** A symbol of this type may have this value: m only as a tristate with modules enabled. */
  predicate MayBe(kind: SymbolType, modules: Tristate, t: Tristate) {
    t == MOD ==> kind == TristateType && modules != NO
  }

  /** Calculated values are what expressions may rely on: a boolean is never m, and nothing is without modules. */
  lemma CalculatedValuesFit(g: Group, env: Inputs)
    requires Fits(g, env)
    ensures var h := Calculated(g, env);
            && MayBe(h.kind, env.modules, h.tri)
            && |h.members| == |g.members|
            && forall i :: 0 <= i < |h.members| ==> MayBe(h.members[i].kind, env.modules, h.members[i].tri)
  {
    hide Selected, Highest, MemberVisibility, AllUser;
    var c := ChoiceCalculated(g, env);
    var h := Calculated(g, env);
    forall i | 0 <= i < |h.members| ensures MayBe(h.members[i].kind, env.modules, h.members[i].tri) {
      var asked := MemberCalculated(c.members[i], env.members[i], YES, false, env.modules);
      var other := MemberCalculated(c.members[i], env.members[i], c.tri, c.val == Some(i), env.modules);
      assert h.members[i] == if i in Early(g, env) then asked else other;
    }
  }

  predicate On(m: Member) { m.visible != NO && m.tri == YES }

  /** Whether the selected symbol is a member: exactly then one of the visible members is y. */
  lemma OneVisibleMemberIsYes(g: Group)
    requires Radio(g) && g.tri == YES
    ensures (exists i :: 0 <= i < |g.members| && On(g.members[i])) <==> g.val.value < |g.members|
    ensures forall i, j ::
      0 <= i < |g.members| && 0 <= j < |g.members| && On(g.members[i]) && On(g.members[j]) ==> i == j
  {
    if g.val.value < |g.members| {
      assert On(g.members[g.val.value]);
    }
  }

  /**
   * What decides before the calculation whether a member will be selected, `seen` being the members
   * as they will be visible.
   */
  predicate SelectsMember(defVal: Option<nat>, seen: seq<Member>, env: Inputs)
    requires defVal.Some? ==> defVal.value < |seen|
  {
    || (defVal.Some? && seen[defVal.value].visible != NO)
    || FirstDefault(seen, env, 0).None?
    || FirstDefault(seen, env, 0).value < |seen|
  }

  /**
   * A choice calculated to y has a visible member at y, and then exactly one, exactly if
   * the user's member is visible or the first default that counts is not a symbol from outside.
   */
  lemma OneVisibleMemberExactly(g: Group, env: Inputs)
    requires Fits(g, env) && Calculated(g, env).tri == YES
    ensures var h := Calculated(g, env);
            && (SelectsMember(g.defVal, Seen(g.members, env, YES), env) && SelectsUnasked(g, env)
                <==> exists i :: 0 <= i < |h.members| && On(h.members[i]))
            && forall i, j ::
                 0 <= i < |h.members| && 0 <= j < |h.members| && On(h.members[i]) && On(h.members[j]) ==> i == j
  {
    hide Calculated, MemberVisibility, MemberTri, ChoiceTri, AllUser;
    YesOutcome(g, env);
    VisibleMembers(g, env);
  }

  /** So it is whenever all defaults of the choice are members. */
  predicate DefaultsAreMembers(env: Inputs) {
    forall k :: 0 <= k < |env.defaults| ==> env.defaults[k].target < |env.members|
  }

  lemma SelectedIsMember(g: Group, env: Inputs)
    requires Fits(g, env) && DefaultsAreMembers(env)
    ensures SelectsMember(g.defVal, Seen(g.members, env, YES), env)
  {
    var d := FirstDefault(Seen(g.members, env, YES), env, 0);
    assert d.Some? ==> d.value < |g.members|;
  }

  /** With a default from outside that is visible, a choice at y whose member is visible has no member at y. */
  lemma OutsideDefault() returns (g: Group, env: Inputs)
    ensures Fits(g, env) && Calculated(g, env).tri == YES
    ensures |Calculated(g, env).members| == 1 && Calculated(g, env).members[0].visible == YES
    ensures forall i :: 0 <= i < |Calculated(g, env).members| ==> !On(Calculated(g, env).members[i])
  {
    var m := Member(BooleanType, NO, NO, false, NO);
    g := Group(BooleanType, YES, NO, NO, NO, NO, None, true, YES, None, [m]);
    env := Inputs(YES, [YES], YES, NO, NO, [Default(YES, 1)], (s: nat) => YES, [AlwaysVisible()], {});
    HighestOfOne([YES]);
    AlwaysVisibleIsVisible(env.modules);
    var seen := Seen(g.members, env, YES);
    assert VisibleOf(seen, env, 1) == YES && FirstDefault(seen, env, 0) == Some(1);
    assert ChoiceTri(g, env, true, YES) == YES;
    YesIfSelected(g, env);
    YesOutcome(g, env);
    OneVisibleMemberExactly(g, env);
  }

  /** A member with one prompt that follows the choice, and no default. */
  function AlwaysVisible(): MemberInputs {
    MemberInputs([(t: Tristate) => t], (t: Tristate) => NO)
  }

  lemma AlwaysVisibleIsVisible(modules: Tristate)
    ensures MemberVisibility(BooleanType, AlwaysVisible(), YES, modules) == YES
  {
    HighestOfOne(PromptsUnder(BooleanType, AlwaysVisible().prompts, YES));
  }

  lemma HighestOfOne(ts: seq<Tristate>)
    requires |ts| == 1
    ensures Highest(ts) == ts[0]
  {
    assert ts[..0] == [];
  }

  // ----- runs -----

  datatype Step = Calc(env: Inputs) | SetMember(i: nat, val: Tristate) | SetChoice(to: Tristate)

  predicate Possible(g: Group, step: Step) {
    match step
    case Calc(env) => Fits(g, env)
    case SetMember(i, _) => i < |g.members|
    case SetChoice(_) => true
  }

  function Next(g: Group, step: Step): Group
    requires Possible(g, step)
  {
    match step
    case Calc(env) => Calculated(g, env)
    case SetMember(i, val) => MemberSet(g, i, val)
    case SetChoice(val) => ChoiceSet(g, val)
  }

  ghost predicate Reaches(g: Group, steps: seq<Step>, h: Group)
    decreases |steps|
  {
    if steps == [] then h == g
    else Possible(g, steps[0]) && Reaches(Next(g, steps[0]), steps[1..], h)
  }

  lemma StepKeepsRadio(g: Group, step: Step)
    requires Formed(g) && Possible(g, step)
    ensures Formed(Next(g, step))
    ensures Radio(Next(g, step)) <==> if step.Calc? then SelectsUnasked(g, step.env) else Radio(g)
  {
    hide Calculated, SelectsUnasked, Accepts, ChoiceInRange;
    if step.Calc? {
      CalculationEstablishesRadio(g, step.env);
    } else if step.SetMember? {
      SetKeepsValues(g, step.i, step.val);
    }
  }

  /** Sets change no current value. */
  lemma SetKeepsValues(g: Group, i: nat, val: Tristate)
    requires i < |g.members|
    ensures var h := MemberSet(g, i, val);
            && h.tri == g.tri && h.val == g.val && h.kind == g.kind && |h.members| == |g.members|
            && forall j :: 0 <= j < |g.members| ==>
                 h.members[j] == g.members[j].(user := h.members[j].user, defTri := h.members[j].defTri)
  {
    hide Accepts;
  }

  /** The last calculation of a run selected a symbol that was not asked for before; `kept` if there is none. */
  predicate LastSelectsUnasked(g: Group, steps: seq<Step>, kept: bool)
    decreases |steps|
  {
    if steps == [] || !Possible(g, steps[0]) then kept
    else
      LastSelectsUnasked(Next(g, steps[0]), steps[1..],
                         if steps[0].Calc? then SelectsUnasked(g, steps[0].env) else kept)
  }

  /**
   * After every run of sets and calculations, with any inputs, the law holds exactly if the
   * last calculation selected a symbol that was not asked for before the selection.
   */
  lemma {:induction false} RunIsRadioExactly(g: Group, steps: seq<Step>, h: Group)
    requires Formed(g) && Reaches(g, steps, h)
    ensures Formed(h) && (Radio(h) <==> LastSelectsUnasked(g, steps, Radio(g)))
    decreases |steps|
  {
    hide Next, Radio, SelectsUnasked, Formed;
    if steps != [] {
      StepKeepsRadio(g, steps[0]);
      RunIsRadioExactly(Next(g, steps[0]), steps[1..], h);
    }
  }

  /** So it holds throughout every run in which no member is asked for before a selection. */
  lemma {:induction false} RunsKeepRadio(g: Group, steps: seq<Step>, h: Group)
    requires Formed(g) && Radio(g) && Reaches(g, steps, h)
    requires forall k :: 0 <= k < |steps| && steps[k].Calc? ==> steps[k].env.early == {}
    ensures Formed(h) && Radio(h)
    decreases |steps|
  {
    hide Next, Radio, Formed;
    if steps != [] {
      StepKeepsRadio(g, steps[0]);
      RunsKeepRadio(Next(g, steps[0]), steps[1..], h);
    }
  }

  // ----- the user's selection -----

  /** The member that was last set to y with success in a run, `pick` if none was. */
  function LastAccepted(g: Group, steps: seq<Step>, pick: Option<nat>): Option<nat>
    decreases |steps|
  {
    if steps == [] || !Possible(g, steps[0]) then pick
    else
      var s := steps[0];
      var taken := s.SetMember? && s.val == YES && Accepts(g, s.i, YES);
      LastAccepted(Next(g, s), steps[1..], if taken then Some(s.i) else pick)
  }

  /** The same members, of the same types. */
  predicate SameMembers(g: Group, h: Group) {
    |h.members| == |g.members| && forall i :: 0 <= i < |g.members| ==> h.members[i].kind == g.members[i].kind
  }

  lemma StepRemembersPick(g: Group, step: Step)
    requires Formed(g) && Possible(g, step)
    ensures var h := Next(g, step);
            && Formed(h) && SameMembers(g, h)
            && h.defVal == if step.SetMember? && step.val == YES
                 && Accepts(g, step.i, YES) then Some(step.i) else g.defVal
  {
    hide MemberVisibility, MemberTri, Selected, AllUser, ChoiceTri, ChoiceInRange;
    if step.Calc? { CalculationKeepsForm(g, step.env); }
  }

  lemma {:induction false} RunRemembersPick(g: Group, steps: seq<Step>, h: Group)
    requires Formed(g) && Reaches(g, steps, h)
    ensures Formed(h) && SameMembers(g, h) && h.defVal == LastAccepted(g, steps, g.defVal)
    decreases |steps|
  {
    hide Next, Formed, Possible, Accepts;
    if steps != [] {
      StepRemembersPick(g, steps[0]);
      RunRemembersPick(Next(g, steps[0]), steps[1..], h);
    }
  }

  /**
   * After every run of sets of members and of the choice and of calculations with whatever
   * inputs, a calculation that leaves the choice at y selects the member that was last set
   * to y with success if it is visible, else the default.
   */
  lemma RunSelectsLastPick(g: Group, steps: seq<Step>, h: Group, env: Inputs)
    requires Formed(g) && Reaches(g, steps, h) && Fits(h, env) && Calculated(h, env).tri == YES
    ensures var pick := LastAccepted(g, steps, g.defVal);
            && (pick.Some? ==> pick.value < |h.members|)
            && Calculated(h, env).val == Selected(pick, Seen(h.members, env, YES), env)
  {
    hide Calculated, Selected, Reaches, LastAccepted;
    RunRemembersPick(g, steps, h);
    YesOutcome(h, env);
  }

  /** No step sets another member than `i` to y. */
  predicate NoOtherPick(steps: seq<Step>, i: nat) {
    forall k :: 0 <= k < |steps| && steps[k].SetMember? && steps[k].val == YES ==> steps[k].i == i
  }

  lemma {:induction false} PickStays(g: Group, steps: seq<Step>, i: nat)
    requires NoOtherPick(steps, i)
    ensures LastAccepted(g, steps, Some(i)) == Some(i)
    decreases |steps|
  {
    hide Next, Accepts;
    if steps != [] && Possible(g, steps[0]) {
      assert steps[0].SetMember? && steps[0].val == YES ==> steps[0].i == i;
      PickStays(Next(g, steps[0]), steps[1..], i);
    }
  }

  /**
   * A member whose set to y was accepted is selected by every later calculation that leaves
   * the choice at y, until another member is set to y, exactly if it is visible there.
   */
  lemma AcceptedMemberIsSelected(g: Group, i: nat, steps: seq<Step>, h: Group, env: Inputs)
    requires Formed(g) && i < |g.members| && Accepts(g, i, YES)
    requires Reaches(MemberSet(g, i, YES), steps, h) && NoOtherPick(steps, i)
    requires Fits(h, env) && Calculated(h, env).tri == YES
    ensures i < |h.members|
    ensures Calculated(h, env).val == Some(i) <==> Seen(h.members, env, YES)[i].visible != NO
  {
    hide Calculated, Selected, Reaches, LastAccepted, MemberVisibility, Accepts, MemberSet, NoOtherPick;
    var after := MemberSet(g, i, YES);
    StepRemembersPick(g, SetMember(i, YES));
    RunRemembersPick(after, steps, h);
    PickStays(after, steps, i);
    RunSelectsLastPick(after, steps, h, env);
    SelectsOnlyVisible(i, Seen(h.members, env, YES), env);
  }

  lemma SelectsOnlyVisible(i: nat, members: seq<Member>, env: Inputs)
    requires i < |members|
    ensures Selected(Some(i), members, env) == Some(i) <==> members[i].visible != NO
  {
    SelectedIsVisible(Some(i), members, env);
  }

  /** An invisible member that is y by default accepts y, but the next calculation selects another one. */
  lemma InvisiblePick() returns (g: Group, env: Inputs)
    ensures Fits(g, env) && |g.members| == 2 && g == Calculated(g, env) && g.tri == YES
    ensures Accepts(g, 1, YES)
    ensures Calculated(MemberSet(g, 1, YES), env).tri == YES && Calculated(MemberSet(g, 1, YES), env).val == Some(0)
  {
    var hidden := MemberInputs([], (t: Tristate) => YES);
    var m0, m1 := Member(BooleanType, YES, YES, true, YES), Member(BooleanType, NO, YES, true, YES);
    g := Group(BooleanType, YES, YES, NO, NO, YES, Some(0), true, YES, None, [m0, m1]);
    env := Inputs(YES, [YES], YES, NO, NO, [], (s: nat) => NO, [AlwaysVisible(), hidden], {});
    HighestOfOne([YES]);
    AlwaysVisibleIsVisible(env.modules);
    assert MemberVisibility(BooleanType, hidden, YES, YES) == NO;
    hide MemberVisibility;
    assert Seen(g.members, env, YES) == g.members;
    assert Selected(None, g.members, env) == Some(0) && Selected(Some(1), g.members, env) == Some(0);
    assert MembersCalculated(g.members, env, YES, Some(0), {}) == g.members;
    var after := MemberSet(g, 1, YES);
    assert after.members == g.members && after == g.(defVal := Some(1));
  }

  // ----- staying y -----

  /** A group as a calculation with `env` leaves it, except for what the user has set of the members since. */
  predicate Settled(g: Group, env: Inputs) {
    && Fits(g, env) && g.tri == YES && g.modules == env.modules
    && ChoiceTri(g, env, true, g.defTri) == YES
    && ChoiceDefault(g.members, env).Some?
    && forall i :: 0 <= i < |g.members| ==>
         && g.members[i].visible == MemberVisibility(g.members[i].kind, env.members[i], YES, env.modules)
         && (g.members[i].visible == NO ==>
               g.members[i].tri == MemberTri(g.members[i], env.members[i], YES, false, env.modules))
  }

  /** The choice is y without the user, or the user's y is not about to be dropped. */
  predicate Steady(g: Group, env: Inputs) {
    ChoiceTri(g, env, false, NO) == YES || (g.user && AllUser(g.members))
  }

  lemma SeenIsSettled(g: Group, env: Inputs)
    requires Settled(g, env)
    ensures Fits(g, env) && ChoiceDefault(g.members, env).Some?
    ensures Seen(g.members, env, YES) == g.members
  {
  }

  lemma UserOnlyRaises(g: Group, env: Inputs, def: Tristate)
    ensures ChoiceTri(g, env, false, NO) <= ChoiceTri(g, env, true, def)
    ensures ChoiceTri(g, env, false, def) == ChoiceTri(g, env, false, NO)
  {
  }

  /** Calculating a settled group again, with the same inputs, selects what the user set last or the default. */
  lemma CalculateAgain(g: Group, env: Inputs)
    requires Settled(g, env)
    ensures var h := Calculated(g, env);
            && (h.tri == YES <==> ChoiceTri(g, env, g.user, g.defTri) == YES)
            && (h.tri == YES ==> h.val == Selected(g.defVal, g.members, env) && Settled(h, env))
            && (h.tri == YES && Steady(g, env) ==> Steady(h, env))
  {
    hide Calculated, MemberVisibility, MemberTri, ChoiceTri, ChoiceDefault, Selected, Settled;
    SeenIsSettled(g, env);
    var h := Calculated(g, env);
    SelectedNeedsDefault(g.defVal, g.members, env);
    YesIfSelected(g, env);
    if h.tri == YES {
      YesOutcome(g, env);
      CalculatedIsSettled(g, env);
      ChoiceTriReads(g, h, env);
    }
  }

  /** The choice is y if its own value is and there is something to select. */
  lemma YesIfSelected(g: Group, env: Inputs)
    requires Fits(g, env)
    ensures Calculated(g, env).tri == YES <==>
              ChoiceTri(g, env, g.user, g.defTri) == YES && Selected(g.defVal, Seen(g.members, env, YES), env).Some?
  {
    hide MemberVisibility, ChoiceTri, Selected, MembersCalculated;
  }

  /** The value of the choice does not depend on the members. */
  lemma ChoiceTriReads(g: Group, h: Group, env: Inputs)
    requires g.kind == h.kind
    ensures forall user, def :: ChoiceTri(g, env, user, def) == ChoiceTri(h, env, user, def)
  {
  }

  /**
   * A choice calculated to y stays y in the next calculation with the same inputs exactly
   * if it is y without the user or every visible member has been set: sym_calc_choice
   * otherwise drops the user's y while still reporting y.
   */
  lemma StaysYes(g: Group, env: Inputs)
    requires Fits(g, env) && Calculated(g, env).tri == YES
    ensures var h := Calculated(g, env);
            Calculated(h, env).tri == YES <==>
              ChoiceTri(g, env, false, NO) == YES || AllUser(Seen(g.members, env, YES))
  {
    CalculatedIsSettled(g, env);
    CalculateAgain(Calculated(g, env), env);
    UserOnlyRaises(g, env, g.defTri);
  }

  /**
   * An optional choice set to y, whose only member is visible but not set, is calculated to y once
   * and then no more.
   */
  lemma DroppedChoice() returns (g: Group, env: Inputs)
    ensures Fits(g, env) && Calculated(g, env).tri == YES
    ensures Calculated(Calculated(g, env), env).tri != YES
  {
    var m := Member(BooleanType, NO, NO, false, NO);
    g := Group(BooleanType, YES, NO, NO, NO, NO, None, true, YES, None, [m]);
    env := Inputs(YES, [YES], YES, NO, NO, [], (s: nat) => NO, [AlwaysVisible()], {});
    HighestOfOne([YES]);
    AlwaysVisibleIsVisible(env.modules);
    var seen := Seen(g.members, env, YES);
    assert seen[0].visible == YES && !seen[0].user;
    assert ChoiceTri(g, env, true, YES) == YES && ChoiceTri(g, env, false, NO) == NO;
    SelectedIsVisible(None, seen, env);
    YesIfSelected(g, env);
    StaysYes(g, env);
  }

  lemma CalculatedIsSettled(g: Group, env: Inputs)
    requires Fits(g, env) && Calculated(g, env).tri == YES
    ensures Settled(Calculated(g, env), env)
  {
    hide Calculated, MemberVisibility, ChoiceDefault, AllUser, ChoiceTri;
    YesOutcome(g, env);
    CalculationKeepsForm(g, env);
    var h, seen := Calculated(g, env), Seen(g.members, env, YES);
    UserOnlyRaises(g, env, g.defTri);
    ChoiceTriReads(g, h, env);
    SelectedNeedsDefault(g.defVal, seen, env);
    SelectionIgnoresValues(None, seen, h.members, env);
  }

  lemma SelectedNeedsDefault(defVal: Option<nat>, members: seq<Member>, env: Inputs)
    requires defVal.Some? ==> defVal.value < |members|
    ensures Selected(defVal, members, env).Some? <==> ChoiceDefault(members, env).Some?
  {
  }

  /** The selection depends on the members only through their visibility. */
  lemma SelectionIgnoresValues(defVal: Option<nat>, m1: seq<Member>, m2: seq<Member>, env: Inputs)
    requires |m1| == |m2| && forall i :: 0 <= i < |m1| ==> m1[i].visible == m2[i].visible
    requires defVal.Some? ==> defVal.value < |m1|
    ensures Selected(defVal, m1, env) == Selected(defVal, m2, env)
  {
    FirstDefaultIgnoresValues(m1, m2, env, 0);
    FirstVisibleIgnoresValues(m1, m2, 0);
  }

  lemma {:induction false} FirstDefaultIgnoresValues(m1: seq<Member>, m2: seq<Member>, env: Inputs, k: nat)
    requires |m1| == |m2| && forall i :: 0 <= i < |m1| ==> m1[i].visible == m2[i].visible
    requires k <= |env.defaults|
    ensures FirstDefault(m1, env, k) == FirstDefault(m2, env, k)
    decreases |env.defaults| - k
  {
    if k < |env.defaults| { FirstDefaultIgnoresValues(m1, m2, env, k + 1); }
  }

  lemma {:induction false} FirstVisibleIgnoresValues(m1: seq<Member>, m2: seq<Member>, k: nat)
    requires |m1| == |m2| && forall i :: 0 <= i < |m1| ==> m1[i].visible == m2[i].visible
    requires k <= |m1|
    ensures FirstVisible(m1, k) == FirstVisible(m2, k)
    decreases |m1| - k
  {
    if k < |m1| { FirstVisibleIgnoresValues(m1, m2, k + 1); }
  }

  /** Sets of members, and calculations with the same inputs. */
  ghost predicate Quiet(steps: seq<Step>, env: Inputs) {
    forall k :: 0 <= k < |steps| ==> steps[k].SetMember? || steps[k] == Calc(env)
  }

  /** A member accepts y if it is visible, or is y already. */
  predicate Pickable(m: Member) { m.visible != NO || m.tri == YES }

  lemma AcceptsIfPickable(g: Group, env: Inputs, i: nat)
    requires Settled(g, env) && i < |g.members|
    ensures Accepts(g, i, YES) <==> Pickable(g.members[i])
  {
    VisibleUnderYes(g.members[i].kind, env.members[i], env.modules);
  }

  /** What a settled group keeps of the group `g0` that it came from. */
  predicate SameView(g0: Group, g: Group) {
    && |g.members| == |g0.members|
    && forall i :: 0 <= i < |g.members| ==>
         g.members[i].visible == g0.members[i].visible && Pickable(g.members[i]) == Pickable(g0.members[i])
  }

  lemma SetKeepsSettled(g: Group, env: Inputs, i: nat, val: Tristate)
    requires Settled(g, env) && i < |g.members|
    ensures var h := MemberSet(g, i, val);
            && Settled(h, env) && SameView(g, h)
            && (Steady(g, env) ==> Steady(h, env))
            && (Accepts(g, i, val) && val == YES ==> Steady(h, env))
  {
    AcceptsIfPickable(g, env, i);
    var h := MemberSet(g, i, val);
    SelectionIgnoresValues(None, g.members, h.members, env);
    forall j | 0 <= j < |h.members| && h.members[j].visible == NO
      ensures h.members[j].tri == MemberTri(h.members[j], env.members[j], YES, false, env.modules)
    {
      assert g.members[j].visible == NO;
    }
  }

  lemma CalculationKeepsView(g: Group, env: Inputs)
    requires Settled(g, env) && Steady(g, env)
    ensures var h := Calculated(g, env);
            Settled(h, env) && Steady(h, env) && SameView(g, h)
  {
    CalculateAgain(g, env);
    SeenIsSettled(g, env);
    UserOnlyRaises(g, env, g.defTri);
  }

  lemma {:induction false} ReachesLast(g: Group, steps: seq<Step>, h: Group) returns (mid: Group)
    requires steps != [] && Reaches(g, steps, h)
    ensures Reaches(g, steps[..|steps| - 1], mid) && Possible(mid, steps[|steps| - 1])
    ensures h == Next(mid, steps[|steps| - 1])
    decreases |steps|
  {
    if |steps| == 1 {
      mid := g;
      assert steps[1..] == [];
    } else {
      mid := ReachesLast(Next(g, steps[0]), steps[1..], h);
      assert steps[1..][..|steps| - 2] == steps[..|steps| - 1][1..];
    }
  }

  lemma {:induction false} QuietRunStaysSettled(g: Group, env: Inputs, steps: seq<Step>, h: Group)
    requires Settled(g, env) && Steady(g, env) && Quiet(steps, env) && Reaches(g, steps, h)
    ensures Settled(h, env) && Steady(h, env) && SameView(g, h)
    decreases |steps|
  {
    hide Calculated, MemberSet, Settled, Steady, Pickable, ChoiceTri;
    if steps != [] {
      var front, s := steps[..|steps| - 1], steps[|steps| - 1];
      var mid := ReachesLast(g, steps, h);
      QuietRunStaysSettled(g, env, front, mid);
      if s.SetMember? { SetKeepsSettled(mid, env, s.i, s.val); } else { CalculationKeepsView(mid, env); }
    }
  }

  /**
   * Over every run of member sets and calculations with the same inputs that starts with the
   * set of a member to y that was accepted, the choice stays y.
   */
  lemma AcceptedSetKeepsYes(g: Group, env: Inputs, i: nat, steps: seq<Step>, h: Group)
    requires Settled(g, env) && i < |g.members| && Accepts(g, i, YES)
    requires Quiet(steps, env) && Reaches(MemberSet(g, i, YES), steps, h)
    ensures Fits(h, env) && Calculated(h, env).tri == YES
  {
    hide Settled, Steady, Calculated, MemberSet, Quiet, Reaches, Accepts;
    SetKeepsSettled(g, env, i, YES);
    QuietRunStaysSettled(MemberSet(g, i, YES), env, steps, h);
    SteadyIsYes(h, env);
  }

  lemma SteadyIsYes(h: Group, env: Inputs)
    requires Settled(h, env) && Steady(h, env)
    ensures Fits(h, env) && Calculated(h, env).tri == YES
  {
    CalculateAgain(h, env);
    UserOnlyRaises(h, env, h.defTri);
  }
}
