/**
 * A choice and its members after the recursive calculation, seen as one radio group
 * (scripts/config/symbol.c).
 */
module CalcGroups {
  import opened Basics
  import opened Exprs
  import opened Calc
  import opened CalcSteps
  import Choice

  /** A member under a choice worth `t`, from what it reads. */
  lemma MemberCalculatedIs(sys: System, c: Symbol, m: Symbol, u: Cell, v: Valuation, t: Tristate, chosen: bool)
    requires Proper(sys) && m in sys.choiceOf && sys.choiceOf[m] == c && m in sys.defs
    ensures var w := With(sys, v, c, t);
            var visible := Visible(sys, m, w);
            Choice.MemberCalculated(MemberOf(m, u), MemberInputs(sys, c, m, v), t, chosen, sys.modules)
            == MemberOf(m, u.(visible := visible,
                              tri := MemberTri(sys, m, u, visible, DefaultTri(sys.defs[m].defaults, 0, w), chosen)))
  {
    hide Visible, DefaultTri, MemberInputs;
    MemberUnder(sys, c, m, v, t);
  }

  /** The position of a member in its choice. */
  lemma IndexOf(sys: System, c: Symbol, i: nat)
    requires Proper(sys) && c in sys.groups && i < |sys.groups[c]|
    ensures Index(sys.groups[c], sys.groups[c][i]) == i
  {
    var j := Index(sys.groups[c], sys.groups[c][i]);
    assert sys.groups[c][j] == sys.groups[c][i];
  }

  /** A right member is the one that the calculation of the group gives. */
  lemma RightMemberIs(sys: System, u: Cells, k: Snapshot, c: Symbol, i: nat)
    requires Fit(sys, u) && Fit(sys, k.cells) && c in sys.groups && i < |sys.groups[c]|
             && RightAt(sys, u, k, sys.groups[c][i])
    ensures var m := sys.groups[c][i];
            && m in u && m in k.cells && m in sys.defs && c in k.cells
            && MemberOf(m, k.cells[m])
               == Choice.MemberCalculated(MemberOf(m, u[m]), MemberInputs(sys, c, m, Val(sys, k.cells)), k.cells[c].tri,
                                          k.cells[c].sel == Some(i), sys.modules)
  {
    hide Fit, Choice.MemberCalculated, MemberInputs, SymbolReady, MemberReady, ChoiceReady, SymbolCell, ChoiceCell;
    FitFacts(sys, u);
    FitFacts(sys, k.cells);
    GroupMember(sys, c, i);
    NotOwnGroup(sys, sys.groups[c][i]);
    IndexOf(sys, c, i);
    ChoiceIsNoMember(sys, c);
    MemberShape(MemberOf(sys.groups[c][i], u[sys.groups[c][i]]),
                MemberInputs(sys, c, sys.groups[c][i], Val(sys, k.cells)),
                k.cells[c].tri, k.cells[c].sel == Some(i), sys.modules);
  }

  /** A calculation changes the visibility and the value of a member only. */
  lemma MemberShape(m: Choice.Member, env: Choice.MemberInputs, t: Tristate, chosen: bool, modules: Tristate)
    ensures var r := Choice.MemberCalculated(m, env, t, chosen, modules); r == m.(visible := r.visible, tri := r.tri)
  {
  }

  /** A member calculated in `k`, under the choice at y with nothing selected, and not touched since. */
  lemma EarlyMemberIs(sys: System, u: Cells, k: Snapshot, f: Snapshot, c: Symbol, i: nat)
    requires Fit(sys, u) && Fit(sys, k.cells) && Fit(sys, f.cells) && c in sys.groups && i < |sys.groups[c]|
    requires c in k.valid && c in k.cells && k.cells[c].tri == YES && k.cells[c].sel == None
    requires sys.groups[c][i] in sys.defs && RightAt(sys, u, k, sys.groups[c][i])
    requires f.cells[sys.groups[c][i]] == k.cells[sys.groups[c][i]]
    requires forall r :: r in k.valid && r in sys.defs && r != c ==> f.cells[r].tri == k.cells[r].tri
    ensures var m := sys.groups[c][i];
            && m in u && m in f.cells
            && MemberOf(m, f.cells[m])
               == Choice.MemberCalculated(MemberOf(m, u[m]), MemberInputs(sys, c, m, Val(sys, f.cells)), YES, false,
                                          sys.modules)
  {
    hide Fit, Choice.MemberCalculated, MemberInputs, MemberReady, SymbolReady, ChoiceReady, SymbolCell, ChoiceCell,
         MemberCell, Visible;
    hide MemberTri, DefaultsReady, PromptsReady, Same;
    FitFacts(sys, u);
    FitFacts(sys, k.cells);
    FitFacts(sys, f.cells);
    GroupMember(sys, c, i);
    var m := sys.groups[c][i];
    NotOwnGroup(sys, m);
    RightMemberIs(sys, u, k, c, i);
    EarlyReads(sys, u[m], k, f, c, m);
    MemberCalculatedIs(sys, c, m, u[m], Val(sys, k.cells), YES, false);
    MemberCalculatedIs(sys, c, m, u[m], Val(sys, f.cells), YES, false);
  }

  lemma EarlyReads(sys: System, u: Cell, k: Snapshot, f: Snapshot, c: Symbol, m: Symbol)
    requires Proper(sys) && k.cells.Keys == sys.defs.Keys == f.cells.Keys && c in sys.defs && c in k.valid
             && k.cells[c].tri == YES
    requires m in sys.choiceOf && sys.choiceOf[m] == c && m in sys.defs
             && MemberReady(sys, k.valid, m, u, Val(sys, k.cells))
    requires forall r :: r in k.valid && r in sys.defs && r != c ==> f.cells[r].tri == k.cells[r].tri
    ensures var w1, w2, d := With(sys, Val(sys, k.cells), c, YES), With(sys, Val(sys, f.cells), c, YES),
            sys.defs[m].defaults;
            var visible := Visible(sys, m, w1);
            && Visible(sys, m, w2) == visible
            && MemberTri(sys, m, u, visible, DefaultTri(d, 0, w1), false)
               == MemberTri(sys, m, u, visible, DefaultTri(d, 0, w2), false)
  {
    hide MemberTri, DefaultsReady, PromptsReady, Same, Visible, DefaultTri;
    var v1, v2 := Val(sys, k.cells), Val(sys, f.cells);
    var w1, w2 := With(sys, v1, c, YES), With(sys, v2, c, YES);
    ValText(sys, k.cells);
    WithOwn(sys, v1, c);
    ValSame(sys, k.valid - {c}, k.cells, f.cells);
    WithSame(sys, k.valid - {c}, c, YES, v1, v2);
    SameGrows(sys, k.valid - {c} + {c}, k.valid, w1, w2);
    SameVisibleOf(sys, m, w1, v1);
    PromptsSame(sys, k.valid, m, w1, w2);
    var visible := Visible(sys, m, w1);
    if visible != YES && (visible == NO || !u.user) {
      SameSymmetric(sys, k.valid, w1, v1);
      DefaultsSame(sys, k.valid, sys.defs[m].defaults, 0, v1, w1);
      DefaultsSame(sys, k.valid, sys.defs[m].defaults, 0, w1, w2);
    } else {
      NoFallback(sys, m, u, visible, DefaultTri(sys.defs[m].defaults, 0, w1), DefaultTri(sys.defs[m].defaults, 0, w2),
                 false);
    }
  }

  lemma SameSymmetric(sys: System, valid: set<Symbol>, v1: Valuation, v2: Valuation)
    requires Same(sys, sys.defs.Keys, v1, v2)
    ensures Same(sys, valid, v2, v1)
  {
    hide Proper;
  }

  /** The members whose values were asked for when the choice has made its selection. */
  ghost function AskedFor(sys: System, c: Symbol, valid: set<Symbol>): (early: set<nat>)
    requires c in sys.groups
    ensures forall i: nat :: i in early <==> i < |sys.groups[c]| && sys.groups[c][i] in valid
  {
    set i: nat | i < |sys.groups[c]| && sys.groups[c][i] in valid
  }

  /** What the members of `c` are in the end: those asked for too early did not follow the selection. */
  ghost predicate MembersFollow(sys: System, c: Symbol, u: Cells, f: Cells, early: set<nat>)
    requires Fit(sys, u) && Fit(sys, f) && c in sys.groups
  {
    forall i :: 0 <= i < |sys.groups[c]| ==> MemberFollows(sys, c, u, f, i, i in early)
  }

  ghost predicate MemberFollows(sys: System, c: Symbol, u: Cells, f: Cells, i: nat, early: bool)
    requires Fit(sys, u) && Fit(sys, f) && c in sys.groups && i < |sys.groups[c]|
  {
    var m := sys.groups[c][i];
    MemberOf(m, f[m])
    == Choice.MemberCalculated(MemberOf(m, u[m]), MemberInputs(sys, c, m, Val(sys, f)), if early then YES else f[c].tri,
                               !early && f[c].sel == Some(i), sys.modules)
  }

  /** A choice and members like these are the whole group as calculated. */
  lemma GroupIs(sys: System, c: Symbol, u: Cells, f: Cells, shown: nat -> Tristate, early: set<nat>)
    requires Fit(sys, u) && Fit(sys, f) && c in sys.groups && c.IsLogical()
    requires f[c] == ChoiceCell(sys, c, u, Val(sys, f), shown) && MembersFollow(sys, c, u, f, early)
    requires ChoiceValue(sys, c, u, Val(sys, f), shown) != YES ==> early == {}
    requires forall i :: i in early ==> i < |sys.groups[c]|
    ensures var g, env := GroupOf(sys, u, c), InputsOf(sys, c, Val(sys, f), shown, early);
            Choice.Fits(g, env) && GroupOf(sys, f, c) == Choice.Calculated(g, env)
  {
    hide Choice.MemberCalculated, MemberInputs, Choice.ChoiceCalculated, PromptTris, Choice.ChoiceTri, ChoiceCell;
    var g, env := GroupOf(sys, u, c), InputsOf(sys, c, Val(sys, f), shown, early);
    GroupFits(sys, u, c, env);
    IgnoresEarly(g, InputsOf(sys, c, Val(sys, f), shown, {}), env);
    var r := Choice.ChoiceCalculated(g, env);
    MembersAre(sys, c, u, f, shown, early);
    ChoiceShape(sys, c, u, f, shown, early);
  }

  lemma MembersAre(sys: System, c: Symbol, u: Cells, f: Cells, shown: nat -> Tristate, early: set<nat>)
    requires Fit(sys, u) && Fit(sys, f) && c in sys.groups && c in sys.defs && MembersFollow(sys, c, u, f, early)
    requires forall i :: 0 <= i < |sys.groups[c]| ==> sys.groups[c][i] in sys.defs
    requires var g, env := GroupOf(sys, u, c), InputsOf(sys, c, Val(sys, f), shown, early); Choice.Fits(g, env)
    ensures var g, env := GroupOf(sys, u, c), InputsOf(sys, c, Val(sys, f), shown, early);
            var r := Choice.ChoiceCalculated(g, env);
            && |r.members| == |g.members|
            && GroupOf(sys, f, c).members == Choice.MembersCalculated(r.members, env, f[c].tri, f[c].sel, early)
  {
    hide Choice.MemberCalculated, MemberInputs, Choice.ChoiceCalculated, PromptTris, Choice.ChoiceTri, Choice.Fits;
    var g, env := GroupOf(sys, u, c), InputsOf(sys, c, Val(sys, f), shown, early);
    var r := Choice.ChoiceCalculated(g, env);
    SeenOrNotAll(g, env);
    forall i | 0 <= i < |g.members|
      ensures GroupOf(sys, f, c).members[i] == Choice.MembersCalculated(r.members, env, f[c].tri, f[c].sel, early)[i]
    {
      assert MemberFollows(sys, c, u, f, i, i in early);
      SeenOrNot(g, env, i);
    }
  }

  lemma SeenOrNotAll(g: Choice.Group, env: Choice.Inputs)
    requires Choice.Fits(g, env)
    ensures |Choice.ChoiceCalculated(g, env).members| == |g.members|
  {
    hide Choice.MemberVisibility, Choice.Selected, Choice.AllUser, Choice.ChoiceTri;
  }

  lemma ChoiceShape(sys: System, c: Symbol, u: Cells, f: Cells, shown: nat -> Tristate, early: set<nat>)
    requires Fit(sys, u) && Fit(sys, f) && c in sys.groups && f[c] == ChoiceCell(sys, c, u, Val(sys, f), shown)
    requires ChoiceValue(sys, c, u, Val(sys, f), shown) != YES ==> early == {}
    requires var g, env := GroupOf(sys, u, c), InputsOf(sys, c, Val(sys, f), shown, early);
             Choice.Fits(g, env) && Choice.ChoiceCalculated(g, InputsOf(sys, c, Val(sys, f), shown, {}))
               == Choice.ChoiceCalculated(g, env)
             && Choice.ChoiceTri(g, InputsOf(sys, c, Val(sys, f), shown, {}), g.user, g.defTri)
                == Choice.ChoiceTri(g, env, g.user, g.defTri)
    ensures var g, env := GroupOf(sys, u, c), InputsOf(sys, c, Val(sys, f), shown, early);
            var r := Choice.ChoiceCalculated(g, env);
            && Choice.Early(g, env) == early && f[c].tri == r.tri && f[c].sel == r.val
            && GroupOf(sys, f, c) == r.(members := GroupOf(sys, f, c).members)
  {
    hide MemberInputs, PromptTris, Choice.ChoiceTri, Choice.Selected, Choice.AllUser, Choice.Seen;
  }

  lemma GroupFits(sys: System, u: Cells, c: Symbol, env: Choice.Inputs)
    requires Fit(sys, u) && c in sys.groups && c.IsLogical() && |env.members| == |sys.groups[c]|
    requires forall i :: i in env.early ==> i < |sys.groups[c]|
    ensures Choice.Fits(GroupOf(sys, u, c), env)
  {
    forall i | 0 <= i < |sys.groups[c]| ensures sys.groups[c][i].IsLogical() { GroupMember(sys, c, i); }
  }

  /** The choice itself does not depend on which members are asked for. */
  lemma IgnoresEarly(g: Choice.Group, env1: Choice.Inputs, env2: Choice.Inputs)
    requires Choice.Fits(g, env1) && Choice.Fits(g, env2) && env2 == env1.(early := env2.early)
    ensures Choice.ChoiceCalculated(g, env1) == Choice.ChoiceCalculated(g, env2)
    ensures Choice.ChoiceTri(g, env1, g.user, g.defTri) == Choice.ChoiceTri(g, env2, g.user, g.defTri)
  {
    hide Choice.MemberVisibility, Choice.Visibility, Choice.AllUser, Choice.ChoiceTri, Choice.FirstVisible;
    TriIgnoresEarly(g, env1, env2);
    assert Choice.Seen(g.members, env1, YES) == Choice.Seen(g.members, env2, YES);
    FirstDefaultIgnoresEarly(Choice.Seen(g.members, env1, YES), env1, env2, 0);
  }

  lemma TriIgnoresEarly(g: Choice.Group, env1: Choice.Inputs, env2: Choice.Inputs)
    requires env2 == env1.(early := env2.early)
    ensures Choice.ChoiceTri(g, env1, g.user, g.defTri) == Choice.ChoiceTri(g, env2, g.user, g.defTri)
    ensures Choice.RevDep(g, env1) == Choice.RevDep(g, env2) && Choice.Implied(g, env1) == Choice.Implied(g, env2)
  {
  }

  lemma {:induction false} FirstDefaultIgnoresEarly(m: seq<Choice.Member>, env1: Choice.Inputs, env2: Choice.Inputs,
                                                    k: nat)
    requires env2 == env1.(early := env2.early) && k <= |env1.defaults|
    ensures Choice.FirstDefault(m, env1, k) == Choice.FirstDefault(m, env2, k)
    decreases |env1.defaults| - k
  {
    if k < |env1.defaults| { FirstDefaultIgnoresEarly(m, env1, env2, k + 1); }
  }

  /** The calculation of a member does not depend on the visibility that it had. */
  lemma SeenOrNot(g: Choice.Group, env: Choice.Inputs, i: nat)
    requires Choice.Fits(g, env) && i < |g.members|
    ensures var m := Choice.ChoiceCalculated(g, env).members;
            && |m| == |g.members|
            && forall t, chosen :: Choice.MemberCalculated(m[i], env.members[i], t, chosen, env.modules)
                                == Choice.MemberCalculated(g.members[i], env.members[i], t, chosen, env.modules)
  {
    hide Choice.MemberVisibility, Choice.Selected, Choice.AllUser, Choice.ChoiceTri;
  }

  /** If the choice and all its members are right, with the same beginning, the group is as calculated. */
  lemma RightGroup(sys: System, u: Cells, k: Snapshot, c: Symbol)
    requires Fit(sys, u) && Fit(sys, k.cells) && c in sys.groups && c.IsLogical() && RightAt(sys, u, k, c)
    requires forall i :: 0 <= i < |sys.groups[c]| ==> RightAt(sys, u, k, sys.groups[c][i])
    ensures exists shown :: var g, env := GroupOf(sys, u, c), InputsOf(sys, c, Val(sys, k.cells), shown, {});
              Choice.Fits(g, env) && GroupOf(sys, k.cells, c) == Choice.Calculated(g, env)
  {
    hide Choice.MemberCalculated, ChoiceCell, ChoiceReady, Choice.Calculated, Choice.Fits, GroupOf, InputsOf,
         MemberInputs;
    var v := Val(sys, k.cells);
    var shown :| ChoiceReady(sys, k.valid, c, u, v, shown) && k.cells[c] == ChoiceCell(sys, c, u, v, shown);
    forall i | 0 <= i < |sys.groups[c]| ensures MemberFollows(sys, c, u, k.cells, i, false) {
      RightMemberIs(sys, u, k, c, i);
    }
    GroupIs(sys, c, u, k.cells, shown, {});
  }

  // ----- a choice calculated first, and its members after it -----

  /** The calculation of the choice from `k0`, and then of everything else up to `k4`. */
  ghost predicate GroupRun(sys: System, rank: Symbol -> nat, low: nat, b: nat, top: nat, c: Symbol, k0: Snapshot,
                           k1: Snapshot,
                           kp: Snapshot, k2: Snapshot, k3: Snapshot, k4: Snapshot, shown: nat -> Tristate)
    requires Fit(sys, k0.cells) && c in sys.groups && c in sys.defs
  {
    && c !in k0.valid && !OwnReads(sys, c, c) && Fit(sys, k3.cells) && c in kp.cells
    && (forall i :: 0 <= i < |sys.groups[c]| ==>
          && sys.groups[c][i] !in k0.valid && rank(sys.groups[c][i]) >= low && sys.groups[c][i] in k4.valid)
    && ChoiceBegun(sys, rank, low, c, Snapshot(k0.cells, k0.valid + {c}), k1, kp)
    && (if kp.cells[c].tri != YES then k2 == kp && k3 == kp
        else Selecting(sys, rank, b, c, k0.cells, kp, k2, k3, shown))
    && Advanced(sys, rank, top, {}, k3, k4)
  }

  lemma RunIs(sys: System, rank: Symbol -> nat, low: nat, b: nat, top: nat, c: Symbol, k0: Snapshot, k1: Snapshot,
              kp: Snapshot, k2: Snapshot, k3: Snapshot, k4: Snapshot, shown: nat -> Tristate)
    requires Fit(sys, k0.cells) && c in sys.groups && c in sys.defs
    requires c !in k0.valid && !OwnReads(sys, c, c) && Fit(sys, k3.cells) && c in kp.cells
    requires forall i :: 0 <= i < |sys.groups[c]| ==>
               && sys.groups[c][i] !in k0.valid && rank(sys.groups[c][i]) >= low && sys.groups[c][i] in k4.valid
    requires ChoiceBegun(sys, rank, low, c, Snapshot(k0.cells, k0.valid + {c}), k1, kp)
    requires if kp.cells[c].tri != YES then k2 == kp && k3 == kp
             else Selecting(sys, rank, b, c, k0.cells, kp, k2, k3, shown)
    requires Advanced(sys, rank, top, {}, k3, k4)
    ensures GroupRun(sys, rank, low, b, top, c, k0, k1, kp, k2, k3, k4, shown)
  {
    hide Fit, OwnReads, ChoiceBegun, Selecting, Advanced;
  }

  lemma RunChoice(sys: System, rank: Symbol -> nat, low: nat, b: nat, top: nat, c: Symbol, k0: Snapshot, k1: Snapshot,
                  kp: Snapshot, k2: Snapshot, k3: Snapshot, k4: Snapshot, shown: nat -> Tristate)
    requires Fit(sys, k0.cells) && c in sys.groups && c in sys.defs
    requires GroupRun(sys, rank, low, b, top, c, k0, k1, kp, k2, k3, k4, shown)
    ensures c in kp.cells
    ensures Fit(sys, k4.cells) && k4.cells[c] == k3.cells[c] == ChoiceCell(sys, c, k0.cells, Val(sys, k4.cells), shown)
    ensures ChoiceValue(sys, c, k0.cells, Val(sys, k4.cells), shown) == kp.cells[c].tri
    ensures c in k3.valid
  {
    hide Advanced, Fit, OwnIs, OwnReads, Proper, Selecting, ChoiceReady, ChoiceCell, ChoiceValue, OwnReady, Same,
         Combined;
    var ka := Snapshot(k0.cells, k0.valid + {c});
    ChoiceIsRight(sys, rank, low, b, c, ka, k1, kp, k2, k3, shown);
    AdvancedFit(sys, rank, top, k3, k4);
    AdvancedFit(sys, rank, low, ka, k1);
    ChoiceAfter(sys, rank, b, c, ka, k1, kp, k2, k3, shown);
    ChoiceIsNoMember(sys, c);
    FitFacts(sys, k3.cells);
    FitFacts(sys, k4.cells);
    AdvancedSelf(sys, rank, top, {}, k3, k4, c);
    ValueStays(sys, rank, top, k3, k4);
    UsersSelf(sys, k0.cells, c);
    SameLess(sys, k3.valid, c, Val(sys, k3.cells), Val(sys, k4.cells));
    ChoiceSame(sys, k3.valid, c, k0.cells, k0.cells, Val(sys, k3.cells), Val(sys, k4.cells), shown);
    RunValue(sys, rank, low, b, c, ka, k1, kp, k2, k3, k4, shown);
  }

  lemma SameLess(sys: System, valid: set<Symbol>, c: Symbol, v1: Valuation, v2: Valuation)
    requires Same(sys, valid, v1, v2)
    ensures Same(sys, valid - {c}, v1, v2)
  {
  }

  lemma RunValue(sys: System, rank: Symbol -> nat, low: nat, b: nat, c: Symbol, ka: Snapshot, k1: Snapshot,
                 kp: Snapshot, k2: Snapshot, k3: Snapshot, k4: Snapshot, shown: nat -> Tristate)
    requires Fit(sys, ka.cells) && Fit(sys, k1.cells) && Fit(sys, k4.cells) && c in sys.groups && c in sys.defs
             && !OwnReads(sys, c, c)
    requires ChoiceBegun(sys, rank, low, c, ka, k1, kp) && k1.valid <= k3.valid
    requires Same(sys, k3.valid - {c}, Val(sys, k3.cells), Val(sys, k4.cells)) && k3.cells.Keys == sys.defs.Keys
    requires forall r :: r in k1.valid && r in sys.defs && r != c ==> k3.cells[r].tri == k1.cells[r].tri
    ensures ChoiceValue(sys, c, ka.cells, Val(sys, k4.cells), shown) == kp.cells[c].tri
  {
    hide Advanced, Fit, OwnReads, Proper, OwnReady, Combined, ChoiceValue, PromptTris, RevTri, EvalDep;
    FitFacts(sys, k1.cells);
    FitFacts(sys, k4.cells);
    var p := kp.cells[c];
    forall r | r in k1.valid && r in sys.defs && r != c ensures k4.cells[r].tri == k1.cells[r].tri {
      assert Val(sys, k3.cells).tri(r) == Val(sys, k4.cells).tri(r);
    }
    OwnStays(sys, k1, Snapshot(k4.cells, k3.valid), c, p.visible, p.dir, p.rev, p.implied);
    ChoiceValueIs(sys, c, ka.cells, Snapshot(k4.cells, k3.valid), shown, p);
  }

  /** No member is asked for before the choice at y looks at its members. */
  lemma NoneBefore(sys: System, rank: Symbol -> nat, low: nat, b: nat, top: nat, c: Symbol, k0: Snapshot, k1: Snapshot,
                   kp: Snapshot, k2: Snapshot, k3: Snapshot, k4: Snapshot, shown: nat -> Tristate, i: nat)
    requires Fit(sys, k0.cells) && c in sys.groups && c in sys.defs && i < |sys.groups[c]|
    requires GroupRun(sys, rank, low, b, top, c, k0, k1, kp, k2, k3, k4, shown)
    ensures sys.groups[c][i] !in kp.valid && SameUser(k0.cells, kp.cells, sys.groups[c][i])
    ensures kp.valid == k1.valid && k2.valid == k3.valid && kp.valid <= k2.valid && Fit(sys, kp.cells)
  {
    hide OwnIs, OwnReads, SelectionReady, MembersSeen, RightAt, Fit, Choice.Selected, SeenMembers, InputsOf;
    var m, ka := sys.groups[c][i], Snapshot(k0.cells, k0.valid + {c});
    FitFacts(sys, k0.cells);
    GroupMember(sys, c, i);
    ChoiceIsNoMember(sys, c);
    MemberUser(sys, rank, low, {}, ka, k1, m);
    if kp.cells[c].tri == YES { AdvancedOpenFit(sys, rank, b, {c}, kp, k2); }
  }

  lemma RunUser(sys: System, rank: Symbol -> nat, low: nat, b: nat, top: nat, c: Symbol, k0: Snapshot, k1: Snapshot,
                kp: Snapshot, k2: Snapshot, k3: Snapshot, k4: Snapshot, shown: nat -> Tristate, i: nat)
    requires Fit(sys, k0.cells) && c in sys.groups && c in sys.defs && i < |sys.groups[c]|
    requires GroupRun(sys, rank, low, b, top, c, k0, k1, kp, k2, k3, k4, shown)
    ensures SameUser(k0.cells, k3.cells, sys.groups[c][i]) && sys.groups[c][i] != c
  {
    hide OwnIs, OwnReads, SelectionReady, MembersSeen, RightAt, Fit, Choice.Selected, SeenMembers, InputsOf, Advanced;
    NoneBefore(sys, rank, low, b, top, c, k0, k1, kp, k2, k3, k4, shown, i);
    FitFacts(sys, k0.cells);
    GroupMember(sys, c, i);
    ChoiceIsNoMember(sys, c);
    if kp.cells[c].tri == YES { MemberUser(sys, rank, b, {c}, kp, k2, sys.groups[c][i]); }
  }

  /** Only what the user set of a member enters its calculation. */
  lemma SameMember(m: Symbol, a: Cell, d: Cell, env: Choice.MemberInputs, t: Tristate, chosen: bool, modules: Tristate)
    requires a.user == d.user && a.defTri == d.defTri
    ensures Choice.MemberCalculated(MemberOf(m, a), env, t, chosen, modules)
         == Choice.MemberCalculated(MemberOf(m, d), env, t, chosen, modules)
  {
  }

  /**
   * When the choice has made its selection, a member asked for before is right under the choice at y with
   * nothing selected.
   */
  lemma EarlyFacts(sys: System, rank: Symbol -> nat, low: nat, b: nat, top: nat, c: Symbol, k0: Snapshot, k1: Snapshot,
                   kp: Snapshot, k2: Snapshot, k3: Snapshot, k4: Snapshot, shown: nat -> Tristate, m: Symbol)
    requires Fit(sys, k0.cells) && c in sys.groups && c in sys.defs
    requires GroupRun(sys, rank, low, b, top, c, k0, k1, kp, k2, k3, k4, shown) && m in k2.valid && m !in kp.valid
    requires Fit(sys, kp.cells)
    ensures kp.cells[c].tri == YES && rank(m) < b && Fit(sys, k2.cells) && RightAt(sys, kp.cells, k2, m)
    ensures c in k2.valid && c in k2.cells && k2.cells[c].tri == YES && k2.cells[c].sel == None
    ensures Fit(sys, k3.cells) && Advanced(sys, rank, top, {}, k3, k4)
            && k3 == Snapshot(k2.cells[c := k3.cells[c]], k2.valid)
  {
    hide OwnIs, OwnReads, SelectionReady, MembersSeen, RightAt, Fit, Choice.Selected, SeenMembers, InputsOf, Kept;
    AdvancedOpenFit(sys, rank, b, {c}, kp, k2);
  }

  /** What is calculated stays, and a member whose choice is calculated as a whole. */
  lemma AfterwardsKept(sys: System, rank: Symbol -> nat, top: nat, c: Symbol, k2: Snapshot, k3: Snapshot, k4: Snapshot,
                       m: Symbol)
    requires Advanced(sys, rank, top, {}, k3, k4) && c in k3.cells
             && k3 == Snapshot(k2.cells[c := k3.cells[c]], k2.valid)
    requires m in sys.choiceOf && sys.choiceOf[m] == c && c in k2.valid && m in k2.valid && m != c && m in k2.cells
    ensures m in k4.cells && k4.cells[m] == k2.cells[m]
    ensures forall r :: r in k2.valid && r in sys.defs && r != c ==>
              r in k2.cells && r in k4.cells && k4.cells[r].tri == k2.cells[r].tri
  {
    hide RightAt, Fit;
    AdvancedFit(sys, rank, top, k3, k4);
    FitFacts(sys, k3.cells);
    FitFacts(sys, k4.cells);
    assert m in sys.defs by { NotOwnGroup(sys, m); }
    assert Kept(sys, {}, k3, k4, m);
    forall r | r in k2.valid && r in sys.defs && r != c
      ensures r in k2.cells && r in k4.cells && k4.cells[r].tri == k2.cells[r].tri
    {
      assert Kept(sys, {}, k3, k4, r);
    }
  }

  lemma RunEarly(sys: System, rank: Symbol -> nat, low: nat, b: nat, top: nat, c: Symbol, k0: Snapshot, k1: Snapshot,
                 kp: Snapshot, k2: Snapshot, k3: Snapshot, k4: Snapshot, shown: nat -> Tristate, i: nat)
    requires Fit(sys, k0.cells) && Fit(sys, k4.cells) && c in sys.groups && c in sys.defs && i < |sys.groups[c]|
             && c in kp.cells
    requires GroupRun(sys, rank, low, b, top, c, k0, k1, kp, k2, k3, k4, shown) && sys.groups[c][i] in k2.valid
    ensures kp.cells[c].tri == YES && rank(sys.groups[c][i]) < b && MemberFollows(sys, c, k0.cells, k4.cells, i, true)
  {
    hide GroupRun, RightAt, Fit, Choice.MemberCalculated, MemberInputs, Advanced, Kept;
    var m := sys.groups[c][i];
    NoneBefore(sys, rank, low, b, top, c, k0, k1, kp, k2, k3, k4, shown, i);
    FitFacts(sys, k0.cells);
    FitFacts(sys, kp.cells);
    FitFacts(sys, k4.cells);
    GroupMember(sys, c, i);
    ChoiceIsNoMember(sys, c);
    EarlyFacts(sys, rank, low, b, top, c, k0, k1, kp, k2, k3, k4, shown, m);
    FitFacts(sys, k2.cells);
    AfterwardsKept(sys, rank, top, c, k2, k3, k4, m);
    EarlyMemberIs(sys, kp.cells, k2, k4, c, i);
    SameMember(m, kp.cells[m], k0.cells[m], MemberInputs(sys, c, m, Val(sys, k4.cells)), YES, false, sys.modules);
  }

  lemma RunLate(sys: System, rank: Symbol -> nat, low: nat, b: nat, top: nat, c: Symbol, k0: Snapshot, k1: Snapshot,
                kp: Snapshot, k2: Snapshot, k3: Snapshot, k4: Snapshot, shown: nat -> Tristate, i: nat)
    requires Fit(sys, k0.cells) && Fit(sys, k4.cells) && c in sys.groups && c in sys.defs && i < |sys.groups[c]|
    requires GroupRun(sys, rank, low, b, top, c, k0, k1, kp, k2, k3, k4, shown) && sys.groups[c][i] !in k2.valid
    ensures MemberFollows(sys, c, k0.cells, k4.cells, i, false)
  {
    hide OwnIs, OwnReads, Selecting, RightAt, Fit, Choice.MemberCalculated, MemberInputs, ChoiceBegun;
    NoneBefore(sys, rank, low, b, top, c, k0, k1, kp, k2, k3, k4, shown, i);
    RunUser(sys, rank, low, b, top, c, k0, k1, kp, k2, k3, k4, shown, i);
    FitFacts(sys, k0.cells);
    FitFacts(sys, k4.cells);
    GroupMember(sys, c, i);
    var m := sys.groups[c][i];
    assert RightAt(sys, k3.cells, k4, m);
    RightMemberIs(sys, k3.cells, k4, c, i);
    SameMember(m, k3.cells[m], k0.cells[m], MemberInputs(sys, c, m, Val(sys, k4.cells)), k4.cells[c].tri,
               k4.cells[c].sel == Some(i), sys.modules);
  }

  /** The group after such a run is as calculated, with the members asked for too early. */
  lemma GroupRunIs(sys: System, rank: Symbol -> nat, low: nat, b: nat, top: nat, c: Symbol, k0: Snapshot, k1: Snapshot,
                   kp: Snapshot, k2: Snapshot, k3: Snapshot, k4: Snapshot, shown: nat -> Tristate)
    requires Fit(sys, k0.cells) && c in sys.groups && c in sys.defs && c.IsLogical()
    requires GroupRun(sys, rank, low, b, top, c, k0, k1, kp, k2, k3, k4, shown)
    ensures Fit(sys, k4.cells)
    ensures var early := AskedFor(sys, c, k2.valid);
            var g, env := GroupOf(sys, k0.cells, c), InputsOf(sys, c, Val(sys, k4.cells), shown, early);
            Choice.Fits(g, env) && GroupOf(sys, k4.cells, c) == Choice.Calculated(g, env)
    ensures forall i :: i in AskedFor(sys, c, k2.valid) ==> kp.cells[c].tri == YES && rank(sys.groups[c][i]) < b
    ensures kp.cells[c].tri == ChoiceValue(sys, c, k0.cells, Val(sys, k4.cells), shown)
  {
    hide GroupRun, Fit, Choice.Calculated, Choice.Fits, GroupOf, InputsOf, MemberFollows, ChoiceCell, ChoiceValue;
    RunChoice(sys, rank, low, b, top, c, k0, k1, kp, k2, k3, k4, shown);
    var early := AskedFor(sys, c, k2.valid);
    forall i | 0 <= i < |sys.groups[c]|
      ensures MemberFollows(sys, c, k0.cells, k4.cells, i, i in early)
      ensures i in early ==> kp.cells[c].tri == YES && rank(sys.groups[c][i]) < b
    {
      if sys.groups[c][i] in k2.valid {
        RunEarly(sys, rank, low, b, top, c, k0, k1, kp, k2, k3, k4, shown, i);
      } else {
        RunLate(sys, rank, low, b, top, c, k0, k1, kp, k2, k3, k4, shown, i);
      }
    }
    GroupIs(sys, c, k0.cells, k4.cells, shown, early);
  }

  /** A member that a prompt of a member mentions is asked for too early. */
  lemma MentionedIsAsked(sys: System, rank: Symbol -> nat, b: nat, c: Symbol, u: Cells, kp: Snapshot, k2: Snapshot,
                         k3: Snapshot,
                         shown: nat -> Tristate, i: nat, j: nat)
    requires Fit(sys, u) && c in sys.groups && c in kp.cells && Selecting(sys, rank, b, c, u, kp, k2, k3, shown)
    requires i < |sys.groups[c]| && j < |sys.groups[c]| && sys.groups[c][j] in sys.defs
             && PromptReads(sys, sys.groups[c][j], sys.groups[c][i])
    ensures i in AskedFor(sys, c, k2.valid)
  {
    hide SelectionReady, SeenMembers, InputsOf, Choice.Selected, Choice.AllUser, Fit, Visible;
    FitFacts(sys, u);
    GroupMember(sys, c, i);
    AdvancedOpenFit(sys, rank, b, {c}, kp, k2);
    var p := sys.defs[sys.groups[c][j]].prompts;
    var k :| 0 <= k < |p| && sys.groups[c][i] in DepRefs(p[k]);
    assert Ready(sys, k2.valid, p[k]);
  }

  /** A member in the condition of the first default is asked for too early, if the user has set no member. */
  lemma DefaultIsAsked(sys: System, rank: Symbol -> nat, b: nat, c: Symbol, u: Cells, kp: Snapshot, k2: Snapshot,
                       k3: Snapshot,
                       shown: nat -> Tristate, i: nat)
    requires Fit(sys, u) && c in sys.groups && c in sys.defs && c in kp.cells
             && Selecting(sys, rank, b, c, u, kp, k2, k3, shown)
    requires i < |sys.groups[c]| && FirstCondReads(sys, c, sys.groups[c][i]) && u[c].defSel == None
    ensures i in AskedFor(sys, c, k2.valid)
  {
    hide SeenMembers, Choice.Selected, Choice.AllUser, Fit, MembersSeen, Choice.VisibleOf;
    FitFacts(sys, u);
    GroupMember(sys, c, i);
    AdvancedOpenFit(sys, rank, b, {c}, kp, k2);
    assert SelectionReady(sys, k2.valid, c, u, Val(sys, k2.cells), shown);
    assert Ready(sys, k2.valid, sys.defs[c].defaults[0].cond);
  }

  ghost predicate FirstCondReads(sys: System, c: Symbol, r: Symbol)
    requires c in sys.defs
  {
    sys.defs[c].defaults != [] && r in DepRefs(sys.defs[c].defaults[0].cond)
  }

  /** The members that the calculation certainly asks for before the selection. */
  ghost predicate Mentioned(sys: System, c: Symbol, u: Cells, i: nat)
    requires Fit(sys, u) && c in sys.groups && i < |sys.groups[c]|
  {
    || (exists j :: 0 <= j < |sys.groups[c]| && PromptReads(sys, sys.groups[c][j], sys.groups[c][i]))
    || (u[c].defSel == None && FirstCondReads(sys, c, sys.groups[c][i]))
  }

  lemma MentionedAreAsked(sys: System, rank: Symbol -> nat, b: nat, c: Symbol, u: Cells, kp: Snapshot, k2: Snapshot,
                          k3: Snapshot,
                          shown: nat -> Tristate)
    requires Fit(sys, u) && c in sys.groups && c in sys.defs && c in kp.cells
             && Selecting(sys, rank, b, c, u, kp, k2, k3, shown)
    ensures forall i: nat :: i < |sys.groups[c]| && Mentioned(sys, c, u, i) ==> i in AskedFor(sys, c, k2.valid)
  {
    hide Selecting, Fit, PromptReads, FirstCondReads;
    FitFacts(sys, u);
    FitMembers(sys, c);
    forall i: nat | i < |sys.groups[c]| && Mentioned(sys, c, u, i) ensures i in AskedFor(sys, c, k2.valid) {
      if u[c].defSel == None && FirstCondReads(sys, c, sys.groups[c][i]) {
        DefaultIsAsked(sys, rank, b, c, u, kp, k2, k3, shown, i);
      } else {
        var j: nat :| 0 <= j < |sys.groups[c]| && PromptReads(sys, sys.groups[c][j], sys.groups[c][i]);
        MentionedIsAsked(sys, rank, b, c, u, kp, k2, k3, shown, i, j);
      }
    }
  }

  /** The group as its calculation gives it, with the law exactly if the selected symbol was not asked for before. */
  ghost predicate AsCalculated(sys: System, c: Symbol, u: Cells, f: Cells, shown: nat -> Tristate, early: set<nat>)
    requires Fit(sys, u) && Fit(sys, f) && c in sys.groups && c in sys.defs
  {
    FitGroup(sys, u, c);
    FitGroup(sys, f, c);
    var g, env, h := GroupOf(sys, u, c), InputsOf(sys, c, Val(sys, f), shown, early), GroupOf(sys, f, c);
    Choice.Fits(g, env) && h == Choice.Calculated(g, env) && (Choice.Radio(h) <==> Choice.SelectsUnasked(g, env))
  }

  ghost predicate GroupIsRadio(sys: System, f: Cells, c: Symbol)
    requires Fit(sys, f) && c in sys.groups
  {
    FitGroup(sys, f, c);
    Choice.Radio(GroupOf(sys, f, c))
  }

  /** The law holds if no member was asked for before the selection. */
  lemma NoneEarly(sys: System, c: Symbol, u: Cells, f: Cells, shown: nat -> Tristate, early: set<nat>)
    requires Fit(sys, u) && Fit(sys, f) && c in sys.groups && c in sys.defs && AsCalculated(sys, c, u, f, shown, early)
    ensures early == {} ==> GroupIsRadio(sys, f, c)
  {
    hide Fit, Choice.Radio, Choice.Calculated, Choice.Selected, Choice.Seen, Choice.ChoiceTri;
  }

  lemma GroupRunCalculated(sys: System, rank: Symbol -> nat, low: nat, b: nat, top: nat, c: Symbol, k0: Snapshot,
                           k1: Snapshot,
                           kp: Snapshot, k2: Snapshot, k3: Snapshot, k4: Snapshot, shown: nat -> Tristate)
    requires Fit(sys, k0.cells) && c in sys.groups && c in sys.defs && c.IsLogical()
    requires GroupRun(sys, rank, low, b, top, c, k0, k1, kp, k2, k3, k4, shown)
    ensures Fit(sys, k4.cells) && AsCalculated(sys, c, k0.cells, k4.cells, shown, AskedFor(sys, c, k2.valid))
    ensures forall i :: i in AskedFor(sys, c, k2.valid) ==> rank(sys.groups[c][i]) < b
    ensures ChoiceValue(sys, c, k0.cells, Val(sys, k4.cells), shown) == YES ==>
              forall i: nat :: i < |sys.groups[c]| && Mentioned(sys, c, k0.cells, i) ==> i in AskedFor(sys, c, k2.valid)
  {
    hide Fit, Choice.Calculated, Choice.Fits, Choice.Radio, Choice.SelectsUnasked, Mentioned, Selecting, ChoiceBegun,
         Advanced, ChoiceValue;
    GroupRunIs(sys, rank, low, b, top, c, k0, k1, kp, k2, k3, k4, shown);
    FitFacts(sys, k0.cells);
    FitGroup(sys, k0.cells, c);
    Choice.CalculationEstablishesRadio(GroupOf(sys, k0.cells, c),
                                       InputsOf(sys, c, Val(sys, k4.cells), shown, AskedFor(sys, c, k2.valid)));
    if kp.cells[c].tri == YES { MentionedAreAsked(sys, rank, b, c, k0.cells, kp, k2, k3, shown); }
  }

  /** What is calculated by the calculation of a choice stays so. */
  lemma ChoiceGrows(sys: System, rank: Symbol -> nat, low: nat, b: nat, c: Symbol, u: Cells, ka: Snapshot, k1: Snapshot,
                    kp: Snapshot, k2: Snapshot, k3: Snapshot, shown: nat -> Tristate)
    requires Fit(sys, u) && c in sys.groups && c in sys.defs && c in kp.cells
             && ChoiceBegun(sys, rank, low, c, ka, k1, kp)
    requires if kp.cells[c].tri != YES then k2 == kp && k3 == kp else Selecting(sys, rank, b, c, u, kp, k2, k3, shown)
    ensures ka.valid <= k3.valid
  {
    hide OwnIs, SelectionReady, MembersSeen, RightAt, Fit, Choice.Selected, SeenMembers, InputsOf;
  }

  // ----- what is asked for before the selection -----

  /** The calculation of a symbol in `l` asks for symbols in `l` only, apart from the choice `c`. */
  ghost predicate Closed(sys: System, c: Symbol, l: set<Symbol>)
    requires Proper(sys)
  {
    forall s, r :: s in l && s in sys.defs && r in sys.defs && r != c && Reads(sys, s, r) ==> r in l
  }

  /**
   * `own` has what the prompts and dependencies of `c` ask for, which is no member of it; `all` what its
   * selection does, too.
   */
  ghost predicate AsksFor(sys: System, c: Symbol, own: set<Symbol>, all: set<Symbol>)
    requires Proper(sys) && c in sys.groups && c in sys.defs
  {
    && Closed(sys, c, own) && Closed(sys, c, all) && own <= all
    && (forall r :: r in sys.defs && OwnReads(sys, c, r) ==> r in own)
    && (forall r :: r in sys.defs && SelectionReads(sys, c, r) && r != c ==> r in all)
    && (forall i :: 0 <= i < |sys.groups[c]| ==> sys.groups[c][i] !in own)
  }

  ghost function Layer(own: set<Symbol>, all: set<Symbol>, s: Symbol): nat {
    if s in own then 0 else if s in all then 1 else 2
  }

  /** The symbols in `own` first, then those in `all`, all ranks being below `b`. */
  ghost function Layered(rank: Symbol -> nat, b: nat, own: set<Symbol>, all: set<Symbol>): Symbol -> nat {
    s => rank(s) + Layer(own, all, s) * b
  }

  lemma LayersOrdered(sys: System, rank: Symbol -> nat, b: nat, c: Symbol, own: set<Symbol>, all: set<Symbol>,
                      valid: set<Symbol>)
    requires Proper(sys) && c in sys.groups && c in sys.defs && AsksFor(sys, c, own, all) && c in valid
    requires Ordered(sys, rank, valid) && forall s :: s in sys.defs ==> rank(s) < b
    ensures Ordered(sys, Layered(rank, b, own, all), valid)
  {
    hide Reads, OwnReads, SelectionReads, Proper;
    var after := Layered(rank, b, own, all);
    forall s, r | s in sys.defs && s !in valid && r in sys.defs && r !in valid && Reads(sys, s, r)
      ensures after(r) < after(s)
    {
      assert rank(r) < rank(s) && Layer(own, all, r) <= Layer(own, all, s);
    }
  }

  lemma LayersOwn(sys: System, rank: Symbol -> nat, b: nat, c: Symbol, own: set<Symbol>, all: set<Symbol>,
                  valid: set<Symbol>)
    requires Proper(sys) && c in sys.groups && c in sys.defs && AsksFor(sys, c, own, all)
    requires forall s :: s in sys.defs ==> rank(s) < b
    ensures LowOwn(sys, Layered(rank, b, own, all), valid, b, c)
  {
    hide Proper, SelectionReads, Closed, DepRefs, Refs;
    var after := Layered(rank, b, own, all);
    forall r | r in sys.defs && OwnReads(sys, c, r) ensures after(r) < b {}
    forall k | 0 <= k < |sys.defs[c].prompts| ensures Low(sys, after, valid, b, sys.defs[c].prompts[k]) {
      forall r | r in DepRefs(sys.defs[c].prompts[k]) ensures PromptReads(sys, c, r) {}
    }
  }

  lemma LayersSelection(sys: System, rank: Symbol -> nat, b: nat, c: Symbol, own: set<Symbol>, all: set<Symbol>,
                        valid: set<Symbol>)
    requires Proper(sys) && c in sys.groups && c in sys.defs && AsksFor(sys, c, own, all) && c in valid
    requires forall s :: s in sys.defs ==> rank(s) < b
    ensures LowSelection(sys, Layered(rank, b, own, all), valid, 2 * b, c)
  {
    hide Proper, OwnReads, Closed, DepRefs, Refs;
    FitMembers(sys, c);
    var after := Layered(rank, b, own, all);
    forall r | r in sys.defs && r != c && SelectionReads(sys, c, r) ensures after(r) < 2 * b {}
    forall i, k | 0 <= i < |sys.groups[c]| && 0 <= k < |sys.defs[sys.groups[c][i]].prompts|
      ensures Low(sys, after, valid, 2 * b, sys.defs[sys.groups[c][i]].prompts[k])
    {
      forall r | r in DepRefs(sys.defs[sys.groups[c][i]].prompts[k]) ensures SelectionReads(sys, c, r) {
        assert PromptReads(sys, sys.groups[c][i], r);
      }
    }
    forall k | 0 <= k < |sys.defs[c].defaults| ensures Low(sys, after, valid, 2 * b, sys.defs[c].defaults[k].cond) {
      forall r | r in DepRefs(sys.defs[c].defaults[k].cond) ensures CondReads(sys, c, r) {}
    }
  }

  /** The ranks have a bound. */
  lemma {:induction false} RanksBounded(rank: Symbol -> nat, all: set<Symbol>) returns (b: nat)
    ensures forall s :: s in all ==> rank(s) < b
    decreases all
  {
    if all == {} {
      b := 0;
    } else {
      var s :| s in all;
      b := RanksBounded(rank, all - {s});
      b := b + rank(s) + 1;
    }
  }

  /** No rank of a symbol is above its bound in the layers. */
  lemma LayersBounded(sys: System, rank: Symbol -> nat, b: nat, c: Symbol, own: set<Symbol>, all: set<Symbol>)
    requires Proper(sys) && c in sys.groups && c in sys.defs && AsksFor(sys, c, own, all)
    requires forall s :: s in sys.defs ==> rank(s) < b
    ensures var after := Layered(rank, b, own, all);
            forall i :: 0 <= i < |sys.groups[c]| ==>
              && b <= after(sys.groups[c][i]) < 3 * b && (after(sys.groups[c][i]) < 2 * b ==> sys.groups[c][i] in all)
  {
    hide Closed, OwnReads, SelectionReads;
    FitMembers(sys, c);
  }
}
