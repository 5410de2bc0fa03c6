/**
 * What the search for recursive dependencies means for the calculation of values: after a
 * check without errors the calculation has one result, in whatever order symbols are asked for.
 */
module CalcChecked {
  import opened Basics
  import opened Exprs
  import opened Calc
  import opened CalcGroups
  import opened CalcOrder
  import opened CalcRun
  import opened CalcSteps
  import opened ExprTransform
  import DepCheck
  import DepEdges

  function PromptProp(e: Option<Expr>): DepCheck.Property { DepCheck.Property(DepCheck.OtherProp, e, None) }

  function DefaultProp(d: Default): DepCheck.Property {
    DepCheck.Property(DepCheck.DefaultProp, d.cond, Some(d.value))
  }

  function PropsOf(d: Def): seq<DepCheck.Property> {
    seq(|d.prompts|, k requires 0 <= k < |d.prompts| => PromptProp(d.prompts[k]))
    + seq(|d.defaults|, k requires 0 <= k < |d.defaults| => DefaultProp(d.defaults[k]))
  }

  /** The same definitions, as the search for recursive dependencies sees them. */
  function GraphOf(sys: System): DepCheck.Graph {
    DepCheck.Graph(map s | s in sys.defs :: DepCheck.Deps(sys.defs[s].dir, sys.defs[s].rev, sys.defs[s].implied,
                                                         PropsOf(sys.defs[s])),
                   sys.groups, sys.choiceOf)
  }

  lemma GraphIsGrouped(sys: System)
    requires Proper(sys)
    ensures DepCheck.Grouped(GraphOf(sys))
  {
  }

  lemma {:induction false} RefsAgree(e: Expr, r: Symbol)
    ensures r in Refs(e) <==> r in DepCheck.Refs(e)
  {
    match e
    case Not(x) => RefsAgree(x, r);
    case Bin(_, a, b) =>
      RefsAgree(a, r);
      RefsAgree(b, r);
    case _ =>
  }

  lemma PropIsFollowed(g: DepCheck.Graph, s: Symbol, i: nat, r: Symbol)
    requires s in g.deps && i < |g.deps[s].props| && r in DepCheck.PropRefs(g.deps[s].props[i], s in g.groups)
    ensures DepCheck.Edge(g, s, r)
  {
    hide DepCheck.PropsRefs, DepCheck.PropRefs;
    DepCheck.PropsRefsPrefix(g.deps[s].props, i, s in g.groups);
  }

  lemma PromptIsFollowed(sys: System, s: Symbol, r: Symbol)
    requires s in sys.defs && PromptReads(sys, s, r)
    ensures DepCheck.Edge(GraphOf(sys), s, r)
  {
    var k :| 0 <= k < |sys.defs[s].prompts| && r in DepRefs(sys.defs[s].prompts[k]);
    RefsAgree(sys.defs[s].prompts[k].value, r);
    assert PropsOf(sys.defs[s])[k] == PromptProp(sys.defs[s].prompts[k]);
    PropIsFollowed(GraphOf(sys), s, k, r);
  }

  lemma DefaultIsFollowed(sys: System, s: Symbol, r: Symbol)
    requires s in sys.defs && (CondReads(sys, s, r) || (s !in sys.groups && ValueReads(sys, s, r)))
    ensures DepCheck.Edge(GraphOf(sys), s, r)
  {
    hide DepCheck.Edge;
    var d := sys.defs[s];
    var k :| 0 <= k < |d.defaults| && (r in DepRefs(d.defaults[k].cond)
                                       || (s !in sys.groups && r in Refs(d.defaults[k].value)));
    if d.defaults[k].cond.Some? { RefsAgree(d.defaults[k].cond.value, r); }
    RefsAgree(d.defaults[k].value, r);
    assert PropsOf(d)[|d.prompts| + k] == DefaultProp(d.defaults[k]);
    PropIsFollowed(GraphOf(sys), s, |d.prompts| + k, r);
  }

  lemma OwnIsFollowed(sys: System, s: Symbol, r: Symbol)
    requires s in sys.defs && OwnReads(sys, s, r)
    ensures DepCheck.Edge(GraphOf(sys), s, r)
  {
    var d := sys.defs[s];
    if PromptReads(sys, s, r) {
      PromptIsFollowed(sys, s, r);
    } else {
      if d.dir.Some? { RefsAgree(d.dir.value, r); }
      if d.rev.Some? { RefsAgree(d.rev.value, r); }
      if d.implied.Some? { RefsAgree(d.implied.value, r); }
    }
  }

  /** Whatever a calculation reads is followed by the search, from the symbol itself or from a member. */
  lemma ReadIsFollowed(sys: System, s: Symbol, r: Symbol) returns (via: Symbol)
    requires Proper(sys) && s in sys.defs && Reads(sys, s, r)
    ensures DepCheck.Edge(GraphOf(sys), via, r)
    ensures via == s || (s in sys.groups && via in sys.choiceOf && sys.choiceOf[via] == s && r != s)
  {
    hide DepCheck.Edge, OwnReads, PromptReads, CondReads, ValueReads, Proper;
    via := s;
    if OwnReads(sys, s, r) {
      OwnIsFollowed(sys, s, r);
    } else if CondReads(sys, s, r) || (s !in sys.groups && ValueReads(sys, s, r)) {
      DefaultIsFollowed(sys, s, r);
    } else {
      FitMembers(sys, s);
      var i: nat :| i < |sys.groups[s]| && PromptReads(sys, sys.groups[s][i], r);
      GroupMember(sys, s, i);
      via := sys.groups[s][i];
      PromptIsFollowed(sys, via, r);
    }
  }

  /** And whatever the search follows is read: from the symbol itself, in its defaults, or by the choice it is. */
  lemma FollowedIsRead(sys: System, s: Symbol, r: Symbol)
    ensures DepCheck.Edge(GraphOf(sys), s, r) <==>
              && s in sys.defs
              && (OwnReads(sys, s, r) || CondReads(sys, s, r) || (s !in sys.groups && ValueReads(sys, s, r)))
  {
    hide DepCheck.Edge, OwnReads, CondReads, ValueReads, DepEdges.DependsOn;
    DepEdges.EdgeIsDependency(GraphOf(sys), s, r);
    if s in sys.defs {
      if OwnReads(sys, s, r) {
        OwnIsFollowed(sys, s, r);
      } else if CondReads(sys, s, r) || (s !in sys.groups && ValueReads(sys, s, r)) {
        DefaultIsFollowed(sys, s, r);
      }
      if DepCheck.Edge(GraphOf(sys), s, r) { DependencyIsRead(sys, s, r); }
    } else {
      NoDependency(GraphOf(sys), s, r);
    }
  }

  lemma NoDependency(g: DepCheck.Graph, s: Symbol, r: Symbol)
    requires s !in g.deps
    ensures !DepEdges.DependsOn(g, s, r)
  {
  }

  lemma DependencyIsRead(sys: System, s: Symbol, r: Symbol)
    requires s in sys.defs && DepEdges.DependsOn(GraphOf(sys), s, r)
    ensures OwnReads(sys, s, r) || CondReads(sys, s, r) || (s !in sys.groups && ValueReads(sys, s, r))
  {
    hide Refs, ContainsSymbol;
    var d, props := sys.defs[s], PropsOf(sys.defs[s]);
    forall e: Expr ensures r in Refs(e) <==> ContainsSymbol(e, r) {
      RefsAgree(e, r);
      DepEdges.RefsAreMentions(e, r);
    }
    if i :| 0 <= i < |props| && DepEdges.PropMentions(props[i], s in sys.groups, r) {
      if i < |d.prompts| {
        assert props[i] == PromptProp(d.prompts[i]) && r in DepRefs(d.prompts[i]);
      } else {
        var k := i - |d.prompts|;
        assert props[i] == DefaultProp(d.defaults[k]);
        assert r in DepRefs(d.defaults[k].cond) || (s !in sys.groups && r in Refs(d.defaults[k].value));
      }
    }
  }

  /** The place of a symbol in the order of a search: members right behind their choice. */
  ghost function RankIn(sys: System, order: seq<Symbol>): Symbol -> nat {
    s => Place(sys, order, s)
  }

  ghost function Place(sys: System, order: seq<Symbol>, s: Symbol): nat {
    var a := DepCheck.Rep(GraphOf(sys), s);
    if a in order then 2 * Index(order, a) + if s in sys.choiceOf then 1 else 0 else 0
  }

  lemma {:induction false} IndexInFront(order: seq<Symbol>, i: nat, a: Symbol)
    requires i <= |order| && a in order[..i]
    ensures a in order && Index(order, a) < i
  {
    if order[0] != a {
      assert order[..i][1..] == order[1..][..i - 1];
      IndexInFront(order[1..], i - 1, a);
    }
  }

  /** What the search follows from a finished group has a lower place, or is its choice. */
  lemma FollowedIsLower(sys: System, order: seq<Symbol>, via: Symbol, r: Symbol)
    requires DepCheck.Grouped(GraphOf(sys)) && DepCheck.Ordered(GraphOf(sys), order)
             && DepCheck.Edge(GraphOf(sys), via, r)
    requires DepCheck.Rep(GraphOf(sys), via) in order && r !in sys.groups
    ensures DepCheck.Rep(GraphOf(sys), r) in order
    ensures Index(order, DepCheck.Rep(GraphOf(sys), r)) < Index(order, DepCheck.Rep(GraphOf(sys), via))
  {
    hide DepCheck.Edge, DepCheck.Rep, DepCheck.Grouped;
    var i := Index(order, DepCheck.Rep(GraphOf(sys), via));
    IndexInFront(order, i, DepCheck.Rep(GraphOf(sys), r));
  }

  lemma ReadIsLower(sys: System, order: seq<Symbol>, s: Symbol, r: Symbol)
    requires Proper(sys) && s in sys.defs && r in sys.defs && Reads(sys, s, r)
    requires DepCheck.Grouped(GraphOf(sys)) && DepCheck.Ordered(GraphOf(sys), order)
             && DepCheck.ChoicesUnnamed(GraphOf(sys))
    requires DepCheck.Rep(GraphOf(sys), s) in order
    ensures Place(sys, order, r) < Place(sys, order, s)
  {
    hide Reads, DepCheck.Edge, DepCheck.Grouped, DepCheck.Ordered, Proper;
    var via := ReadIsFollowed(sys, s, r);
    if s in sys.choiceOf { NotOwnGroup(sys, s); }
    if s in sys.groups { ChoiceIsNoMember(sys, s); }
    if r in sys.groups {
      assert DepCheck.Own(GraphOf(sys), via, r);
      ChoiceIsNoMember(sys, r);
    } else {
      FollowedIsLower(sys, order, via, r);
    }
  }

  /** A search without errors leaves an order of the symbols in which every one reads only symbols before it. */
  lemma CheckedIsOrdered(sys: System, symbols: seq<Symbol>, order: seq<Symbol>)
    requires Proper(sys) && sys.defs.Keys <= DepCheck.SetOf(symbols)
    requires DepCheck.AllFinished(GraphOf(sys), symbols, order) && DepCheck.ChoicesUnnamed(GraphOf(sys))
    ensures Ordered(sys, RankIn(sys, order), {})
  {
    hide Reads, DepCheck.Edge, DepCheck.Grouped, DepCheck.Ordered, Proper, Place, DepCheck.ChoicesUnnamed, DepCheck.Rep;
    GraphIsGrouped(sys);
    forall s, r | s in sys.defs && r in sys.defs && Reads(sys, s, r)
      ensures RankIn(sys, order)(r) < RankIn(sys, order)(s)
    {
      assert s in DepCheck.SetOf(symbols);
      ReadIsLower(sys, order, s, r);
    }
  }

  lemma GroupedAlike(g1: DepCheck.Graph, g2: DepCheck.Graph)
    requires DepEdges.SameButSelects(g1, g2) && DepCheck.Grouped(g2)
    ensures DepCheck.Grouped(g1)
  {
  }

  /**
   * The check that ends parsing, and then a calculation of all symbols in any order: if there is no
   * error, every symbol has the value that its definition gives it, and every radio group its law.
   * An error is a cycle of dependencies. What the check sees of the symbols are their definitions,
   * and selects, implies and lists of choices besides.
   */
  method CheckAndCalculate(k: Calculator, g: DepCheck.Graph, symbols: seq<Symbol>, list: seq<Symbol>)
    returns (errors: nat)
    requires Fit(k.sys, k.cells) && k.valid == {} && DepCheck.ChoicesUnnamed(GraphOf(k.sys))
    requires DepEdges.SameButSelects(g, GraphOf(k.sys))
    requires forall s :: s in k.sys.defs <==> s in list
    requires k.sys.defs.Keys <= DepCheck.SetOf(symbols)
    modifies k
    ensures errors > 0 <==> DepCheck.HasCycle(GraphOf(k.sys))
    ensures errors > 0 ==> unchanged(k)
    ensures errors == 0 ==> AllRight(k.sys, old(k.cells), k.Now())
    ensures errors == 0 ==> Fit(k.sys, k.cells) && forall c :: c in k.sys.groups ==> GroupIsRadio(k.sys, k.cells, c)
  {
    hide Fit, Proper, DepCheck.HasCycle, DepCheck.HasFirmCycle, DepCheck.ChoicesUnnamed, DepCheck.Grouped, Ordered;
    hide DepCheck.AllFinished, GroupIsRadio, RightAt;
    FitFacts(k.sys, k.cells);
    GraphIsGrouped(k.sys);
    GroupedAlike(g, GraphOf(k.sys));
    DepEdges.SelectsMakeNoCycle(g, GraphOf(k.sys));
    var checker;
    errors, checker := DepCheck.CheckAll(g, true, symbols);
    if errors == 0 {
      DepEdges.OrderCarriesOver(g, GraphOf(k.sys), symbols, checker.order);
      CheckedIsOrdered(k.sys, symbols, checker.order);
      k.CalcEverything(list, RankIn(k.sys, checker.order));
    }
  }

  /** After such a check the values do not depend on the order in which symbols are calculated. */
  lemma CheckedValuesAreUnique(sys: System, symbols: seq<Symbol>, order: seq<Symbol>, u: Cells, k1: Snapshot,
                               k2: Snapshot)
    requires AllRight(sys, u, k1) && AllRight(sys, u, k2) && TargetsAreMembers(sys)
             && sys.defs.Keys <= DepCheck.SetOf(symbols)
    requires DepCheck.AllFinished(GraphOf(sys), symbols, order) && DepCheck.ChoicesUnnamed(GraphOf(sys))
    ensures k1.cells == k2.cells
  {
    hide RightAt, TargetsAreMembers, DepCheck.AllFinished, DepCheck.ChoicesUnnamed, Ordered;
    FitFacts(sys, u);
    CheckedIsOrdered(sys, symbols, order);
    ValuesAreUnique(sys, RankIn(sys, order), u, k1, k2);
  }
}
