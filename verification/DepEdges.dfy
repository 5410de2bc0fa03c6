/** What counts as a dependency in the search for recursive dependencies (scripts/config/symbol.c). */
module DepEdges {
  import opened Basics
  import opened Exprs
  import opened ExprTransform
  import opened DepCheck

  predicate Mentions(e: Option<Expr>, t: Symbol) { e.Some? && ContainsSymbol(e.value, t) }

  lemma {:induction false} RefsAreMentions(e: Expr, t: Symbol)
    ensures t in Refs(e) <==> ContainsSymbol(e, t)
  {
    match e
    case Not(x) => RefsAreMentions(x, t);
    case Bin(_, l, r) =>
      RefsAreMentions(l, t);
      RefsAreMentions(r, t);
    case _ =>
  }

  lemma DepRefsAreMentions(e: Option<Expr>, t: Symbol)
    ensures t in DepRefs(e) <==> Mentions(e, t)
  {
    if e.Some? { RefsAreMentions(e.value, t); }
  }

  /** A prompt, a default or a range, other than a select, an imply or the list of a choice. */
  predicate Counts(p: Property) { p.kind == DefaultProp || p.kind == OtherProp }

  /** The symbol occurs in the condition of the property, or in the default value it gives to a symbol. */
  predicate PropMentions(p: Property, choice: bool, t: Symbol) {
    Counts(p) && (Mentions(p.visible, t) || (p.kind == DefaultProp && !choice && Mentions(p.expr, t)))
  }

  /** `t` occurs in one of the dependencies of `s`, or in one of the properties that count. */
  predicate DependsOn(g: Graph, s: Symbol, t: Symbol) {
    && s in g.deps
    && var d := g.deps[s];
       || Mentions(d.dir, t) || Mentions(d.rev, t) || Mentions(d.implied, t)
       || exists i :: 0 <= i < |d.props| && PropMentions(d.props[i], s in g.groups, t)
  }

  lemma PropRefsAre(p: Property, choice: bool, t: Symbol)
    ensures t in PropRefs(p, choice) <==> PropMentions(p, choice, t)
  {
    hide DepRefs, Mentions;
    DepRefsAreMentions(p.visible, t);
    DepRefsAreMentions(p.expr, t);
  }

  lemma {:induction false} PropsRefsAre(props: seq<Property>, choice: bool, t: Symbol)
    ensures t in PropsRefs(props, choice) <==> exists i :: 0 <= i < |props| && PropMentions(props[i], choice, t)
  {
    hide PropRefs, PropMentions;
    if props != [] {
      var n := |props| - 1;
      PropsRefsAre(props[..n], choice, t);
      PropRefsAre(props[n], choice, t);
      if i :| 0 <= i < |props| && PropMentions(props[i], choice, t) {
        assert i == n || PropMentions(props[..n][i], choice, t);
      }
      if i :| 0 <= i < n && PropMentions(props[..n][i], choice, t) {
        assert PropMentions(props[i], choice, t);
      }
    }
  }

  /** What the search follows from a symbol is what occurs in its dependencies. */
  lemma EdgeIsDependency(g: Graph, s: Symbol, t: Symbol)
    ensures Edge(g, s, t) <==> DependsOn(g, s, t)
  {
    hide DepRefs, Mentions, PropMentions, PropsRefs;
    var d := DepsOf(g, s);
    DepRefsAreMentions(d.dir, t);
    DepRefsAreMentions(d.rev, t);
    DepRefsAreMentions(d.implied, t);
    PropsRefsAre(d.props, s in g.groups, t);
    NoMention(t);
  }

  lemma NoMention(t: Symbol)
    ensures !Mentions(None, t)
  {
  }

  // ----- selects -----

  /** The properties that count, in their order. */
  function Counted(props: seq<Property>): seq<Property> {
    if props == [] then []
    else Counted(props[..|props| - 1]) + if Counts(props[|props| - 1]) then [props[|props| - 1]] else []
  }

  lemma {:induction false} CountedMentions(props: seq<Property>, choice: bool, t: Symbol)
    ensures (exists i :: 0 <= i < |props| && PropMentions(props[i], choice, t))
            <==> exists i :: 0 <= i < |Counted(props)| && PropMentions(Counted(props)[i], choice, t)
  {
    hide Mentions;
    if props != [] {
      var n := |props| - 1;
      var front, c, last := Counted(props[..n]), Counted(props), props[n];
      CountedMentions(props[..n], choice, t);
      if i :| 0 <= i < |props| && PropMentions(props[i], choice, t) {
        if i < n {
          assert PropMentions(props[..n][i], choice, t);
          var j :| 0 <= j < |front| && PropMentions(front[j], choice, t);
          assert PropMentions(c[j], choice, t);
        } else {
          assert PropMentions(c[|front|], choice, t);
        }
      }
      if i :| 0 <= i < |c| && PropMentions(c[i], choice, t) {
        if i < |front| {
          assert PropMentions(front[i], choice, t);
          var j :| 0 <= j < n && PropMentions(props[..n][j], choice, t);
          assert PropMentions(props[j], choice, t);
        } else {
          assert PropMentions(props[n], choice, t);
        }
      }
    }
  }

  /** The same dependencies, and the same properties up to selects, implies and the lists of choices. */
  ghost predicate SameButSelects(g1: Graph, g2: Graph) {
    && g1.groups == g2.groups && g1.choiceOf == g2.choiceOf && g1.deps.Keys == g2.deps.Keys
    && forall s :: s in g1.deps ==>
         && g1.deps[s].dir == g2.deps[s].dir && g1.deps[s].rev == g2.deps[s].rev
         && g1.deps[s].implied == g2.deps[s].implied && Counted(g1.deps[s].props) == Counted(g2.deps[s].props)
  }

  lemma SelectsAreNoEdges(g1: Graph, g2: Graph, s: Symbol, t: Symbol)
    requires SameButSelects(g1, g2)
    ensures Edge(g1, s, t) <==> Edge(g2, s, t)
  {
    hide Mentions, PropMentions, Edge, Counted;
    EdgeIsDependency(g1, s, t);
    EdgeIsDependency(g2, s, t);
    if s in g1.deps {
      assert s in g2.deps;
      CountedMentions(g1.deps[s].props, s in g1.groups, t);
      CountedMentions(g2.deps[s].props, s in g2.groups, t);
    }
  }

  ghost predicate SameEdges(g1: Graph, g2: Graph) {
    g1.groups == g2.groups && g1.choiceOf == g2.choiceOf && forall s, t :: Edge(g1, s, t) <==> Edge(g2, s, t)
  }

  lemma LinksCarryOver(g1: Graph, g2: Graph, a: Symbol, b: Symbol)
    requires SameEdges(g1, g2)
    ensures Link(g1, a, b) ==> Link(g2, a, b)
    ensures FirmLink(g1, a, b) ==> FirmLink(g2, a, b)
  {
    hide Edge;
    if Link(g1, a, b) {
      var s, t :| Edge(g1, s, t) && !Own(g1, s, t) && Rep(g1, s) == a && Rep(g1, t) == b;
      assert Edge(g2, s, t) && !Own(g2, s, t) && Rep(g2, s) == a && Rep(g2, t) == b;
    }
    if FirmLink(g1, a, b) {
      var s, t :| Edge(g1, s, t) && t !in g1.groups && Rep(g1, s) == a && Rep(g1, t) == b;
      assert Edge(g2, s, t) && t !in g2.groups && Rep(g2, s) == a && Rep(g2, t) == b;
    }
  }

  lemma CyclesCarryOver(g1: Graph, g2: Graph)
    requires SameEdges(g1, g2)
    ensures HasCycle(g1) ==> HasCycle(g2)
    ensures HasFirmCycle(g1) ==> HasFirmCycle(g2)
  {
    hide Edge, Link, FirmLink;
    forall a, b ensures (Link(g1, a, b) ==> Link(g2, a, b)) && (FirmLink(g1, a, b) ==> FirmLink(g2, a, b)) {
      LinksCarryOver(g1, g2, a, b);
    }
    if HasCycle(g1) {
      var p :| IsCycle(g1, p);
      assert IsCycle(g2, p);
    }
    if HasFirmCycle(g1) {
      var p :| IsCycle(g1, p) && IsFirm(g1, p);
      assert IsCycle(g2, p) && IsFirm(g2, p);
    }
  }

  /** Selects, implies and the lists of choices make no cycle, and break none. */
  lemma SelectsMakeNoCycle(g1: Graph, g2: Graph)
    requires SameButSelects(g1, g2)
    ensures HasCycle(g1) <==> HasCycle(g2)
    ensures HasFirmCycle(g1) <==> HasFirmCycle(g2)
    ensures ChoicesUnnamed(g1) <==> ChoicesUnnamed(g2)
  {
    hide Edge, HasCycle, HasFirmCycle;
    forall s, t ensures Edge(g1, s, t) <==> Edge(g2, s, t) { SelectsAreNoEdges(g1, g2, s, t); }
    CyclesCarryOver(g1, g2);
    CyclesCarryOver(g2, g1);
  }

  lemma OrderCarriesOver(g1: Graph, g2: Graph, symbols: seq<Symbol>, order: seq<Symbol>)
    requires SameButSelects(g1, g2) && AllFinished(g1, symbols, order)
    ensures AllFinished(g2, symbols, order)
  {
    hide Edge;
    forall s, t ensures Edge(g1, s, t) <==> Edge(g2, s, t) { SelectsAreNoEdges(g1, g2, s, t); }
  }

  /** The check gives both graphs the same answer. */
  method CheckBoth(g1: Graph, g2: Graph, symbols: seq<Symbol>) returns (errors1: nat, errors2: nat)
    requires SameButSelects(g1, g2) && Grouped(g1) && ChoicesUnnamed(g1) && g1.deps.Keys <= SetOf(symbols)
    ensures errors1 > 0 <==> errors2 > 0
  {
    hide HasCycle, HasFirmCycle, ChoicesUnnamed, AllFinished, Mentioned;
    SelectsMakeNoCycle(g1, g2);
    var c1, c2;
    errors1, c1 := CheckAll(g1, true, symbols);
    errors2, c2 := CheckAll(g2, true, symbols);
  }

  // ----- a select with a condition -----

  ghost predicate Falls(g: Graph, rank: Symbol -> nat) {
    forall a, b :: Link(g, a, b) ==> rank(b) < rank(a)
  }

  lemma {:induction false} PathFalls(g: Graph, rank: Symbol -> nat, p: seq<Symbol>, k: nat)
    requires Falls(g, rank) && IsPath(g, p) && 0 < k < |p|
    ensures rank(p[k]) < rank(p[0])
  {
    hide Link;
    assert Link(g, p[k - 1], p[k - 1 + 1]);
    if k > 1 { PathFalls(g, rank, p, k - 1); }
  }

  lemma FallingHasNoCycle(g: Graph, rank: Symbol -> nat)
    requires Falls(g, rank)
    ensures !HasCycle(g)
  {
    hide Link, Falls;
    if p :| IsCycle(g, p) { PathFalls(g, rank, p, |p| - 1); }
  }

  /** `config A` with `select B if C`, and `config C` with `depends on A`. */
  function SelectUnder(a: Symbol, b: Symbol, c: Symbol): Graph {
    Graph(map[a := Deps(None, None, None, [Property(SelectProp, Some(Sym(c)), Some(Sym(b)))]),
              b := Deps(None, Some(Bin(AndOp, Sym(a), Sym(c))), None, []),
              c := Deps(Some(Sym(a)), None, None, [])],
          map[], map[])
  }

  lemma SelectUnderEdges(a: Symbol, b: Symbol, c: Symbol, s: Symbol, t: Symbol)
    requires a != b && b != c && a != c
    ensures Edge(SelectUnder(a, b, c), s, t) <==> (s == b && (t == a || t == c)) || (s == c && t == a)
  {
    var g := SelectUnder(a, b, c);
    EdgeIsDependency(g, s, t);
    assert ContainsSymbol(Bin(AndOp, Sym(a), Sym(c)), t) <==> t == a || t == c;
    assert s in g.deps ==> s == a || s == b || s == c;
    assert g.deps[b].rev == Some(Bin(AndOp, Sym(a), Sym(c))) && g.deps[c].dir == Some(Sym(a));
    assert !PropMentions(g.deps[a].props[0], false, t);
  }

  lemma SelectUnderGroups(a: Symbol, b: Symbol, c: Symbol)
    ensures SelectUnder(a, b, c).choiceOf == map[]
  {
  }

  /** The condition of a select is no dependency of the symbol that selects. */
  lemma SelectUnderItself(a: Symbol, b: Symbol, c: Symbol)
    requires a != b && b != c && a != c
    ensures !HasCycle(SelectUnder(a, b, c))
  {
    hide Edge, SelectUnder;
    var g := SelectUnder(a, b, c);
    SelectUnderGroups(a, b, c);
    var rank := (s: Symbol) => if s == b then 2 else if s == c then 1 else 0;
    forall x, y | Link(g, x, y) ensures rank(y) < rank(x) {
      var s, t :| Edge(g, s, t) && !Own(g, s, t) && Rep(g, s) == x && Rep(g, t) == y;
      SelectUnderEdges(a, b, c, s, t);
    }
    FallingHasNoCycle(g, rank);
  }
}
