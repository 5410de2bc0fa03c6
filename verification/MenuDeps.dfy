/**
 * The conditions that menu finalisation gives to the nodes of the menu tree
 * (the expression part of menu_finalize, scripts/config/menu.c).
 */
module MenuDeps {
  import opened Basics
  import opened Exprs
  import opened ExprEq
  import opened ExprTransform
  import opened ExprDups
  import opened MenuLinks

  /**
   * A node as parsed: its symbol if it has one, the type of this symbol as far as it is `known`
   * when the parent of the node is finalised, which of its properties is the
   * prompt, whether the prompt has a text, its own dependency, and the own
   * conditions of the properties that belong to it. A choice without a type statement is
   * of unknown type then: it takes the type of a member in its own finalisation.
   */
  datatype Node = Node(sym: Option<Symbol>, known: SymbolType, prompt: Option<nat>, titled: bool, dep: Option<Expr>,
                       conds: seq<Option<Expr>>)

  datatype Source = Source(nodes: map<int, Node>, isChoice: Symbol -> bool, modules: Symbol)
  {
    predicate IsChoiceNode(id: int) {
      id in nodes && nodes[id].sym.Some? && isChoice(nodes[id].sym.value)
    }
  }

  /** A symbol that cannot be m. */
  predicate NeverMod(node: Node) {
    node.sym.Some? && node.sym.value.Kind() != TristateType
  }

  /** A symbol not known to be tristate: tests for n in the conditions of its properties are dropped. */
  predicate LosesTests(node: Node) {
    node.sym.Some? && node.known != TristateType
  }

  /** The current conditions of a node: those of the node itself and of its properties. */
  datatype Cond = Cond(dep: Option<Expr>, conds: seq<Option<Expr>>)

  predicate PlainNode(node: Node) {
    PlainDep(node.dep) && forall i :: 0 <= i < |node.conds| ==> PlainDep(node.conds[i])
  }

  /** No condition in the whole source tests a tristate symbol against a constant that reads as 0, 1 or 2. */
  ghost predicate PlainSource(src: Source) {
    forall id :: id in src.nodes ==> PlainNode(src.nodes[id])
  }

  /** The valuations for which something is said about the value of conditions. */
  ghost predicate Meant(src: Source, v: Valuation) { PlainSource(src) && WellFormed(v) }

  ghost predicate Formed(src: Source, c: Cond) {
    NnfDep(c.dep) && (PlainSource(src) ==> PlainDep(c.dep))
  }

  /** The value of a condition as written, the constant m standing for m && MODULES. */
  function Written(src: Source, e: Option<Expr>, v: Valuation): Tristate {
    EvalDep(e, WithModules(v, src.modules))
  }

  /**
   * The conditions `c` are those of `node` below a dependency worth `above`, with
   * `choice` the value of an added test of the enclosing choice: a property of a
   * symbol not known to be tristate has lost its tests for n: it may be m instead of y,
   * but is n in the same cases.
   */
  ghost predicate CondIs(src: Source, node: Node, c: Cond, v: Valuation, above: Tristate, choice: Tristate) {
    var dep := TriAnd(TriAnd(above, Written(src, node.dep, v)), choice);
    && EvalDep(c.dep, v) == dep
    && |c.conds| == |node.conds|
    && forall i :: 0 <= i < |c.conds| ==>
         && PropertyIs(LosesTests(node), EvalDep(c.conds[i], v), TriAnd(dep, Written(src, node.conds[i], v)))
         && (LosesTests(node) ==> UntestedDep(c.conds[i]))
  }

  predicate PropertyIs(losesTests: bool, value: Tristate, full: Tristate) {
    value <= full && (value == NO <==> full == NO) && (!losesTests ==> value == full)
  }

  lemma AllocAndForms(a: Option<Expr>, b: Option<Expr>)
    ensures PlainDep(a) && PlainDep(b) ==> PlainDep(AllocAnd(a, b))
    ensures NnfDep(a) && NnfDep(b) ==> NnfDep(AllocAnd(a, b))
  {
  }

  lemma NormalisedWritten(src: Source, e: Option<Expr>)
    ensures var r := TransformDep(RewriteMDep(e, src.modules));
            && NnfDep(r) && (PlainDep(e) ==> PlainDep(r))
            && forall v :: WellFormed(v) ==> EvalDep(r, v) == Written(src, e, v)
  {
    if e.Some? {
      var m := RewriteM(e.value, src.modules);
      TransformNormalises(m);
      NormalFormIsNnf(Transform(m));
      RewriteMReadsModules(e.value, src.modules, AllTristatesAt(NO));
      if PlainDep(e) { TransformKeepsPlainTests(m); }
      forall v | WellFormed(v) ensures Eval(Transform(m), v) == Written(src, e, v) {
        RewriteMReadsModules(e.value, src.modules, v);
        TransformKeepsValue(m, v);
      }
    }
  }

  /** Rewriting, normalising and conjoining one condition with the dependency above it. */
  method Conjoin(src: Source, above: Option<Expr>, own: Option<Expr>) returns (r: Option<Expr>)
    requires NnfDep(above)
    ensures NnfDep(r)
    ensures PlainDep(above) && PlainDep(own) ==> PlainDep(r)
    ensures PlainDep(above) && PlainDep(own) ==>
      forall v :: WellFormed(v) ==> EvalDep(r, v) == TriAnd(EvalDep(above, v), Written(src, own, v))
  {
    NormalisedWritten(src, own);
    var normal := TransformDep(RewriteMDep(own, src.modules));
    AllocAndForms(above, normal);
    r := EliminateDupsDep(AllocAnd(above, normal));
  }

  lemma PropertiesMakeCond(src: Source, node: Node, c: Cond, v: Valuation, above: Tristate)
    requires PropertiesDone(src, node, c.dep, c.conds, v) && |c.conds| == |node.conds|
    requires EvalDep(c.dep, v) == TriAnd(above, Written(src, node.dep, v))
    ensures CondIs(src, node, c, v, above, YES)
  {
  }

  /** The condition of one property below the dependency `base` of its node. */
  method PropagateProperty(src: Source, losesTests: bool, base: Option<Expr>,
                           own: Option<Expr>) returns (cond: Option<Expr>)
    requires NnfDep(base)
    ensures PlainDep(base) && PlainDep(own) ==> forall v :: WellFormed(v) ==>
      PropertyIs(losesTests, EvalDep(cond, v), TriAnd(EvalDep(base, v), Written(src, own, v)))
    ensures losesTests ==> UntestedDep(cond)
  {
    cond := Conjoin(src, base, own);
    if losesTests {
      forall v | WellFormed(v)
        ensures PropertyIs(losesTests, EvalDep(TransBoolDep(cond), v), EvalDep(cond, v))
      {
        if cond.Some? { TransBoolKeepsNo(cond.value, v); }
      }
      if cond.Some? { TransBoolDropsTests(cond.value); }
      cond := TransBoolDep(cond);
    }
  }

  /** The first conditions `conds` are those of `node` below the dependency `base`. */
  ghost predicate PropertiesDone(src: Source, node: Node, base: Option<Expr>, conds: seq<Option<Expr>>, v: Valuation) {
    && |conds| <= |node.conds|
    && forall i :: 0 <= i < |conds| ==>
         && PropertyIs(LosesTests(node), EvalDep(conds[i], v), TriAnd(EvalDep(base, v), Written(src, node.conds[i], v)))
         && (LosesTests(node) ==> UntestedDep(conds[i]))
  }

  /** One round of the propagation loop: the conditions of a child below the dependency `above`. */
  method Propagate(src: Source, node: Node, above: Option<Expr>) returns (c: Cond)
    requires NnfDep(above)
    ensures NnfDep(c.dep) && |c.conds| == |node.conds|
    ensures PlainDep(above) && PlainNode(node) ==> PlainDep(c.dep)
    ensures PlainDep(above) && PlainNode(node) ==>
      forall v :: WellFormed(v) ==> CondIs(src, node, c, v, EvalDep(above, v), YES)
  {
    var base := Conjoin(src, above, node.dep);
    var conds := [];
    while |conds| < |node.conds|
      invariant |conds| <= |node.conds|
      invariant PlainDep(base) && PlainNode(node) ==>
        forall v :: WellFormed(v) ==> PropertiesDone(src, node, base, conds, v)
    {
      var loses := node.sym.Some? && node.known != TristateType;
      var cond := PropagateProperty(src, loses, base, node.conds[|conds|]);
      forall v | PlainDep(base) && PlainNode(node) && WellFormed(v)
        ensures PropertiesDone(src, node, base, conds + [cond], v)
      {
        assert PropertiesDone(src, node, base, conds, v);
      }
      conds := conds + [cond];
    }
    c := Cond(base, conds);
    forall v | PlainDep(above) && PlainNode(node) && WellFormed(v)
      ensures CondIs(src, node, c, v, EvalDep(above, v), YES)
    {
      PropertiesMakeCond(src, node, c, v, EvalDep(above, v));
    }
  }

  /** Some test `A != n` that is dropped is of a symbol at m. */
  predicate DropsTestAtMod(e: Expr, v: Valuation) {
    match e
    case Sym(_) => false
    case Cmp(rel, l, r) => rel == Unequal && l.Kind() == TristateType && r == SYM_NO && v.tri(l) == MOD
    case Not(x) => DropsTestAtMod(x, v)
    case Bin(_, l, r) => DropsTestAtMod(l, v) || DropsTestAtMod(r, v)
  }

  /** Where no dropped test is of a symbol at m, dropping tests changes nothing. */
  lemma {:induction false} DroppedTestsOnlyAtMod(e: Expr, v: Valuation)
    requires WellFormed(v) && !DropsTestAtMod(e, v)
    ensures Eval(TransBool(e), v) == Eval(e, v)
  {
    hide Compare;
    match e
    case Sym(_) =>
    case Cmp(rel, l, r) =>
      if l.Kind() == TristateType && r == SYM_NO { CompareWithTristate(l, r, v); }
    case Not(x) => DroppedTestsOnlyAtMod(x, v);
    case Bin(_, l, r) =>
      DroppedTestsOnlyAtMod(l, v);
      DroppedTestsOnlyAtMod(r, v);
  }

  lemma OnePrompt(e: Option<Expr>, v: Valuation)
    ensures PromptVisibility([e], TristateType, YES, v) == EvalDep(e, v)
  {
    hide EvalDep;
    assert [e][..0] == [];
    assert AnyPrompt([e], v) == TriOr(AnyPrompt([e][..0], v), EvalDep(e, v));
  }

  lemma TristateAtMod(s: Symbol) returns (v: Valuation)
    requires s.Kind() == TristateType
    ensures WellFormed(v) && v.tri(s) == MOD
  {
    v := AllTristatesAt(MOD);
  }

  /**
   * The prompt of a choice without a type statement loses its test `s != n`. If the choice becomes
   * tristate, at m of `s` its prompt is worth m and not y, and the choice is visible at m only.
   */
  lemma UntypedChoicePrompt(s: Symbol, choice: Symbol) returns (v: Valuation)
    requires s.Kind() == TristateType && choice.Kind() == TristateType
    ensures var own := Some(Cmp(Unequal, s, SYM_NO));
            var node := Node(Some(choice), UnknownType, Some(0), true, None, [own]);
            var final := TransBoolDep(AllocAnd(None, TransformDep(own)));
            && LosesTests(node) && !NeverMod(node) && WellFormed(v)
            && PromptVisibility([own], TristateType, YES, v) == YES
            && PromptVisibility([final], TristateType, YES, v) == MOD
  {
    hide WellFormed, PromptVisibility, Compare;
    v := TristateAtMod(s);
    var own := Some(Cmp(Unequal, s, SYM_NO));
    var final := TransBoolDep(AllocAnd(None, TransformDep(own)));
    assert final == Some(Sym(s));
    CompareWithTristate(s, SYM_NO, v);
    assert EvalDep(own, v) == YES && EvalDep(final, v) == MOD;
    OnePrompt(own, v);
    OnePrompt(final, v);
  }

  /** The test of the choice that a boolean member of a tristate choice is given in addition. */
  function WithChoice(c: Cond, choice: Symbol): Cond {
    var test := Some(Cmp(Equal, choice, SYM_YES));
    Cond(AllocAnd(test, c.dep), seq(|c.conds|, i requires 0 <= i < |c.conds| => AllocAnd(test, c.conds[i])))
  }

  function ChoiceIsYes(choice: Symbol, v: Valuation): Tristate { TriOf(v.tri(choice) == YES) }

  lemma WithChoiceConjoins(src: Source, node: Node, c: Cond, v: Valuation, above: Tristate, choice: Symbol)
    requires WellFormed(v) && choice.Kind() == TristateType && CondIs(src, node, c, v, above, YES)
    ensures CondIs(src, node, WithChoice(c, choice), v, above, ChoiceIsYes(choice, v))
  {
    CompareWithTristate(choice, SYM_YES, v);
    var test := Some(Cmp(Equal, choice, SYM_YES));
    var t := ChoiceIsYes(choice, v);
    assert EvalDep(test, v) == t;
    var dep := TriAnd(above, Written(src, node.dep, v));
    forall i | 0 <= i < |c.conds|
      ensures PropertyIs(LosesTests(node), EvalDep(WithChoice(c, choice).conds[i], v),
                         TriAnd(TriAnd(dep, t), Written(src, node.conds[i], v)))
      ensures LosesTests(node) ==> UntestedDep(WithChoice(c, choice).conds[i])
    {
      assert WithChoice(c, choice).conds[i] == AllocAnd(test, c.conds[i]);
      ConjoinProperty(LosesTests(node), EvalDep(c.conds[i], v), dep, Written(src, node.conds[i], v), t);
    }
  }

  lemma ConjoinProperty(losesTests: bool, value: Tristate, dep: Tristate, own: Tristate, t: Tristate)
    requires PropertyIs(losesTests, value, TriAnd(TriAnd(dep, YES), own)) && t != MOD
    ensures PropertyIs(losesTests, TriAnd(t, value), TriAnd(TriAnd(dep, t), own))
  {
  }

  // ----- the conditions of all nodes -----

  /**
   * The conditions of all nodes, the choice whose test was added to a node, and the conditions that
   * nodes got from above.
   */
  datatype State = State(conds: map<int, Cond>, choiceOf: map<int, Symbol>, given: map<int, Cond>)

  /** What the children of `id` have above them. */
  function ValueAbove(src: Source, id: int, dep: Tristate, v: Valuation): Tristate {
    if src.IsChoiceNode(id) then v.tri(src.nodes[id].sym.value) else dep
  }

  function ChoiceValue(s: State, id: int, v: Valuation): Tristate {
    if id in s.choiceOf then ChoiceIsYes(s.choiceOf[id], v) else YES
  }

  /**
   * Every node of the original tree `f` has the conditions that the original
   * structure prescribes, `above` being the value above the topmost nodes.
   */
  ghost predicate DepsDone(src: Source, s: State, v: Valuation, f: Forest, above: Tristate) {
    match f
    case Nil => true
    case Tree(id, kids, rest) =>
      && id in src.nodes && id in s.conds
      && CondIs(src, src.nodes[id], s.conds[id], v, above, ChoiceValue(s, id, v))
      && DepsDone(src, s, v, kids,
                  ValueAbove(src, id, TriAnd(above, Written(src, src.nodes[id].dep, v)), v))
      && DepsDone(src, s, v, rest, above)
  }

  /** The same for the topmost nodes only. */
  ghost predicate TopsDone(src: Source, s: State, v: Valuation, f: Forest, above: Tristate) {
    match f
    case Nil => true
    case Tree(id, _, rest) =>
      && id in src.nodes && id in s.conds
      && CondIs(src, src.nodes[id], s.conds[id], v, above, YES)
      && TopsDone(src, s, v, rest, above)
  }

  /** The same for what is below the topmost nodes, given their own conditions in the state `s0`. */
  ghost predicate BelowDone(src: Source, s0: State, s: State, v: Valuation, f: Forest) {
    match f
    case Nil => true
    case Tree(id, kids, rest) =>
      && id in s0.conds
      && DepsDone(src, s, v, kids, ValueAbove(src, id, EvalDep(s0.conds[id].dep, v), v))
      && BelowDone(src, s0, s, v, rest)
  }

  /** A node with the conditions it was parsed with. */
  ghost predicate FreshAt(src: Source, s: State, id: int) {
    && id in src.nodes && id in s.conds && id !in s.choiceOf && id !in s.given
    && s.conds[id] == Cond(src.nodes[id].dep, src.nodes[id].conds)
  }

  ghost predicate Fresh(src: Source, s: State, f: Forest) {
    forall id :: id in Ids(f) ==> FreshAt(src, s, id)
  }

  /** A node that has its conditions from above. */
  ghost predicate TopReady(src: Source, s: State, id: int) {
    && id in src.nodes && id in s.conds && id !in s.choiceOf && Formed(src, s.conds[id])
    && id in s.given && s.given[id] == s.conds[id]
  }

  /** A chain whose topmost nodes have their conditions from above and whose other nodes are fresh. */
  ghost predicate ReadyConds(src: Source, s: State, f: Forest) {
    match f
    case Nil => true
    case Tree(id, kids, rest) => TopReady(src, s, id) && Fresh(src, s, kids) && ReadyConds(src, s, rest)
  }

  ghost predicate SameCond(s0: State, s: State, id: int) {
    && (id in s0.conds <==> id in s.conds) && (id in s0.conds ==> s.conds[id] == s0.conds[id])
    && (id in s0.choiceOf <==> id in s.choiceOf) && (id in s0.choiceOf ==> s.choiceOf[id] == s0.choiceOf[id])
    && SameGiven(s0, s, id)
  }

  ghost predicate SameGiven(s0: State, s: State, id: int) {
    (id in s0.given <==> id in s.given) && (id in s0.given ==> s.given[id] == s0.given[id])
  }

  /** What nodes were given once stays so. */
  ghost predicate Extends(g0: map<int, Cond>, g: map<int, Cond>) {
    forall id :: id in g0 ==> id in g && g[id] == g0[id]
  }

  /**
   * Where nodes were given conditions from above they have these, and in addition the test of their
   * choice if they got one.
   */
  ghost predicate GivenAndTest(s: State) {
    forall id :: id in s.given ==>
      && id in s.conds
      && s.conds[id] == if id in s.choiceOf then WithChoice(s.given[id], s.choiceOf[id]) else s.given[id]
  }

  /** The conditions of a node are unchanged, or have got the test of a choice added. */
  ghost predicate CondStep(src: Source, s0: State, s: State, id: int) {
    || SameCond(s0, s, id)
    || (&& id in src.nodes && NeverMod(src.nodes[id]) && SameGiven(s0, s, id)
        && id in s0.conds && id in s.conds && id !in s0.choiceOf && id in s.choiceOf
        && s.choiceOf[id].Kind() == TristateType
        && s.conds[id] == WithChoice(s0.conds[id], s.choiceOf[id]))
  }

  lemma CondStepKeeps(src: Source, s0: State, s: State, v: Valuation, id: int, above: Tristate)
    requires WellFormed(v) && CondStep(src, s0, s, id) && id in src.nodes && id in s0.conds
    requires CondIs(src, src.nodes[id], s0.conds[id], v, above, ChoiceValue(s0, id, v))
    ensures id in s.conds && CondIs(src, src.nodes[id], s.conds[id], v, above, ChoiceValue(s, id, v))
  {
    if !SameCond(s0, s, id) {
      WithChoiceConjoins(src, src.nodes[id], s0.conds[id], v, above, s.choiceOf[id]);
    }
  }

  lemma {:induction false} DepsDoneStep(src: Source, s0: State, s: State, v: Valuation, f: Forest, above: Tristate)
    requires WellFormed(v) && DepsDone(src, s0, v, f, above)
    requires forall id :: id in Ids(f) ==> CondStep(src, s0, s, id)
    ensures DepsDone(src, s, v, f, above)
    decreases f
  {
    if f.Tree? {
      CondStepKeeps(src, s0, s, v, f.id, above);
      DepsDoneStep(src, s0, s, v, f.kids,
                   ValueAbove(src, f.id, TriAnd(above, Written(src, src.nodes[f.id].dep, v)), v));
      DepsDoneStep(src, s0, s, v, f.rest, above);
    }
  }

  /** BelowDone reads `s0` at the topmost nodes and `s` below them. */
  lemma {:induction false} BelowDoneStep(src: Source, s0: State, s1: State, s0': State, s1': State, v: Valuation,
                                         f: Forest)
    requires WellFormed(v) && BelowDone(src, s0, s1, v, f)
    requires forall id :: id in Ids(f) ==> SameCond(s0, s0', id) && CondStep(src, s1, s1', id)
    ensures BelowDone(src, s0', s1', v, f)
    decreases f
  {
    if f.Tree? {
      assert f.id in Ids(f);
      DepsDoneStep(src, s1, s1', v, f.kids, ValueAbove(src, f.id, EvalDep(s0.conds[f.id].dep, v), v));
      BelowDoneStep(src, s0, s1, s0', s1', v, f.rest);
    }
  }

  lemma {:induction false} BelowDoneAppend(src: Source, s0: State, s: State, v: Valuation, f: Forest, g: Forest)
    requires BelowDone(src, s0, s, v, f) && BelowDone(src, s0, s, v, g)
    ensures BelowDone(src, s0, s, v, Append(f, g))
    decreases f
  {
    if f.Tree? { BelowDoneAppend(src, s0, s, v, f.rest, g); }
  }

  lemma {:induction false} ReadyCondsFrame(src: Source, s0: State, s: State, f: Forest)
    requires ReadyConds(src, s0, f)
    requires forall id :: id in Ids(f) ==> SameCond(s0, s, id)
    ensures ReadyConds(src, s, f)
  {
    if f.Tree? {
      assert f.id in Ids(f);
      ReadyCondsFrame(src, s0, s, f.rest);
    }
  }

  lemma {:induction false} ReadyCondsAppend(src: Source, s: State, f: Forest, g: Forest)
    requires ReadyConds(src, s, Append(f, g))
    ensures ReadyConds(src, s, g)
  {
    if f.Tree? { ReadyCondsAppend(src, s, f.rest, g); }
  }

  lemma {:induction false} ReadyByNode(src: Source, s: State, f: Forest)
    requires Unique(f)
    requires forall id :: id in Tops(f) ==> TopReady(src, s, id)
    requires forall id :: id in Ids(f) && id !in Tops(f) ==> FreshAt(src, s, id)
    ensures ReadyConds(src, s, f)
  {
    if f.Tree? {
      TopsAreIds(f.rest);
      assert f.id in Tops(f);
      ReadyByNode(src, s, f.rest);
    }
  }

  lemma {:induction false} TopsDoneByNode(src: Source, s: State, v: Valuation, f: Forest, above: Tristate)
    requires forall id :: id in Tops(f) ==>
      TopReady(src, s, id) && CondIs(src, src.nodes[id], s.conds[id], v, above, YES)
    ensures TopsDone(src, s, v, f, above)
  {
    if f.Tree? {
      assert f.id in Tops(f);
      TopsDoneByNode(src, s, v, f.rest, above);
    }
  }

  /** The chain `f` became `g`, and from `log0` to `log` exactly its nodes were finalised, in document order. */
  ghost predicate Reordered(log0: seq<int>, log: seq<int>, f: Forest, g: Forest) {
    && Unique(g) && Ids(g) == Ids(f) && Preorder(g) == Preorder(f)
    && log == log0 + Preorder(f)
  }

  /** From `s0` to `s` what is below the topmost nodes of `f` got its conditions. */
  ghost predicate Conditioned(src: Source, s0: State, s: State, f: Forest) {
    && (forall id :: id !in Ids(f) ==> SameCond(s0, s, id))
    && (forall id :: id in Tops(f) ==> CondStep(src, s0, s, id))
    && Extends(s0.given, s.given) && Ids(f) - Tops(f) <= s.given.Keys
    && forall v :: Meant(src, v) ==> BelowDone(src, s0, s, v, f)
  }

  lemma CondStepTransitive(src: Source, s0: State, s1: State, s2: State, id: int)
    requires CondStep(src, s0, s1, id) && CondStep(src, s1, s2, id)
    ensures CondStep(src, s0, s2, id)
    ensures SameCond(s0, s1, id) && SameCond(s1, s2, id) ==> SameCond(s0, s2, id)
  {
  }

  lemma CondsOfBoth(src: Source, s0: State, s1: State, s2: State,
                    ids1: set<int>, ids2: set<int>, tops1: set<int>, tops2: set<int>)
    requires tops1 <= ids1 && tops2 <= ids2 && ids1 !! ids2
    requires forall id :: id !in ids1 ==> SameCond(s0, s1, id)
    requires forall id :: id !in ids2 ==> SameCond(s1, s2, id)
    requires forall id :: id in tops1 ==> CondStep(src, s0, s1, id)
    requires forall id :: id in tops2 ==> CondStep(src, s1, s2, id)
    ensures forall id :: id !in ids1 + ids2 ==> SameCond(s0, s2, id)
    ensures forall id :: id in tops1 + tops2 ==> CondStep(src, s0, s2, id)
  {
    forall id | id !in ids1 + ids2 ensures SameCond(s0, s2, id) {
      CondStepTransitive(src, s0, s1, s2, id);
    }
    forall id | id in tops1 + tops2 ensures CondStep(src, s0, s2, id) {
      assert if id in tops1 then SameCond(s1, s2, id) else SameCond(s0, s1, id);
      CondStepTransitive(src, s0, s1, s2, id);
    }
  }

  lemma ReorderedAppend(log0: seq<int>, log1: seq<int>, log2: seq<int>, f1: Forest, g1: Forest, f2: Forest, g2: Forest)
    requires Reordered(log0, log1, f1, g1) && Reordered(log1, log2, f2, g2) && Ids(f1) !! Ids(f2)
    ensures Reordered(log0, log2, Append(f1, f2), Append(g1, g2))
  {
    AppendFacts(f1, f2);
    AppendFacts(g1, g2);
    ConcatAssociative(log0, Preorder(f1), Preorder(f2));
  }

  lemma GivenOfBoth(g1: map<int, Cond>, g2: map<int, Cond>, f1: Forest, f2: Forest)
    requires Ids(f1) - Tops(f1) <= g1.Keys && Ids(f2) - Tops(f2) <= g2.Keys && Extends(g1, g2)
    ensures Ids(Append(f1, f2)) - Tops(Append(f1, f2)) <= g2.Keys
  {
    AppendFacts(f1, f2);
    forall id | id in Ids(f1) - Tops(f1) ensures id in g2 {
      assert id in g1.Keys && id in g1;
    }
  }

  lemma ConditionedAppend(src: Source, s0: State, s1: State, s2: State, f1: Forest, f2: Forest)
    requires Conditioned(src, s0, s1, f1) && Conditioned(src, s1, s2, f2) && Ids(f1) !! Ids(f2)
    ensures Conditioned(src, s0, s2, Append(f1, f2))
  {
    hide BelowDone, CondStep, SameCond, Ids, Tops, Append, Preorder, Meant;
    AppendFacts(f1, f2);
    TopsAreIds(f1);
    TopsAreIds(f2);
    GivenOfBoth(s1.given, s2.given, f1, f2);
    CondsOfBoth(src, s0, s1, s2, Ids(f1), Ids(f2), Tops(f1), Tops(f2));
    forall v | Meant(src, v) ensures BelowDone(src, s0, s2, v, Append(f1, f2)) {
      MeantIsWellFormed(src, v);
      BelowDoneOfBoth(src, s0, s1, s2, f1, f2, v);
    }
  }

  lemma MeantIsWellFormed(src: Source, v: Valuation)
    requires Meant(src, v)
    ensures WellFormed(v)
  {
  }

  lemma BelowDoneOfBoth(src: Source, s0: State, s1: State, s2: State, f1: Forest, f2: Forest, v: Valuation)
    requires WellFormed(v) && BelowDone(src, s0, s1, v, f1) && BelowDone(src, s1, s2, v, f2)
    requires forall id :: id in Ids(f1) ==> SameCond(s1, s2, id)
    requires forall id :: id in Ids(f2) ==> SameCond(s0, s1, id)
    ensures BelowDone(src, s0, s2, v, Append(f1, f2))
  {
    BelowDoneStep(src, s0, s1, s0, s2, v, f1);
    forall id | id in Ids(f2) ensures SameCond(s1, s0, id) {
      assert SameCond(s0, s1, id);
    }
    BelowDoneStep(src, s1, s2, s0, s2, v, f2);
    BelowDoneAppend(src, s0, s2, v, f1, f2);
  }

  /** Children with conditions from above, then finalised, are done. */
  lemma {:induction false} TopsAndBelow(src: Source, s0: State, s: State, v: Valuation, f: Forest, above: Tristate)
    requires WellFormed(v) && TopsDone(src, s0, v, f, above) && BelowDone(src, s0, s, v, f)
    requires forall id :: id in Tops(f) ==> CondStep(src, s0, s, id) && id !in s0.choiceOf
    ensures DepsDone(src, s, v, f, above)
    decreases f
  {
    if f.Tree? {
      CondStepKeeps(src, s0, s, v, f.id, above);
      TopsAndBelow(src, s0, s, v, f.rest, above);
    }
  }
}
