/** menu_finalize (scripts/config/menu.c): restructuring the menu tree in place. */
module Menu {
  import opened Basics
  import opened Exprs
  import opened ExprEq
  import opened ExprSame
  import opened ExprTransform
  import opened ExprDups
  import opened MenuLinks
  import opened MenuDeps
  import opened MenuChoices

  // ----- the test for automatic submenus -----

  /** `test` tells whether `e` differs from n. Where nothing can be joined, it asks that of each operand. */
  ghost predicate TestsFor(test: Expr, e: Option<Expr>) {
    && (PlainDep(e) ==> forall v :: WellFormed(v) && ExactAt(e, v) ==> Eval(test, v) == TriOf(EvalDep(e, v) != NO))
    && (e.None? ==> test == Sym(SYM_YES))
    && (e.Some? && NothingToJoin(e.value) ==> test == AsTest(e.value))
  }

  /** `e != n`, simplified. */
  method ExplicitTest(e: Option<Expr>) returns (r: Expr)
    ensures TestsFor(r, e)
  {
    var test := TransCompareDep(e, Unequal, SYM_NO);
    r := EliminateDups(Transform(test));
    if e.Some? && NothingToJoin(e.value) { TransformedTestOf(e.value); }
    if PlainDep(e) {
      TristateConstIsText(SYM_NO);
      if e.Some? { TransCompareKeepsPlainTests(e.value, Unequal, SYM_NO); }
      TransformKeepsPlainTests(test);
      forall v | WellFormed(v) && ExactAt(e, v)
        ensures Eval(r, v) == TriOf(EvalDep(e, v) != NO)
      {
        TransformKeepsValue(test, v);
        if e.Some? { TransCompareIsExact(e.value, Unequal, v); }
      }
    }
  }

  lemma {:induction false} DependsOnlyOnContained(e: Expr, s: Symbol)
    ensures DependsSymbol(e, s) ==> ContainsSymbol(e, s)
  {
    if e.Bin? {
      DependsOnlyOnContained(e.left, s);
      DependsOnlyOnContained(e.right, s);
    }
  }

  /** Whether the item after `s` goes into its submenu; `test` is the explicit test of the prompt of `s`. */
  method BelongsToSubmenu(dep: Option<Expr>, s: Symbol, test: Expr, ghost base: Option<Expr>) returns (b: bool)
    requires TestsFor(test, base)
    ensures b ==> Belongs(dep, s, base)
    ensures Due(dep, s, base) ==> b
  {
    if dep.None? || !ContainsSymbol(dep.value, s) {
      if dep.Some? { DependsOnlyOnContained(dep.value, s); }
      return false;
    }
    if DependsSymbol(dep.value, s) {
      if s.IsLogical() {
        forall v | WellFormed(v) && EvalDep(dep, v) != NO ensures v.tri(s) != NO {
          DependsSymbolIsSound(dep.value, s, v);
        }
      }
      return true;
    }
    var own := ExplicitTest(dep);
    b := EliminateEq(own, test).1 == Sym(SYM_YES);
    if Simplified(dep, base) { SupersetIsCover(dep.value, base, own, test); }
    if b && PlainDep(dep) && PlainDep(base) {
      forall v | WellFormed(v) && ExactAt(dep, v) && ExactAt(base, v) && EvalDep(dep, v) != NO
        ensures EvalDep(base, v) != NO
      {
        SupersetTestIsSound(own, test, v);
      }
    }
  }

  // ----- one step of a walk along a chain -----

  /** A chain waiting to be finalised below the node `q`. */
  ghost predicate Pending(src: Source, links: Links, s: State, q: int, f: Forest) {
    Unique(f) && Parented(links, q, f) && ReadyConds(src, s, f)
  }

  /** Everything a walk changes. */
  datatype Snapshot = Snapshot(links: Links, state: State, log: seq<int>)

  /**
   * A chain that was `orig` followed by `todo` has been finalised up to `cur`:
   * `orig` has become `done`, below `p`, and `todo` is pending below `q`.
   */
  ghost predicate Walked(src: Source, t0: Snapshot, t: Snapshot, first: int, p: int, q: int,
                         orig: Forest, done: Forest, cur: int, todo: Forest)
  {
    && Unique(Append(orig, todo))
    && Chain(t.links, first, done, cur) && Chain(t.links, cur, todo, NULL)
    && Parented(t.links, p, done)
    && Pending(src, t.links, t.state, q, todo)
    && SameOutside(t0.links, t.links, Ids(orig))
    && Reordered(t0.log, t.log, orig, done)
    && Conditioned(src, t0.state, t.state, orig)
  }

  /** What finalising the node `m`, with children `kids` and `moved` adopted from the siblings after it, has done. */
  ghost predicate Finalized(src: Source, t0: Snapshot, t: Snapshot,
                            m: int, kids: Forest, moved: Forest, kids': Forest, rest': Forest)
  {
    && Chain(t.links, m, Tree(m, kids', rest'), NULL)
    && Parented(t.links, m, kids')
    && SameOutside(t0.links, t.links, Ids(Tree(m, kids, moved)))
    && m in t0.links.parent && m in t.links.parent && t.links.parent[m] == t0.links.parent[m]
    && Reordered(t0.log, t.log, Tree(m, kids, moved), Tree(m, kids', Nil))
    && Conditioned(src, t0.state, t.state, Tree(m, kids, moved))
  }

  lemma WalkStart(src: Source, t: Snapshot, first: int, p: int, q: int, f: Forest)
    requires Chain(t.links, first, f, NULL) && Pending(src, t.links, t.state, q, f)
    ensures Walked(src, t, t, first, p, q, Nil, Nil, first, f)
  {
    assert t.log == t.log + [];
  }

  lemma SameOutsideTransitive(l0: Links, l1: Links, l2: Links, a: set<int>, b: set<int>)
    requires SameOutside(l0, l1, a) && SameOutside(l1, l2, b)
    ensures SameOutside(l0, l2, a + b)
  {
    forall id | id !in a + b && l0.Has(id)
      ensures l2.list[id] == l0.list[id] && l2.next[id] == l0.next[id] && l2.parent[id] == l0.parent[id]
    {
      assert l1.Has(id);
    }
  }

  lemma OutsideBoth(l0: Links, l1: Links, l2: Links, a: set<int>, m: int)
    requires SameOutside(l0, l1, a) && SameOutside(l1, l2, {m} + a)
    ensures SameOutside(l0, l2, {m} + a)
  {
    SameOutsideTransitive(l0, l1, l2, a, {m} + a);
    assert a + ({m} + a) == {m} + a;
  }

  lemma {:induction false} ParentedOutside(l1: Links, l2: Links, changed: set<int>, p: int, f: Forest, start: int,
                                           end: int)
    requires SameOutside(l1, l2, changed) && Ids(f) !! changed && Chain(l1, start, f, end)
    requires Parented(l1, p, f)
    ensures Parented(l2, p, f)
  {
    ChainHas(l1, start, f, end);
    ParentedFrame(l1, l2, p, f);
  }

  /** Finalising the node at the front of the pending part, and giving it the parent `p`, moves the walk on. */
  lemma WalkStep(src: Source, t0: Snapshot, t1: Snapshot, t2: Snapshot,
                 first: int, p: int, q: int, orig: Forest, done: Forest,
                 cur: int, k: Forest, moved: Forest, k': Forest, r': Forest)
    requires Walked(src, t0, t1, first, p, q, orig, done, cur, Tree(cur, k, Append(moved, r')))
    requires Finalized(src, t1, t2, cur, k, moved, k', r')
    ensures var links := t2.links.(parent := t2.links.parent[cur := p]);
            Walked(src, t0, t2.(links := links), first, p, q,
                   Append(orig, Tree(cur, k, moved)), Append(done, Tree(cur, k', Nil)), t2.links.next[cur], r')
  {
    var l1, l2 := t1.links, t2.links;
    var l3 := l2.(parent := l2.parent[cur := p]);
    hide Chain, Parented, Pending, CondStep, SameCond, FreshAt, TopReady, BelowDone, Preorder, ReadyConds,
         WellFormed, Tops;
    var node, node' := Tree(cur, k, moved), Tree(cur, k', Nil);
    var changed := Ids(node);
    AppendFacts(moved, r');
    AppendFacts(orig, Append(node, r'));
    AppendFacts(orig, node);
    AppendAssociative(orig, node, r');
    AppendFacts(Append(orig, node), r');
    assert SameOutside(l1, l3, changed);
    SameOutsideTransitive(t0.links, l1, l3, Ids(orig), changed);
    WalkStepChain(l1, l2, l3, changed, first, p, done, cur, k', r');
    WalkStepRest(src, l1, t1.state, l3, t2.state, changed, q, cur, k, moved, r');
    ParentedAppend(l3, p, done, node');
    ReorderedAppend(t0.log, t1.log, t2.log, orig, done, node, node');
    ConditionedAppend(src, t0.state, t1.state, t2.state, orig, node);
  }

  lemma WalkStepChain(l1: Links, l2: Links, l3: Links, changed: set<int>, first: int, p: int,
                      done: Forest, cur: int, k': Forest, r': Forest)
    requires Chain(l1, first, done, cur) && Parented(l1, p, done) && Ids(done) !! changed
    requires SameOutside(l1, l3, changed) && cur in l2.parent && l3 == l2.(parent := l2.parent[cur := p])
    requires Chain(l2, cur, Tree(cur, k', r'), NULL) && Parented(l2, cur, k') && cur !in Ids(k')
    ensures Chain(l3, first, Append(done, Tree(cur, k', Nil)), l2.next[cur])
    ensures Chain(l3, l2.next[cur], r', NULL)
    ensures Parented(l3, p, done) && Parented(l3, p, Tree(cur, k', Nil))
  {
    ChainFrame(l1, l3, changed, first, done, cur);
    ParentedOutside(l1, l3, changed, p, done, first, cur);
    SameLists(l2, l3, cur, Tree(cur, k', r'), NULL);
    ParentedFrame(l2, l3, cur, k');
    ChainAppend(l3, first, done, cur, Tree(cur, k', Nil), l2.next[cur]);
  }

  lemma {:induction false} SameLists(l1: Links, l2: Links, start: int, f: Forest, end: int)
    requires Chain(l1, start, f, end)
    requires l2.list == l1.list && l2.next == l1.next && l2.parent.Keys == l1.parent.Keys
    ensures Chain(l2, start, f, end)
    decreases f
  {
    if f.Tree? {
      SameLists(l1, l2, l1.list[f.id], f.kids, NULL);
      SameLists(l1, l2, l1.next[f.id], f.rest, end);
    }
  }

  lemma WalkStepRest(src: Source, l1: Links, s1: State, l3: Links, s2: State, changed: set<int>,
                     q: int, cur: int, k: Forest, moved: Forest, r': Forest)
    requires Pending(src, l1, s1, q, Tree(cur, k, Append(moved, r')))
    requires Chain(l1, cur, Tree(cur, k, Append(moved, r')), NULL)
    requires SameOutside(l1, l3, changed) && changed == Ids(Tree(cur, k, moved))
    requires forall id :: id !in changed ==> SameCond(s1, s2, id)
    ensures Pending(src, l3, s2, q, r')
  {
    AppendFacts(moved, r');
    ParentedAppend(l1, q, moved, r');
    ReadyCondsAppend(src, s1, moved, r');
    ReadyCondsFrame(src, s1, s2, r');
    ChainHas(l1, cur, Tree(cur, k, Append(moved, r')), NULL);
    ParentedFrame(l1, l3, q, r');
  }

  /** The end of a chain is reached only after its last node. */
  lemma ChainAtNull(links: Links, f: Forest)
    requires Chain(links, NULL, f, NULL)
    ensures f == Nil
  {
  }
  // ----- the tree -----

  /**
   * All nodes have conditions; the choice members, and the nodes with the test of a choice,
   * are those that the rounds of the last loops so far make them. A node with conditions from
   * above has these, and the test of its choice if it has got one.
   */
  ghost predicate Marked(src: Source, s: State, members: set<Symbol>, visits: seq<Visit>) {
    && s.conds.Keys == src.nodes.Keys
    && s.choiceOf == ChoiceTests(src, visits)
    && members == MembersOf(src, visits)
    && GivenAndTest(s)
  }

  lemma {:induction false} ReadyNodes(src: Source, s: State, f: Forest)
    requires ReadyConds(src, s, f)
    ensures Ids(f) <= src.nodes.Keys
  {
    if f.Tree? {
      forall id | id in Ids(f.kids) ensures id in src.nodes { assert FreshAt(src, s, id); }
      ReadyNodes(src, s, f.rest);
    }
  }

  lemma {:induction false} LastTopAppend(f: Forest, id: int, kids: Forest)
    ensures Append(f, Tree(id, kids, Nil)).Tree? && LastTop(Append(f, Tree(id, kids, Nil))) == id
  {
    if f.Tree? { LastTopAppend(f.rest, id, kids); }
  }

  /** Relinking after the adoption loop. */
  lemma FinishAdoption(l1: Links, m: int, done: Forest, todo: Forest, cur: int)
    requires l1.Has(m) && l1.list[m] == NULL && done.Tree? && Unique(Tree(m, done, todo))
    requires Chain(l1, l1.next[m], done, cur) && Chain(l1, cur, todo, NULL) && Parented(l1, m, done)
    ensures l1.Has(LastTop(done)) && LastTop(done) in Ids(done)
    ensures var l2 := Adopted(l1, m, LastTop(done));
            && l2.Has(m) && l2.parent == l1.parent
            && Chain(l2, l2.list[m], done, NULL) && Chain(l2, l2.next[m], todo, NULL)
            && Parented(l2, m, done)
            && SameOutside(l1, l2, {m} + Ids(done))
  {
    TopsAreIds(done);
    ChainHas(l1, l1.next[m], done, cur);
    AdoptLinks(l1, m, done, cur, todo);
    ParentedFrame(l1, Adopted(l1, m, LastTop(done)), m, done);
  }

  lemma PendingFront(src: Source, t0: Snapshot, t: Snapshot, first: int, p: int, q: int,
                     orig: Forest, done: Forest, cur: int, todo: Forest)
    requires cur != NULL && Walked(src, t0, t, first, p, q, orig, done, cur, todo)
    ensures todo.Tree? && todo.id == cur && TopReady(src, t.state, cur)
  {
  }

  /** The node in front of a walk is not the node outside it. */
  lemma WalkedFront(src: Source, t0: Snapshot, t: Snapshot, first: int, p: int, q: int,
                    orig: Forest, done: Forest, cur: int, todo: Forest)
    requires cur != NULL && Walked(src, t0, t, first, p, q, orig, done, cur, todo)
    ensures cur in Ids(Append(orig, todo))
  {
    AppendFacts(orig, todo);
  }

  /** A walk that has reached the end, seen from the node `m` above it. */
  lemma WalkedAll(src: Source, t1: Snapshot, t2: Snapshot, m: int, kids: Forest, inner: Forest, rest: Forest)
    requires t2.links.Has(m) && t1.links.Has(m) && t2.links.next[m] == t1.links.next[m]
    requires Unique(Tree(m, kids, rest)) && Chain(t1.links, t1.links.next[m], rest, NULL)
    requires Walked(src, t1, t2, t2.links.list[m], m, m, kids, inner, NULL, Nil)
    ensures Chain(t2.links, t2.links.next[m], rest, NULL)
    ensures SameOutside(t1.links, t2.links, {m} + Ids(inner))
  {
    ChainFrame(t1.links, t2.links, Ids(kids), t1.links.next[m], rest, NULL);
  }

  lemma ConditionedExtends(src: Source, s0: State, s: State, f: Forest)
    requires Conditioned(src, s0, s, f)
    ensures Extends(s0.given, s.given)
  {
    hide BelowDone, CondStep, SameCond, Extends;
  }

  lemma Untouched(l1: Links, l2: Links, changed: set<int>, m: int)
    requires SameOutside(l1, l2, changed) && l1.Has(m) && m !in changed
    ensures NodeKept(l1, l2, m)
  {
  }

  /** Nodes in `ids` may have got the test of a choice; nothing else has changed. */
  ghost predicate AllSteps(src: Source, s0: State, s: State, ids: set<int>) {
    && (forall id :: id in ids ==> CondStep(src, s0, s, id))
    && (forall id :: id !in ids ==> SameCond(s0, s, id))
    && s.given == s0.given
  }

  lemma AllStepsTransitive(src: Source, s0: State, s1: State, s2: State, ids: set<int>)
    requires AllSteps(src, s0, s1, ids) && AllSteps(src, s1, s2, ids)
    ensures AllSteps(src, s0, s2, ids)
  {
    forall id ensures (id in ids ==> CondStep(src, s0, s2, id)) && (id !in ids ==> SameCond(s0, s2, id)) {
      CondStepTransitive(src, s0, s1, s2, id);
    }
  }

  lemma StepsOfNothing(src: Source, s: State, ids: set<int>)
    ensures AllSteps(src, s, s, ids)
  {
  }

  lemma GivenKept(src: Source, s0: State, s: State, ids: set<int>)
    requires AllSteps(src, s0, s, ids)
    ensures s.given == s0.given
  {
  }

  // ----- flattening -----

  /** One flattening step, after the children of `c` have got their new parent. */
  lemma FlattenStep(l0: Links, l1: Links, first: int, m: int, done: Forest, c: int, k: Forest, r: Forest)
    requires k.Tree? && Unique(Append(done, Tree(c, k, r)))
    requires Chain(l0, first, done, c) && Chain(l0, c, Tree(c, k, r), NULL)
    requires Parented(l0, m, done) && Parented(l0, m, Tree(c, k, r))
    requires l1.list == l0.list && l1.next == l0.next && l1.parent.Keys == l0.parent.Keys
    requires forall id :: id in l0.parent ==> l1.parent[id] == if id in Tops(k) then m else l0.parent[id]
    ensures var l2 := Flattened(l1, c, LastTop(k));
            && Chain(l2, first, Append(done, Tree(c, Nil, Nil)), l2.next[c])
            && Chain(l2, l2.next[c], Append(k, r), NULL)
            && Parented(l2, m, Append(done, Tree(c, Nil, Nil))) && Parented(l2, m, Append(k, r))
            && SameOutside(l0, l2, Ids(Tree(c, k, r)))
  {
    var node := Tree(c, k, r);
    var l2 := Flattened(l1, c, LastTop(k));
    AppendFacts(done, node);
    TopsAreIds(k);
    SameLists(l0, l1, first, done, c);
    SameLists(l0, l1, c, node, NULL);
    FlattenLinks(l1, c, k, r);
    ChainFrame(l1, l2, {c, LastTop(k)}, first, done, c);
    ChainAppend(l2, first, done, c, Tree(c, Nil, Nil), l2.next[c]);
    ParentedFrame(l0, l2, m, done);
    ParentedAppend(l2, m, done, Tree(c, Nil, Nil));
    Reparented(l0, l2, c, m, k);
    ParentedFrame(l0, l2, m, r);
    ParentedAppend(l2, m, k, r);
  }

  lemma FlattenOrder(done: Forest, c: int, k: Forest, r: Forest)
    requires Unique(Append(done, Tree(c, k, r)))
    ensures var f := Append(Append(done, Tree(c, Nil, Nil)), Append(k, r));
            && Unique(f) && Ids(f) == Ids(Append(done, Tree(c, k, r)))
            && Preorder(f) == Preorder(Append(done, Tree(c, k, r)))
    ensures Append(Append(done, Tree(c, k, Nil)), r) == Append(done, Tree(c, k, r))
  {
    AppendFacts(done, Tree(c, k, r));
    FlattenKeepsOrder(c, k, r);
    var after := Tree(c, Nil, Append(k, r));
    AppendAssociative(done, Tree(c, Nil, Nil), Append(k, r));
    AppendFacts(done, after);
    AppendAssociative(done, Tree(c, k, Nil), r);
  }

  /** Passing over a node that is not flattened. */
  lemma PassStep(l: Links, first: int, m: int, done: Forest, c: int, k: Forest, r: Forest)
    requires Chain(l, first, done, c) && Chain(l, c, Tree(c, k, r), NULL)
    requires Parented(l, m, done) && Parented(l, m, Tree(c, k, r))
    ensures Chain(l, first, Append(done, Tree(c, k, Nil)), l.next[c]) && Chain(l, l.next[c], r, NULL)
    ensures Parented(l, m, Append(done, Tree(c, k, Nil))) && Parented(l, m, r)
  {
    ChainAppend(l, first, done, c, Tree(c, k, Nil), l.next[c]);
    ParentedAppend(l, m, done, Tree(c, k, Nil));
  }

  /** The chain `kids` below `m` has been flattened up to `cur`. */
  ghost predicate Flattening(src: Source, t0: Snapshot, t: Snapshot, first: int, m: int, kids: Forest,
                             done: Forest, cur: int, todo: Forest)
  {
    && Chain(t.links, first, done, cur) && Chain(t.links, cur, todo, NULL)
    && Parented(t.links, m, done) && Parented(t.links, m, todo)
    && Unique(Append(done, todo)) && Ids(Append(done, todo)) == Ids(kids)
    && Preorder(Append(done, todo)) == Preorder(kids)
    && SameOutside(t0.links, t.links, Ids(kids))
    && AllSteps(src, t0.state, t.state, Ids(kids))
  }

  lemma FlatteningFront(src: Source, t0: Snapshot, t: Snapshot, first: int, m: int, kids: Forest,
                        done: Forest, c: int, todo: Forest)
    requires c != NULL && Flattening(src, t0, t, first, m, kids, done, c, todo)
    ensures todo.Tree? && todo.id == c && c in Ids(kids) && t.links.Has(c)
    ensures Unique(todo.kids) && Chain(t.links, t.links.list[c], todo.kids, NULL)
    ensures AllSteps(src, t0.state, t.state, Ids(kids))
  {
    hide Preorder, Parented, SameOutside, AllSteps, Tops;
    AppendFacts(done, todo);
  }

  lemma MemberStep(src: Source, s0: State, s1: State, s2: State, c: int, ids: set<int>)
    requires AllSteps(src, s0, s1, ids) && AllSteps(src, s1, s2, {c}) && c in ids
    ensures AllSteps(src, s0, s2, ids)
  {
    AllStepsTransitive(src, s0, s1, s2, ids);
  }

  lemma FlatteningFlat(src: Source, t0: Snapshot, t1: Snapshot, l1: Links, s: State, first: int, m: int,
                       kids: Forest, done: Forest, c: int, k: Forest, r: Forest)
    requires k.Tree? && Flattening(src, t0, t1, first, m, kids, done, c, Tree(c, k, r))
    requires AllSteps(src, t0.state, s, Ids(kids))
    requires l1.list == t1.links.list && l1.next == t1.links.next && l1.parent.Keys == t1.links.parent.Keys
    requires forall id :: id in l1.parent ==> l1.parent[id] == if id in Tops(k) then m else t1.links.parent[id]
    ensures forall log ::
      var l2 := Flattened(l1, c, LastTop(k));
      Flattening(src, t0, Snapshot(l2, s, log), first, m, kids,
                 Append(done, Tree(c, Nil, Nil)), l2.next[c], Append(k, r))
    ensures m in l1.list && m !in Ids(kids) ==> Flattened(l1, c, LastTop(k)).list[m] == l1.list[m]
  {
    FlattenStep(t1.links, l1, first, m, done, c, k, r);
    FlattenOrder(done, c, k, r);
    var l2 := Flattened(l1, c, LastTop(k));
    AppendFacts(done, Tree(c, k, r));
    SameOutsideTransitive(t0.links, t1.links, l2, Ids(kids), Ids(Tree(c, k, r)));
    assert Ids(kids) + Ids(Tree(c, k, r)) == Ids(kids);
  }

  lemma FlatteningPass(src: Source, t0: Snapshot, t1: Snapshot, s: State, first: int, m: int,
                       kids: Forest, done: Forest, c: int, k: Forest, r: Forest)
    requires Flattening(src, t0, t1, first, m, kids, done, c, Tree(c, k, r))
    requires AllSteps(src, t0.state, s, Ids(kids))
    ensures Flattening(src, t0, t1.(state := s), first, m, kids, Append(done, Tree(c, k, Nil)), t1.links.next[c], r)
  {
    FlattenOrder(done, c, k, r);
    PassStep(t1.links, first, m, done, c, k, r);
  }

  // ----- pushing conditions down a chain of children -----

  /** The topmost nodes of `kids` have their conditions from `above`, up to the remaining part `todo`. */
  ghost predicate Propagating(src: Source, s0: State, s: State, kids: Forest, todo: Forest, above: Option<Expr>) {
    && Unique(kids) && Unique(todo) && Ids(todo) <= Ids(kids) && Tops(todo) <= Tops(kids)
    && s.conds.Keys == s0.conds.Keys && s.choiceOf == s0.choiceOf && Extends(s0.given, s.given)
    && (forall id :: id !in Ids(kids) ==> SameCond(s0, s, id))
    && (forall id :: id in Ids(kids) && (id in Tops(kids) ==> id in Tops(todo)) ==> FreshAt(src, s, id))
    && (forall id :: id in Tops(kids) && id !in Tops(todo) ==> TopReady(src, s, id))
    && forall v, id :: Meant(src, v) && id in Tops(kids) && id !in Tops(todo) ==>
         CondIs(src, src.nodes[id], s.conds[id], v, EvalDep(above, v), YES)
  }

  lemma PropagatingStart(src: Source, s: State, kids: Forest, above: Option<Expr>)
    requires Unique(kids) && Fresh(src, s, kids)
    ensures Propagating(src, s, s, kids, kids, above)
  {
    hide FreshAt, TopReady, CondIs, Meant, Unique;
    TopsAreIds(kids);
  }

  lemma PropagatingFront(src: Source, s0: State, s: State, kids: Forest, todo: Forest, above: Option<Expr>)
    requires todo.Tree? && Propagating(src, s0, s, kids, todo, above)
    ensures todo.id in src.nodes
  {
    hide CondIs, Meant, Unique;
    TopsAreIds(todo);
    assert FreshAt(src, s, todo.id);
  }

  lemma StepFacts(g0: map<int, Cond>, g: map<int, Cond>, kids: Forest, todo: Forest, c: Cond)
    requires todo.Tree? && Unique(todo) && Ids(todo) <= Ids(kids) && Tops(todo) <= Tops(kids)
    ensures Unique(todo.rest) && Ids(todo.rest) <= Ids(kids) && Tops(todo.rest) <= Tops(kids)
    ensures todo.id in Ids(kids) && todo.id in Tops(kids)
    ensures Tops(todo) == {todo.id} + Tops(todo.rest) && todo.id !in Tops(todo.rest)
    ensures Extends(g0, g) && todo.id !in g ==> todo.id !in g0 && Extends(g0, g[todo.id := c])
  {
    TopsAreIds(todo.rest);
  }

  lemma PropagatingStep(src: Source, s0: State, s: State, kids: Forest, todo: Forest, above: Option<Expr>, c: Cond)
    requires todo.Tree? && Propagating(src, s0, s, kids, todo, above) && Formed(src, c)
    requires todo.id in src.nodes
    requires forall v :: Meant(src, v) ==> CondIs(src, src.nodes[todo.id], c, v, EvalDep(above, v), YES)
    ensures Propagating(src, s0, s.(conds := s.conds[todo.id := c], given := s.given[todo.id := c]),
                        kids, todo.rest, above)
  {
    hide CondIs, Formed, Meant, Extends, Ids, Unique;
    StepFacts(s0.given, s.given, kids, todo, c);
    assert todo.id in Tops(todo) && FreshAt(src, s, todo.id);
    var s' := s.(conds := s.conds[todo.id := c], given := s.given[todo.id := c]);
    forall id | id !in Ids(kids) ensures SameCond(s0, s', id) {
      assert SameCond(s0, s, id);
    }
    forall id | id in Ids(kids) && (id in Tops(kids) ==> id in Tops(todo.rest)) ensures FreshAt(src, s', id) {
      assert FreshAt(src, s, id);
    }
    forall id | id in Tops(kids) && id !in Tops(todo.rest) ensures TopReady(src, s', id) {
      assert id != todo.id ==> TopReady(src, s, id);
    }
  }

  lemma PropagatingEnd(src: Source, s0: State, s: State, kids: Forest, above: Option<Expr>)
    requires Propagating(src, s0, s, kids, Nil, above)
    ensures forall id :: id !in Ids(kids) ==> SameCond(s0, s, id)
    ensures ReadyConds(src, s, kids)
    ensures s.conds.Keys == s0.conds.Keys && s.choiceOf == s0.choiceOf && Extends(s0.given, s.given)
    ensures GivenAndTest(s0) ==> GivenAndTest(s)
    ensures forall v :: Meant(src, v) ==> TopsDone(src, s, v, kids, EvalDep(above, v))
  {
    hide CondIs, FreshAt, TopReady, Meant, SameCond, ReadyConds, TopsDone, GivenAndTest;
    ReadyByNode(src, s, kids);
    if GivenAndTest(s0) { PropagatingGiven(src, s0, s, kids, above); }
    forall v | Meant(src, v) ensures TopsDone(src, s, v, kids, EvalDep(above, v)) {
      TopsDoneByNode(src, s, v, kids, EvalDep(above, v));
    }
  }

  lemma PropagatingGiven(src: Source, s0: State, s: State, kids: Forest, above: Option<Expr>)
    requires Propagating(src, s0, s, kids, Nil, above) && GivenAndTest(s0)
    ensures GivenAndTest(s)
  {
    hide CondIs, Meant, Formed, Extends;
    forall id | id in s.given
      ensures id in s.conds
      ensures s.conds[id] == if id in s.choiceOf then WithChoice(s.given[id], s.choiceOf[id]) else s.given[id]
    {
      assert
        if id !in Ids(kids) then SameCond(s0, s, id)
        else if id in Tops(kids) then TopReady(src, s, id) else FreshAt(src, s, id);
    }
  }

  // ----- putting the parts of one finalisation together -----

  lemma ChildrenDone(src: Source, s0: State, s1: State, s2: State, m: int, kids: Forest)
    requires m in s0.conds && m !in Ids(kids)
    requires forall id :: id !in Ids(kids) ==> SameCond(s0, s1, id)
    requires Extends(s0.given, s1.given)
    requires ReadyConds(src, s1, kids)
    requires forall v :: Meant(src, v) ==>
      TopsDone(src, s1, v, kids, ValueAbove(src, m, EvalDep(s0.conds[m].dep, v), v))
    requires Conditioned(src, s1, s2, kids)
    ensures Conditioned(src, s0, s2, Tree(m, kids, Nil))
  {
    forall id | id !in Ids(kids) ensures SameCond(s0, s2, id) {
      CondStepTransitive(src, s0, s1, s2, id);
    }
    TopsAreIds(kids);
    TopsNotInChoice(src, s1, kids);
    forall id | id in Ids(kids) ensures id in s2.given {
      assert if id in Tops(kids) then id in s1.given else id in Ids(kids) - Tops(kids);
    }
    forall v | Meant(src, v) ensures BelowDone(src, s0, s2, v, Tree(m, kids, Nil)) {
      TopsAndBelow(src, s1, s2, v, kids, ValueAbove(src, m, EvalDep(s0.conds[m].dep, v), v));
    }
  }

  lemma {:induction false} TopsNotInChoice(src: Source, s: State, f: Forest)
    requires ReadyConds(src, s, f)
    ensures forall id :: id in Tops(f) ==> id !in s.choiceOf && id in s.given
  {
    if f.Tree? { TopsNotInChoice(src, s, f.rest); }
  }

  lemma AdoptedDone(src: Source, s0: State, s2: State, m: int, taken: Forest)
    requires m in s0.conds && m !in Ids(taken)
    requires Conditioned(src, s0, s2, taken)
    ensures Conditioned(src, s0, s2, Tree(m, Nil, taken))
  {
    TopsAreIds(taken);
  }

  /** Tests of choices added afterwards leave the rest as it is. */
  lemma FlattenedDone(src: Source, s0: State, s2: State, s3: State, f: Forest, ids: set<int>)
    requires Conditioned(src, s0, s2, f) && AllSteps(src, s2, s3, ids) && ids <= Ids(f)
    ensures Conditioned(src, s0, s3, f)
  {
    hide BelowDone;
    TopsAreIds(f);
    forall id | id !in Ids(f) ensures SameCond(s0, s3, id) {
      CondStepTransitive(src, s0, s2, s3, id);
    }
    forall id | id in Tops(f) ensures CondStep(src, s0, s3, id) {
      CondStepTransitive(src, s0, s2, s3, id);
    }
    forall v | Meant(src, v) ensures BelowDone(src, s0, s3, v, f) {
      forall id | id in Ids(f) ensures SameCond(s0, s0, id) {}
      BelowDoneStep(src, s0, s2, s0, s3, v, f);
    }
  }

  lemma FinalLinks(l0: Links, l2: Links, l3: Links, m: int, inner: set<int>, rest': Forest, kids': Forest)
    requires SameOutside(l0, l2, {m} + inner) && SameOutside(l2, l3, inner) && m !in inner
    requires l2.Has(m) && l0.Has(m) && l2.parent[m] == l0.parent[m]
    requires Chain(l2, l2.next[m], rest', NULL) && Ids(rest') !! inner && m !in Ids(rest')
    requires l3.Has(m) && Chain(l3, l3.list[m], kids', NULL)
    ensures Chain(l3, m, Tree(m, kids', rest'), NULL)
    ensures SameOutside(l0, l3, {m} + inner) && l3.parent[m] == l0.parent[m]
  {
    ChainFrame(l2, l3, inner, l2.next[m], rest', NULL);
    SameOutsideTransitive(l0, l2, l3, {m} + inner, inner);
    assert ({m} + inner) + inner == {m} + inner;
  }

  lemma FinalOrder(log0: seq<int>, log: seq<int>, m: int, kids: Forest, moved: Forest, inner: Forest, kids': Forest)
    requires Reordered(log0 + [m], log, Append(kids, moved), inner) && m !in Ids(Append(kids, moved))
    requires Unique(kids') && Ids(kids') == Ids(inner) && Preorder(kids') == Preorder(inner)
    ensures Reordered(log0, log, Tree(m, kids, moved), Tree(m, kids', Nil))
  {
    AppendFacts(kids, moved);
    ConcatAssociative(log0, [m], Preorder(kids) + Preorder(moved));
    ConcatAssociative([m], Preorder(kids), Preorder(moved));
    assert Preorder(Tree(m, kids', Nil)) == [m] + Preorder(kids');
  }

  /** The nodes around a finalised chain are not in it. */
  lemma AroundChain(m: int, kids: Forest, moved: Forest, rest': Forest, inner: Forest)
    requires Unique(Tree(m, kids, Append(moved, rest'))) && Ids(inner) == Ids(Append(kids, moved))
    ensures m !in Ids(inner) && m !in Ids(rest') && Ids(rest') !! Ids(inner)
    ensures {m} + Ids(inner) == Ids(Tree(m, kids, moved))
  {
    AppendFacts(kids, moved);
    AppendFacts(moved, rest');
  }

  /**
   * What finalising the node `m` has done before its last loop: `inner` is the chain below it,
   * which was `kids` or is `moved`, adopted from the siblings after it.
   */
  ghost predicate BelowFinalized(src: Source, t0: Snapshot, t: Snapshot, m: int,
                                 kids: Forest, moved: Forest, inner: Forest, rest': Forest)
  {
    && t0.links.Has(m) && t.links.Has(m) && t.links.parent[m] == t0.links.parent[m]
    && Chain(t.links, t.links.list[m], inner, NULL) && Chain(t.links, t.links.next[m], rest', NULL)
    && Parented(t.links, m, inner)
    && SameOutside(t0.links, t.links, {m} + Ids(inner))
    && Reordered(t0.log + [m], t.log, Append(kids, moved), inner)
    && Conditioned(src, t0.state, t.state, Tree(m, kids, moved))
  }

  lemma BelowFacts(src: Source, t0: Snapshot, t: Snapshot, m: int,
                   kids: Forest, moved: Forest, inner: Forest, rest': Forest)
    requires Unique(Tree(m, kids, Append(moved, rest'))) && Ids(Tree(m, kids, moved)) <= src.nodes.Keys
    requires BelowFinalized(src, t0, t, m, kids, moved, inner, rest')
    ensures t.links.Has(m) && m in src.nodes && m !in Ids(inner) && Ids(inner) <= src.nodes.Keys
    ensures Chain(t.links, t.links.list[m], inner, NULL) && Unique(inner) && Parented(t.links, m, inner)
  {
    hide Conditioned, SameOutside, Chain, Parented;
    AroundChain(m, kids, moved, rest', inner);
  }

  /** The last loop completes the finalisation of a node. */
  lemma FinalizedByFlattening(src: Source, t0: Snapshot, t2: Snapshot, t3: Snapshot, m: int,
                              kids: Forest, moved: Forest, inner: Forest, kids': Forest, rest': Forest)
    requires Unique(Tree(m, kids, Append(moved, rest')))
    requires BelowFinalized(src, t0, t2, m, kids, moved, inner, rest')
    requires t3.links.Has(m) && Chain(t3.links, t3.links.list[m], kids', NULL) && Parented(t3.links, m, kids')
    requires SameOutside(t2.links, t3.links, Ids(inner)) && t3.log == t2.log
    requires Unique(kids') && Ids(kids') == Ids(inner) && Preorder(kids') == Preorder(inner)
    requires AllSteps(src, t2.state, t3.state, Ids(inner))
    ensures Finalized(src, t0, t3, m, kids, moved, kids', rest')
  {
    hide Conditioned, Chain, Parented, SameOutside, AllSteps;
    AroundChain(m, kids, moved, rest', inner);
    FinalLinks(t0.links, t2.links, t3.links, m, Ids(inner), rest', kids');
    FinalOrder(t0.log, t3.log, m, kids, moved, inner, kids');
    FlattenedDone(src, t0.state, t2.state, t3.state, Tree(m, kids, moved), Ids(inner));
  }

  /** The adopted part of a walk along the siblings of `m`. */
  lemma AdoptedWalk(src: Source, t0: Snapshot, t: Snapshot, first: int, m: int, q: int,
                    moved: Forest, inner: Forest, cur: int, rest': Forest)
    requires Walked(src, t0, t, first, m, q, moved, inner, cur, rest') && m !in Ids(Append(moved, rest'))
    ensures Unique(Tree(m, inner, rest')) && Parented(t.links, m, inner)
    ensures Chain(t.links, first, inner, cur) && Chain(t.links, cur, rest', NULL)
    ensures SameOutside(t0.links, t.links, Ids(inner))
    ensures Reordered(t0.log, t.log, moved, inner) && Conditioned(src, t0.state, t.state, moved)
  {
    hide Chain, Parented, Pending, Conditioned;
    AppendFacts(moved, rest');
  }

  // ----- what the methods record -----

  lemma AdoptionStart(src: Source, s: State, m: int, sym: Symbol)
    requires TopReady(src, s, m) && SymOf(src, m) == Some(sym)
    ensures AdoptionRight(src, s.given, m, {}, Nil)
    ensures PromptCond(src, s.given, m, None) == PromptCond(src, s.conds, m, None)
  {
  }

  /** What the test for the item in front says about the conditions from above. */
  lemma AdoptionStep(src: Source, s: State, m: int, sym: Symbol, base: Option<Expr>, adopted: set<int>,
                     left: Forest, inside: bool)
    requires left.Tree? && TopReady(src, s, left.id) && SymOf(src, m) == Some(sym)
    requires AdoptionRight(src, s.given, m, adopted, Nil) && PromptCond(src, s.given, m, None) == base
    requires inside ==> Belongs(ItemCond(src, s.conds, left.id), sym, base)
    requires Due(ItemCond(src, s.conds, left.id), sym, base) ==> inside
    ensures inside ==> AdoptionRight(src, s.given, m, adopted + {left.id}, Nil)
    ensures !inside ==> AdoptionRight(src, s.given, m, adopted, left)
  {
    hide Belongs, Due;
    assert ItemCond(src, s.given, left.id) == ItemCond(src, s.conds, left.id);
  }

  lemma AdoptionKept(src: Source, given: map<int, Cond>, given': map<int, Cond>, m: int, adopted: set<int>,
                     base: Option<Expr>)
    requires AdoptionRight(src, given, m, adopted, Nil) && Extends(given, given')
    requires PromptCond(src, given, m, None) == base
    ensures AdoptionRight(src, given', m, adopted, Nil) && PromptCond(src, given', m, None) == base
  {
    AdoptionExtends(src, given, given', m, adopted, Nil);
  }

  lemma ShapeTops(src: Source, given: map<int, Cond>, v0: seq<Visit>, v: seq<Visit>,
                  orig: Forest, shape: Forest, done: Forest, after: Forest)
    requires Recorded(src, given, v0, v, orig, shape, done, after)
    ensures Tops(done) == Tops(shape)
  {
    FlatBelowTops(src, shape);
  }

  lemma VisitStep(src: Source, visits: seq<Visit>, v: Visit)
    requires IsMember(src, v.choice, v.child)
    ensures var sym := SymOf(src, v.child).value;
            && MembersOf(src, visits + [v]) == MembersOf(src, visits) + {sym}
            && ChoiceTests(src, visits + [v]) ==
                 if AddsTest(src, v) && sym !in MembersOf(src, visits)
                 then ChoiceTests(src, visits)[v.child := SymOf(src, v.choice).value] else ChoiceTests(src, visits)
  {
    assert (visits + [v])[..|visits|] == visits;
  }

  /** The last loop of `m` has turned `kids` into `done` so far, with these rounds. */
  ghost predicate FlatSoFar(src: Source, v0: seq<Visit>, v: seq<Visit>, m: int,
                            kids: Forest, done: Forest, todo: Forest)
  {
    Append(done, FlatTop(src, todo)) == FlatTop(src, kids) && v == v0 + TopVisits(src, m, done)
  }

  lemma FlatStart(src: Source, v: seq<Visit>, m: int, kids: Forest)
    ensures FlatSoFar(src, v, v, m, kids, Nil, kids)
  {
    assert v == v + [];
  }

  lemma FlatSoFarStep(src: Source, v0: seq<Visit>, v1: seq<Visit>, v2: seq<Visit>, m: int,
                      kids: Forest, done: Forest, c: int, k: Forest, r: Forest)
    requires FlatSoFar(src, v0, v1, m, kids, done, Tree(c, k, r))
    requires v2 == v1 + if IsMember(src, m, c) then [Visit(m, c)] else []
    ensures k.Tree? && !Titled(src, c) ==>
      FlatSoFar(src, v0, v2, m, kids, Append(done, Tree(c, Nil, Nil)), Append(k, r))
    ensures k == Nil || Titled(src, c) ==> FlatSoFar(src, v0, v2, m, kids, Append(done, Tree(c, k, Nil)), r)
  {
    var round := if IsMember(src, m, c) then [Visit(m, c)] else [];
    var k' := if k.Tree? && !Titled(src, c) then Nil else k;
    var todo' := if k.Tree? && !Titled(src, c) then Append(k, r) else r;
    assert FlatTop(src, Tree(c, k, r)) == Tree(c, k', FlatTop(src, todo'));
    AppendAssociative(done, Tree(c, k', Nil), FlatTop(src, todo'));
    TopVisitsAppend(src, m, done, Tree(c, k', Nil));
    assert TopVisits(src, m, Tree(c, k', Nil)) == round + [] == round;
    ConcatVisits(v0, TopVisits(src, m, done), round);
  }

  /** The links of `m` itself are as before. */
  ghost predicate NodeKept(l0: Links, l: Links, m: int) {
    l0.Has(m) && l.Has(m) && l.list[m] == l0.list[m] && l.next[m] == l0.next[m] && l.parent[m] == l0.parent[m]
  }

  class MenuTree {
    const src: Source

    /** The pointer fields of all nodes. */
    var links: Links
    /** `dep` of all nodes and `visible.expr` of their properties. */
    var conds: map<int, Cond>
    /** The symbols with SYMBOL_CHOICEVAL set. */
    var members: set<Symbol>

    ghost var choiceOf: map<int, Symbol>
    ghost var given: map<int, Cond>
    ghost var log: seq<int>
    ghost var visits: seq<Visit>

    ghost function Now(): State
      reads this
    {
      State(conds, choiceOf, given)
    }

    ghost function Snap(): Snapshot
      reads this
    {
      Snapshot(links, Now(), log)
    }

    /** A tree as the parser leaves it. */
    constructor (src: Source, links: Links, ghost root: int)
      ensures this.src == src && this.links == links && members == {}
      ensures Now() == AsWritten(src, root) && log == [] && visits == []
    {
      this.src := src;
      this.links := links;
      conds := map id | id in src.nodes :: Cond(src.nodes[id].dep, src.nodes[id].conds);
      members := {};
      choiceOf := map[];
      given := map id | id in src.nodes && id == root :: Cond(src.nodes[id].dep, src.nodes[id].conds);
      log, visits := [], [];
    }

    /** The condition of the prompt of `menu`, or else `other`. */
    method VisibleCond(menu: int, other: Option<Expr>) returns (e: Option<Expr>)
      requires menu in src.nodes && menu in conds
      ensures e == PromptCond(src, conds, menu, other)
    {
      var node, cond := src.nodes[menu], conds[menu];
      e := other;
      if node.prompt.Some? && node.prompt.value < |cond.conds| {
        e := cond.conds[node.prompt.value];
      }
    }

    /** Whether the node `menu` goes into the submenu of the symbol `s`. */
    method InSubmenu(menu: int, s: Symbol, test: Expr, ghost base: Option<Expr>) returns (b: bool)
      requires menu in src.nodes && menu in conds && TestsFor(test, base)
      ensures b ==> Belongs(ItemCond(src, conds, menu), s, base)
      ensures Due(ItemCond(src, conds, menu), s, base) ==> b
    {
      var dep := VisibleCond(menu, conds[menu].dep);
      b := BelongsToSubmenu(dep, s, test, base);
    }

    /** Pushes the dependency of `m`, or the choice symbol itself, down to the children of `m`. */
    method PropagateDeps(m: int, ghost kids: Forest)
      requires m in src.nodes && m in conds && Formed(src, conds[m])
      requires links.Has(m) && Chain(links, links.list[m], kids, NULL)
      requires Unique(kids) && m !in Ids(kids) && Fresh(src, Now(), kids)
      modifies `conds, `given
      ensures forall id :: id !in Ids(kids) ==> SameCond(old(Now()), Now(), id)
      ensures Extends(old(given), given)
      ensures ReadyConds(src, Now(), kids)
      ensures Marked(src, old(Now()), members, visits) ==> Marked(src, Now(), members, visits)
      ensures forall v :: Meant(src, v) ==>
        TopsDone(src, Now(), v, kids, ValueAbove(src, m, EvalDep(old(conds)[m].dep, v), v))
    {
      hide Propagating, CondIs, TopReady, FreshAt, PlainNode;
      var above := if src.IsChoiceNode(m) then Some(Sym(src.nodes[m].sym.value)) else conds[m].dep;
      var menu := links.list[m];
      ghost var s0 := Now();
      ghost var todo := kids;
      PropagatingStart(src, s0, kids, above);
      while menu != NULL
        invariant Chain(links, menu, todo, NULL)
        invariant Propagating(src, s0, Now(), kids, todo, above)
        decreases todo
      {
        PropagatingFront(src, s0, Now(), kids, todo, above);
        ghost var s1 := Now();
        var c := Propagate(src, src.nodes[menu], above);
        assert PlainSource(src) ==> PlainNode(src.nodes[menu]);
        conds := conds[menu := c];
        given := given[menu := c];
        PropagatingStep(src, s0, s1, kids, todo, above, c);
        menu := links.next[menu];
        todo := todo.rest;
      }
      ChainAtNull(links, todo);
      PropagatingEnd(src, s0, Now(), kids, above);
    }

    /**
     * Finalises the front `menu` of the pending part of a walk. The result is
     * stated for `menu` with the parent `p`; `m` is some node outside the walk.
     */
    method FinalizeNext(ghost t0: Snapshot, ghost m: int, ghost first: int, ghost p: int, ghost q: int,
                        ghost orig: Forest, ghost done: Forest, menu: int, ghost todo: Forest,
                        ghost v0: seq<Visit>, ghost shape: Forest)
      returns (ghost orig': Forest, ghost done': Forest, ghost todo': Forest, ghost shape': Forest)
      requires menu != NULL && Walked(src, t0, Snap(), first, p, q, orig, done, menu, todo)
      requires Recorded(src, given, v0, visits, orig, shape, done, todo)
      requires links.Has(m) && m !in Ids(Append(orig, todo)) && Marked(src, Now(), members, visits)
      modifies this
      ensures Marked(src, Now(), members, visits)
      ensures links.Has(menu) && links.parent[menu] == q
      ensures var relinked := links.(parent := links.parent[menu := p]);
              Walked(src, t0, Snap().(links := relinked), first, p, q, orig', done', links.next[menu], todo')
      ensures Recorded(src, given, v0, visits, orig', shape', done', todo')
      ensures Append(orig', todo') == Append(orig, todo) && Count(todo') < Count(todo)
      ensures done'.Tree? && LastTop(done') == menu && Tops(done') == Tops(done) + {menu}
      ensures NodeKept(old(links), links, m) && Extends(old(given), given)
      decreases Count(todo), 4
    {
      hide Recorded, Extends, Marked, Reordered, Preorder, ReadyConds, CondStep, SameCond, BelowDone, Meant;
      hide Conditioned;
      ghost var t1, v1 := Snap(), visits;
      ghost var k := todo.kids;
      ghost var k', moved, r', sk := Finalize(menu, q, k, todo.rest);
      WalkStep(src, t0, t1, Snap(), first, p, q, orig, done, menu, k, moved, k', r');
      ghost var node, node' := Tree(menu, k, moved), Tree(menu, k', Nil);
      orig', done', todo' := Append(orig, node), Append(done, node'), r';
      shape' := Append(shape, Tree(menu, sk, Nil));
      assert todo == Append(node, r');
      ConditionedExtends(src, t1.state, Now(), node);
      RecordedAppend(src, t1.state.given, given, v0, v1, visits, orig, shape, done, node, Tree(menu, sk, Nil),
        node', r');
      AppendAssociative(orig, node, r');
      AppendFacts(orig, todo);
      AppendFacts(moved, r');
      AppendIds(done, node');
      CountAppend(moved, r');
      LastTopAppend(done, menu, k');
      Untouched(t1.links, links, Ids(node), m);
    }

    /** Finalises the item `menu` and makes `m` its parent. */
    method AdoptNext(ghost t0: Snapshot, m: int, ghost first: int, ghost q: int,
                     ghost orig: Forest, ghost done: Forest, menu: int, ghost todo: Forest,
                     ghost v0: seq<Visit>, ghost shape: Forest)
      returns (ghost orig': Forest, ghost done': Forest, ghost todo': Forest, ghost shape': Forest)
      requires menu != NULL && Walked(src, t0, Snap(), first, m, q, orig, done, menu, todo)
      requires Recorded(src, given, v0, visits, orig, shape, done, todo)
      requires links.Has(m) && m !in Ids(Append(orig, todo)) && Marked(src, Now(), members, visits)
      modifies this
      ensures Marked(src, Now(), members, visits)
      ensures links.Has(menu)
      ensures Walked(src, t0, Snap(), first, m, q, orig', done', links.next[menu], todo')
      ensures Recorded(src, given, v0, visits, orig', shape', done', todo')
      ensures Append(orig', todo') == Append(orig, todo) && Count(todo') < Count(todo)
      ensures done'.Tree? && LastTop(done') == menu && Tops(done') == Tops(done) + {menu}
      ensures NodeKept(old(links), links, m) && Extends(old(given), given)
      decreases Count(todo), 5
    {
      hide Recorded, Extends, Marked;
      WalkedFront(src, t0, Snap(), first, m, q, orig, done, menu, todo);
      orig', done', todo', shape' := FinalizeNext(t0, m, first, m, q, orig, done, menu, todo, v0, shape);
      links := links.(parent := links.parent[menu := m]);
    }

    /** Finalises the children of `m` in turn. */
    method FinalizeChildren(m: int, ghost kids: Forest) returns (ghost kids': Forest, ghost shape: Forest)
      requires links.Has(m) && m !in Ids(kids) && Chain(links, links.list[m], kids, NULL)
      requires Pending(src, links, Now(), m, kids) && Marked(src, Now(), members, visits)
      modifies this
      ensures Marked(src, Now(), members, visits)
      ensures NodeKept(old(links), links, m)
      ensures Walked(src, old(Snap()), Snap(), links.list[m], m, m, kids, kids', NULL, Nil)
      ensures Recorded(src, given, old(visits), visits, kids, shape, kids', Nil)
      decreases Count(kids), 5
    {
      hide Marked, Preorder, Parented, SameOutside, Reordered, Conditioned, ReadyConds, Recorded, Extends;
      ghost var t0, v0 := Snap(), visits;
      var first := links.list[m];
      var menu := first;
      ghost var orig, done, todo := Nil, Nil, kids;
      shape := Nil;
      WalkStart(src, t0, first, m, m, kids);
      RecordedNothing(src, given, visits, kids);
      while menu != NULL
        invariant Marked(src, Now(), members, visits)
        invariant kids == Append(orig, todo) && Count(todo) <= Count(kids)
        invariant NodeKept(t0.links, links, m)
        invariant Walked(src, t0, Snap(), first, m, m, orig, done, menu, todo)
        invariant Recorded(src, given, v0, visits, orig, shape, done, todo)
        decreases Count(todo)
      {
        orig, done, todo, shape := FinalizeNext(t0, m, first, m, m, orig, done, menu, todo, v0, shape);
        assert links.(parent := links.parent[menu := m]) == links;
        menu := links.next[menu];
      }
      ChainAtNull(links, todo);
      AppendNil(orig);
      kids' := done;
    }

    /** The adoption loop: finalises the siblings after the childless symbol node `m` that belong to its submenu. */
    method AdoptFollowing(m: int, s: Symbol, ghost q: int, ghost rest: Forest)
      returns (last: int, ghost cur: int, ghost taken: Forest, ghost kids': Forest, ghost rest': Forest,
           ghost shape: Forest)
      requires links.Has(m) && m !in Ids(rest) && Chain(links, links.next[m], rest, NULL)
      requires TopReady(src, Now(), m) && SymOf(src, m) == Some(s)
      requires Pending(src, links, Now(), q, rest) && Marked(src, Now(), members, visits)
      modifies this
      ensures Marked(src, Now(), members, visits)
      ensures rest == Append(taken, rest')
      ensures NodeKept(old(links), links, m)
      ensures Walked(src, old(Snap()), Snap(), links.next[m], m, q, taken, kids', cur, rest')
      ensures Recorded(src, given, old(visits), visits, taken, shape, kids', rest')
      ensures AdoptionRight(src, given, m, Tops(kids'), rest')
      ensures if kids' == Nil then last == NULL else last == LastTop(kids') && last != NULL
      decreases Count(rest), 6
    {
      hide Marked, Recorded, AdoptionRight, ItemCond, PromptCond, Preorder;
      ghost var t0, v0 := Snap(), visits;
      ghost var base := PromptCond(src, conds, m, None);
      var basedep := VisibleCond(m, None);
      var test := ExplicitTest(basedep);
      var first := links.next[m];
      var menu := first;
      last := NULL;
      taken, kids', rest', shape := Nil, Nil, rest, Nil;
      WalkStart(src, t0, first, m, q, rest);
      RecordedNothing(src, given, visits, rest);
      AdoptionStart(src, Now(), m, s);
      while menu != NULL
        invariant Marked(src, Now(), members, visits)
        invariant rest == Append(taken, rest') && Count(rest') <= Count(rest)
        invariant NodeKept(t0.links, links, m)
        invariant Walked(src, t0, Snap(), first, m, q, taken, kids', menu, rest')
        invariant Recorded(src, given, v0, visits, taken, shape, kids', rest')
        invariant AdoptionRight(src, given, m, Tops(kids'), Nil) && PromptCond(src, given, m, None) == base
        invariant if kids' == Nil then last == NULL else last == LastTop(kids') && last != NULL
        decreases Count(rest')
      {
        PendingFront(src, t0, Snap(), first, m, q, taken, kids', menu, rest');
        var inside := InSubmenu(menu, s, test, base);
        AdoptionStep(src, Now(), m, s, base, Tops(kids'), rest', inside);
        if !inside { break; }
        ghost var given0, tops := given, Tops(kids') + {menu};
        taken, kids', rest', shape := AdoptNext(t0, m, first, q, taken, kids', menu, rest', v0, shape);
        AdoptionKept(src, given0, given, m, tops, base);
        last := menu;
        menu := links.next[menu];
      }
      if menu == NULL { ChainAtNull(links, rest'); }
      cur := menu;
    }

    /** Gives the topmost nodes of a chain the parent `p` and returns the last of them. */
    method Reparent(first: int, p: int, ghost f: Forest) returns (last: int)
      requires f.Tree? && Unique(f) && Chain(links, first, f, NULL)
      modifies `links
      ensures links.list == old(links).list && links.next == old(links).next
      ensures links.parent.Keys == old(links).parent.Keys
      ensures forall id :: id in links.parent ==>
        links.parent[id] == if id in Tops(f) then p else old(links).parent[id]
      ensures last == LastTop(f)
    {
      last := first;
      ghost var todo := f;
      while true
        invariant todo.Tree? && Unique(todo) && Chain(links, last, todo, NULL)
        invariant LastTop(todo) == LastTop(f) && Tops(todo) <= Tops(f)
        invariant links.list == old(links).list && links.next == old(links).next
        invariant links.parent.Keys == old(links).parent.Keys
        invariant forall id :: id in links.parent ==>
          links.parent[id] == if id in Tops(f) && id !in Tops(todo) then p else old(links).parent[id]
        decreases todo
      {
        ghost var l1 := links;
        links := links.(parent := links.parent[last := p]);
        SameLists(l1, links, last, todo, NULL);
        TopsAreIds(todo.rest);
        if links.next[last] == NULL {
          ChainAtNull(links, todo.rest);
          break;
        }
        last := links.next[last];
        todo := todo.rest;
      }
    }

    /** The test of the choice of `m` for the node `menu`. */
    method AddTest(m: int, menu: int)
      requires IsMember(src, m, menu) && AddsTest(src, Visit(m, menu)) && menu in conds && menu !in choiceOf
      requires GivenAndTest(Now())
      modifies `conds, `choiceOf
      ensures conds.Keys == old(conds).Keys && GivenAndTest(Now())
      ensures AllSteps(src, old(Now()), Now(), {menu})
      ensures choiceOf == old(choiceOf)[menu := SymOf(src, m).value]
    {
      hide WithChoice;
      conds := conds[menu := WithChoice(conds[menu], src.nodes[m].sym.value)];
      choiceOf := choiceOf[menu := src.nodes[m].sym.value];
    }

    /** Makes the symbol of `menu` a member of the choice `m`, with the extra test for booleans in tristate choices. */
    method AddMember(m: int, menu: int)
      requires m in src.nodes && menu in src.nodes && Marked(src, Now(), members, visits)
      modifies `conds, `members, `choiceOf, `visits
      ensures Marked(src, Now(), members, visits)
      ensures AllSteps(src, old(Now()), Now(), {menu})
      ensures visits == old(visits) + if IsMember(src, m, menu) then [Visit(m, menu)] else []
    {
      hide WithChoice, CondStep, SameCond, GivenAndTest, MembersOf, ChoiceTests;
      StepsOfNothing(src, Now(), {menu});
      var s := src.nodes[menu].sym;
      if IsMember(src, m, menu) {
        TestedAreMembers(src, visits);
        VisitStep(src, visits, Visit(m, menu));
        visits := visits + [Visit(m, menu)];
      }
      if src.IsChoiceNode(m) && s.Some? && s.value !in members {
        var choice := src.nodes[m].sym.value;
        members := members + {s.value};
        if choice.Kind() == TristateType && s.value.Kind() != TristateType {
          AddTest(m, menu);
        }
      }
    }

    /** One round of the last loop: registers `menu` as a member and flattens it if it has no prompt text. */
    method FlattenNext(m: int, ghost t0: Snapshot, ghost first: int, ghost kids: Forest,
                       ghost done: Forest, menu: int, ghost todo: Forest, ghost v0: seq<Visit>)
      returns (ghost done': Forest, ghost todo': Forest)
      requires menu != NULL && Flattening(src, t0, Snap(), first, m, kids, done, menu, todo)
      requires FlatSoFar(src, v0, visits, m, kids, done, todo)
      requires links.Has(m) && m in src.nodes && m !in Ids(kids) && Ids(kids) <= src.nodes.Keys
      requires Marked(src, Now(), members, visits)
      modifies `links, `conds, `members, `choiceOf, `visits
      ensures Marked(src, Now(), members, visits)
      ensures links.Has(menu) && Flattening(src, t0, Snap(), first, m, kids, done', links.next[menu], todo')
      ensures FlatSoFar(src, v0, visits, m, kids, done', todo')
      ensures links.Has(m) && links.list[m] == old(links).list[m]
      ensures Count(todo') < Count(todo)
    {
      hide AllSteps, Marked, Preorder, Parented, Ids, SameOutside, Unique, LastTop, Tops, Flattening, FlatSoFar,
           IsMember;
      ghost var t1, v1 := Snap(), visits;
      FlatteningFront(src, t0, t1, first, m, kids, done, menu, todo);
      ghost var k, r := todo.kids, todo.rest;
      AddMember(m, menu);
      MemberStep(src, t0.state, t1.state, Now(), menu, Ids(kids));
      FlatSoFarStep(src, v0, v1, visits, m, kids, done, menu, k, r);
      if links.list[menu] != NULL && !src.nodes[menu].titled {
        assert k.Tree?;
        var last := Reparent(links.list[menu], m, k);
        FlatteningFlat(src, t0, t1, links, Now(), first, m, kids, done, menu, k, r);
        links := links.(next := links.next[last := links.next[menu]]);
        links := links.(next := links.next[menu := links.list[menu]]);
        links := links.(list := links.list[menu := NULL]);
        CountAppend(k, r);
        done', todo' := Append(done, Tree(menu, Nil, Nil)), Append(k, r);
      } else {
        if links.list[menu] == NULL { ChainAtNull(links, k); }
        FlatteningPass(src, t0, t1, Now(), first, m, kids, done, menu, k, r);
        done', todo' := Append(done, Tree(menu, k, Nil)), r;
      }
    }

    /** The last loop of finalisation: registers choice members and flattens children without a prompt text. */
    method Flatten(m: int, ghost kids: Forest) returns (ghost kids': Forest)
      requires links.Has(m) && m in src.nodes && m !in Ids(kids) && Ids(kids) <= src.nodes.Keys
      requires Chain(links, links.list[m], kids, NULL) && Unique(kids) && Parented(links, m, kids)
      requires Marked(src, Now(), members, visits)
      modifies `links, `conds, `members, `choiceOf, `visits
      ensures Marked(src, Now(), members, visits)
      ensures links.Has(m) && Chain(links, links.list[m], kids', NULL) && Parented(links, m, kids')
      ensures Unique(kids') && Ids(kids') == Ids(kids) && Preorder(kids') == Preorder(kids)
      ensures kids' == FlatTop(src, kids) && visits == old(visits) + TopVisits(src, m, kids')
      ensures SameOutside(old(links), links, Ids(kids))
      ensures AllSteps(src, old(Now()), Now(), Ids(kids))
    {
      hide Marked, TopVisits;
      var menu := links.list[m];
      ghost var t0, v0 := Snap(), visits;
      ghost var first, done, todo := menu, Nil, kids;
      FlatStart(src, visits, m, kids);
      while menu != NULL
        invariant Marked(src, Now(), members, visits)
        invariant links.Has(m) && links.list[m] == first
        invariant Flattening(src, t0, Snap(), first, m, kids, done, menu, todo)
        invariant FlatSoFar(src, v0, visits, m, kids, done, todo)
        decreases Count(todo)
      {
        done, todo := FlattenNext(m, t0, first, kids, done, menu, todo, v0);
        menu := links.next[menu];
      }
      ChainAtNull(links, todo);
      AppendNil(done);
      kids' := done;
    }

    /** Pushes the dependency of `m` down to its children and finalises these. */
    method FinalizeBelow(m: int, ghost q: int, ghost kids: Forest, ghost rest: Forest)
      returns (ghost inner: Forest, ghost shape: Forest)
      requires kids.Tree? && Chain(links, m, Tree(m, kids, rest), NULL)
      requires Pending(src, links, Now(), q, Tree(m, kids, rest)) && Marked(src, Now(), members, visits)
      modifies this
      ensures Marked(src, Now(), members, visits)
      ensures BelowFinalized(src, old(Snap()), Snap(), m, kids, Nil, inner, rest)
      ensures Recorded(src, given, old(visits), visits, kids, shape, inner, Nil)
      decreases Count(Tree(m, kids, rest)), 1
    {
      hide Marked, Recorded, Preorder, CondStep, SameCond, Extends, BelowDone, TopsDone, Meant;
      ghost var t0 := Snap();
      log := log + [m];
      PropagateDeps(m, kids);
      ghost var t1 := Snap();
      inner, shape := FinalizeChildren(m, kids);
      WalkedAll(src, t1, Snap(), m, kids, inner, rest);
      ChildrenDone(src, t0.state, t1.state, Now(), m, kids);
      AppendNil(kids);
    }

    /** Finalisation of a node that has children. */
    method FinalizeParent(m: int, ghost q: int, ghost kids: Forest, ghost rest: Forest)
      returns (ghost kids': Forest, ghost shape: Forest)
      requires kids.Tree? && Chain(links, m, Tree(m, kids, rest), NULL)
      requires Pending(src, links, Now(), q, Tree(m, kids, rest)) && Marked(src, Now(), members, visits)
      modifies this
      ensures Marked(src, Now(), members, visits)
      ensures Finalized(src, old(Snap()), Snap(), m, kids, Nil, kids', rest)
      ensures Recorded(src, given, old(visits), visits,
                       Tree(m, kids, Nil), Tree(m, shape, Nil), Tree(m, kids', Nil), rest)
      decreases Count(Tree(m, kids, rest)), 2
    {
      ghost var t0, v0 := Snap(), visits;
      ReadyNodes(src, Now(), Tree(m, kids, rest));
      assert Append(Nil, rest) == rest && Ids(Tree(m, kids, Nil)) <= src.nodes.Keys;
      assert Unique(Tree(m, kids, Append(Nil, rest)));
      hide *;
      ghost var inner;
      inner, shape := FinalizeBelow(m, q, kids, rest);
      ghost var t2, v2 := Snap(), visits;
      BelowFacts(src, t0, t2, m, kids, Nil, inner, rest);
      kids' := Flatten(m, inner);
      FinalizedByFlattening(src, t0, t2, Snap(), m, kids, Nil, inner, kids', rest);
      GivenKept(src, t2.state, Now(), Ids(inner));
      RecordedParent(src, given, v0, v2, visits, m, kids, shape, inner, kids', rest);
    }

    /** Finalisation of a node without children: a symbol may get the items after it as a submenu. */
    method FinalizeLeaf(m: int, ghost q: int, ghost rest: Forest)
      returns (ghost kids': Forest, ghost moved: Forest, ghost rest': Forest, ghost shape: Forest)
      requires links.Has(m) && links.list[m] == NULL && Chain(links, m, Tree(m, Nil, rest), NULL)
      requires Pending(src, links, Now(), q, Tree(m, Nil, rest)) && Marked(src, Now(), members, visits)
      modifies this
      ensures Marked(src, Now(), members, visits)
      ensures rest == Append(moved, rest')
      ensures Finalized(src, old(Snap()), Snap(), m, Nil, moved, kids', rest')
      ensures Recorded(src, given, old(visits), visits,
                       Tree(m, Nil, moved), Tree(m, shape, Nil), Tree(m, kids', Nil), rest')
      decreases Count(Tree(m, Nil, rest)), 1
    {
      hide Marked, Recorded, TopVisits, AdoptionRight, Preorder, CondStep, SameCond, FlatTop, BelowDone, Meant,
           Extends, Finalized;
      ghost var t0, v0 := Snap(), visits;
      log := log + [m];
      ReadyNodes(src, Now(), rest);
      ghost var inner;
      moved, inner, rest', shape := MakeSubmenu(m, q, rest);
      ghost var t2, v2 := Snap(), visits;
      AppendFacts(moved, rest');
      AdoptedDone(src, t0.state, t2.state, m, moved);
      BelowFacts(src, t0, t2, m, Nil, moved, inner, rest');
      kids' := Flatten(m, inner);
      FinalizedByFlattening(src, t0, t2, Snap(), m, Nil, moved, inner, kids', rest');
      GivenKept(src, t2.state, Now(), Ids(inner));
      RecordedLeaf(src, given, v0, v2, visits, m, moved, shape, inner, kids', rest');
    }

    /** Automatic submenu creation. */
    method MakeSubmenu(m: int, ghost q: int, ghost rest: Forest)
      returns (ghost moved: Forest, ghost inner: Forest, ghost rest': Forest, ghost shape: Forest)
      requires links.Has(m) && links.list[m] == NULL && TopReady(src, Now(), m)
      requires m !in Ids(rest) && Chain(links, links.next[m], rest, NULL)
      requires Pending(src, links, Now(), q, rest) && Marked(src, Now(), members, visits)
      modifies this
      ensures Marked(src, Now(), members, visits)
      ensures rest == Append(moved, rest')
      ensures links.Has(m) && links.parent[m] == old(links).parent[m]
      ensures Chain(links, links.list[m], inner, NULL) && Chain(links, links.next[m], rest', NULL)
      ensures Parented(links, m, inner)
      ensures SameOutside(old(links), links, {m} + Ids(inner))
      ensures Reordered(old(log), log, moved, inner) && Conditioned(src, old(Now()), Now(), moved)
      ensures Recorded(src, given, old(visits), visits, moved, shape, inner, rest')
      ensures if SymOf(src, m).None? then shape == Nil else AdoptionRight(src, given, m, Tops(shape), rest')
      decreases Count(rest), 8
    {
      assert m in src.nodes;
      hide Marked, Count, Walked, Reordered, Conditioned, ReadyConds, Recorded, AdoptionRight, TopReady;
      if src.nodes[m].sym.Some? {
        moved, inner, rest', shape := AdoptSubmenu(m, src.nodes[m].sym.value, q, rest);
      } else {
        moved, inner, rest', shape := Nil, Nil, rest, Nil;
        WalkStart(src, Snap(), links.next[m], m, q, rest);
        RecordedNothing(src, given, visits, rest);
        AdoptedWalk(src, Snap(), Snap(), links.next[m], m, q, Nil, Nil, links.next[m], rest);
      }
    }

    /** The items after the symbol `sym` that belong to its submenu become its children. */
    method AdoptSubmenu(m: int, sym: Symbol, ghost q: int, ghost rest: Forest)
      returns (ghost moved: Forest, ghost inner: Forest, ghost rest': Forest, ghost shape: Forest)
      requires links.Has(m) && links.list[m] == NULL && TopReady(src, Now(), m) && SymOf(src, m) == Some(sym)
      requires m !in Ids(rest) && Chain(links, links.next[m], rest, NULL)
      requires Pending(src, links, Now(), q, rest) && Marked(src, Now(), members, visits)
      modifies this
      ensures Marked(src, Now(), members, visits)
      ensures rest == Append(moved, rest')
      ensures links.Has(m) && links.parent[m] == old(links).parent[m]
      ensures Chain(links, links.list[m], inner, NULL) && Chain(links, links.next[m], rest', NULL)
      ensures Parented(links, m, inner)
      ensures SameOutside(old(links), links, {m} + Ids(inner))
      ensures Reordered(old(log), log, moved, inner) && Conditioned(src, old(Now()), Now(), moved)
      ensures Recorded(src, given, old(visits), visits, moved, shape, inner, rest')
      ensures AdoptionRight(src, given, m, Tops(shape), rest')
      decreases Count(rest), 7
    {
      assert m in src.nodes;
      hide Marked, Count, Walked, Reordered, Conditioned, Recorded, AdoptionRight, TopReady, Chain, Parented, Pending;
      hide Ids, Tops, LastTop, Append, SameOutside, Unique, Extends;
      ghost var t0 := Snap();
      var last;
      ghost var cur;
      last, cur, moved, inner, rest', shape := AdoptFollowing(m, sym, q, rest);
      AdoptedWalk(src, t0, Snap(), links.next[m], m, q, moved, inner, cur, rest');
      ShapeTops(src, given, old(visits), visits, moved, shape, inner, rest');
      ghost var t1 := Snap();
      RelinkSubmenu(m, last, cur, inner, rest');
      OutsideBoth(t0.links, t1.links, links, Ids(inner), m);
    }

    /** Hangs the adopted chain `inner`, which ends with `last`, below `m`. */
    method RelinkSubmenu(m: int, last: int, ghost cur: int, ghost inner: Forest, ghost rest': Forest)
      requires links.Has(m) && links.list[m] == NULL && Unique(Tree(m, inner, rest'))
      requires Chain(links, links.next[m], inner, cur) && Chain(links, cur, rest', NULL) && Parented(links, m, inner)
      requires if inner == Nil then last == NULL else last == LastTop(inner) && last != NULL
      modifies `links
      ensures links.Has(m) && links.parent == old(links).parent && Parented(links, m, inner)
      ensures Chain(links, links.list[m], inner, NULL) && Chain(links, links.next[m], rest', NULL)
      ensures SameOutside(old(links), links, {m} + Ids(inner))
    {
      if last != NULL {
        FinishAdoption(links, m, inner, rest', cur);
        links := links.(list := links.list[m := links.next[m]]);
        links := links.(next := links.next[m := links.next[last]]);
        links := links.(next := links.next[last := NULL]);
      }
    }

    /**
     * menu_finalize: `m` has the children `kids` and is followed by `rest`, whose
     * beginning `moved` may become children of `m`.
     */
    method Finalize(m: int, ghost q: int, ghost kids: Forest, ghost rest: Forest)
      returns (ghost kids': Forest, ghost moved: Forest, ghost rest': Forest, ghost shape: Forest)
      requires Chain(links, m, Tree(m, kids, rest), NULL)
      requires Pending(src, links, Now(), q, Tree(m, kids, rest)) && Marked(src, Now(), members, visits)
      modifies this
      ensures Marked(src, Now(), members, visits)
      ensures rest == Append(moved, rest')
      ensures Finalized(src, old(Snap()), Snap(), m, kids, moved, kids', rest')
      ensures Recorded(src, given, old(visits), visits,
                       Tree(m, kids, moved), Tree(m, shape, Nil), Tree(m, kids', Nil), rest')
      decreases Count(Tree(m, kids, rest)), 3
    {
      hide Marked, Recorded, Pending, Finalized;
      if links.list[m] != NULL {
        kids', shape := FinalizeParent(m, q, kids, rest);
        moved, rest' := Nil, rest;
      } else {
        ChainAtNull(links, kids);
        kids', moved, rest', shape := FinalizeLeaf(m, q, rest);
      }
    }
  }

  /** A menu tree as the parser leaves it: every node once, every parent right, no dependency on the root. */
  ghost predicate Parsed(src: Source, links: Links, root: int, kids: Forest) {
    var tree := Tree(root, kids, Nil);
    && Chain(links, root, tree, NULL) && Unique(tree)
    && Parented(links, NULL, tree)
    && Ids(tree) <= src.nodes.Keys
    && src.nodes[root].dep.None?
  }

  /** The conditions as parsed; the root is given its own. */
  function AsWritten(src: Source, root: int): State {
    State(map id | id in src.nodes :: Cond(src.nodes[id].dep, src.nodes[id].conds), map[],
          map id | id in src.nodes && id == root :: Cond(src.nodes[id].dep, src.nodes[id].conds))
  }

  lemma ParsedIsPending(src: Source, links: Links, root: int, kids: Forest)
    requires Parsed(src, links, root, kids)
    ensures Pending(src, links, AsWritten(src, root), NULL, Tree(root, kids, Nil))
    ensures Marked(src, AsWritten(src, root), {}, [])
  {
    var s := AsWritten(src, root);
    forall id | id in Ids(kids) ensures FreshAt(src, s, id) {
      assert id in src.nodes;
    }
  }

  lemma RootDone(src: Source, s: State, root: int, kids: Forest, v: Valuation)
    requires root in src.nodes && src.nodes[root].dep.None?
    requires BelowDone(src, AsWritten(src, root), s, v, Tree(root, kids, Nil))
    ensures DepsDone(src, s, v, kids, ValueAbove(src, root, YES, v))
  {
    hide DepsDone;
  }

  lemma RootOrder(log: seq<int>, root: int, kids: Forest, kids': Forest)
    requires Reordered([], log, Tree(root, kids, Nil), Tree(root, kids', Nil))
    ensures Preorder(kids') == Preorder(kids) && log == Preorder(Tree(root, kids, Nil))
  {
    assert log == [] + Preorder(Tree(root, kids, Nil));
    assert Preorder(Tree(root, kids, Nil))[1..] == Preorder(kids);
    assert Preorder(Tree(root, kids', Nil))[1..] == Preorder(kids');
  }

  lemma RootGiven(src: Source, given: map<int, Cond>, root: int, kids: Forest)
    requires root in src.nodes && Extends(AsWritten(src, root).given, given)
    requires Ids(Tree(root, kids, Nil)) - Tops(Tree(root, kids, Nil)) <= given.Keys
    ensures Ids(Tree(root, kids, Nil)) <= given.Keys
  {
    assert root in AsWritten(src, root).given;
    forall id | id in Ids(Tree(root, kids, Nil)) ensures id in given {
      assert id == root || id in Ids(Tree(root, kids, Nil)) - Tops(Tree(root, kids, Nil));
    }
  }

  /** What was recorded for the root, in terms of its children. */
  lemma RecordedRoot(src: Source, s: State, members: set<Symbol>, visits: seq<Visit>,
                     root: int, kids: Forest, shape: Forest, kids': Forest)
    requires Unique(Tree(root, kids, Nil)) && Marked(src, s, members, visits)
    requires Recorded(src, s.given, [], visits,
                      Tree(root, kids, Nil), Tree(root, shape, Nil), Tree(root, kids', Nil), Nil)
    ensures visits == VisitsOf(src, Tree(root, shape, Nil))
    ensures ChoicesRight(src, Tree(root, shape, Nil), members, s.choiceOf)
    ensures ChildrenRight(src, Tree(root, kids', Nil), members, s.choiceOf)
    ensures Adopts(src, s.given, kids, shape, Nil) && Unique(Tree(root, shape, Nil))
    ensures kids' == Flat(src, shape) && ParentsTitled(src, kids')
  {
    hide ChoicesRight, ChildrenRight, Flat, VisitsOf, MembersOf, ChoiceTests, GivenAndTest, AdoptionRight, Ids,
         Preorder, Unique;
    assert [] + VisitsOf(src, Tree(root, shape, Nil)) == VisitsOf(src, Tree(root, shape, Nil));
    ChoicesOfTree(src, Tree(root, shape, Nil));
    AdoptsKeepsOrder(src, s.given, Tree(root, kids, Nil), Tree(root, shape, Nil), Nil);
    ChildrenOfTree(src, Tree(root, shape, Nil), members, s.choiceOf);
    FlatTitled(src, shape);
  }

  lemma FinalizedRoot(src: Source, t0: Snapshot, t: Snapshot, root: int, kids: Forest, kids': Forest)
    requires root in src.nodes && src.nodes[root].dep.None? && t0.state == AsWritten(src, root) && t0.log == []
    requires Finalized(src, t0, t, root, kids, Nil, kids', Nil)
    ensures Preorder(kids') == Preorder(kids) && t.log == Preorder(Tree(root, kids, Nil))
    ensures forall v :: Meant(src, v) ==> DepsDone(src, t.state, v, kids, ValueAbove(src, root, YES, v))
    ensures Ids(Tree(root, kids, Nil)) <= t.state.given.Keys
  {
    RootGiven(src, t.state.given, root, kids);
    hide DepsDone, BelowDone, Chain, Parented, Reordered, AsWritten, ValueAbove, Preorder, Meant;
    RootOrder(t.log, root, kids, kids');
    forall v | Meant(src, v) ensures DepsDone(src, t.state, v, kids, ValueAbove(src, root, YES, v)) {
      RootDone(src, t.state, root, kids, v);
    }
  }

  /**
   * Finalising a whole tree only re-parents: the nodes in document order are the
   * same, each was finalised exactly once and in that order, and each knows the
   * parent it now hangs below. In a source without tests against constants that
   * read as 0, 1 or 2, every node has the conditions that the original structure
   * prescribes, and those of the choice that `choiceOf` names. The tree `shape` is the
   * original one after the adoption of submenus, the final one is `shape` flattened.
   * It decides which symbols are members and which nodes have the test of which choice.
   */
  method FinalizeTree(src: Source, links: Links, root: int, ghost kids: Forest)
    returns (t: MenuTree, ghost kids': Forest, ghost shape: Forest)
    requires Parsed(src, links, root, kids)
    ensures t.src == src && Chain(t.links, root, Tree(root, kids', Nil), NULL)
    ensures Parented(t.links, NULL, Tree(root, kids', Nil))
    ensures Preorder(kids') == Preorder(kids)
    ensures t.log == Preorder(Tree(root, kids, Nil))
    ensures forall i, j :: 0 <= i < j < |t.log| ==> t.log[i] != t.log[j]
    ensures forall v :: Meant(src, v) ==> DepsDone(src, t.Now(), v, kids, ValueAbove(src, root, YES, v))
    ensures Marked(src, t.Now(), t.members, t.visits) && t.visits == VisitsOf(src, Tree(root, shape, Nil))
    ensures ChoicesRight(src, Tree(root, shape, Nil), t.members, t.choiceOf)
    ensures ChildrenRight(src, Tree(root, kids', Nil), t.members, t.choiceOf)
    ensures Ids(Tree(root, kids, Nil)) <= t.given.Keys
    ensures Adopts(src, t.given, kids, shape, Nil) && Unique(Tree(root, shape, Nil))
    ensures kids' == Flat(src, shape) && ParentsTitled(src, kids')
  {
    hide DepsDone, Marked, Count, Walked, Ids, BelowDone, Reordered, SameOutside, Meant, Recorded, VisitsOf, Adopts;
    ParsedIsPending(src, links, root, kids);
    UniquePreorder(Tree(root, kids, Nil));
    t := new MenuTree(src, links, root);
    ghost var t0 := t.Snap();
    ghost var moved, rest';
    kids', moved, rest', shape := t.Finalize(root, NULL, kids, Nil);
    FinalizedRoot(src, t0, t.Snap(), root, kids, kids');
    RecordedRoot(src, t.Now(), t.members, t.visits, root, kids, shape, kids');
  }
}
