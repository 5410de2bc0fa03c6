/**
 * Which nodes the last loop of menu_finalize (scripts/config/menu.c) makes members
 * of which choice, and the shape that flattening leaves behind.
 */
module MenuChoices {
  import opened Basics
  import opened Exprs
  import opened ExprSame
  import opened ExprTransform
  import opened MenuLinks
  import opened MenuDeps

  /** A round of the last loop: `child` was found below the choice node `choice`. */
  datatype Visit = Visit(choice: int, child: int)

  function SymOf(src: Source, id: int): Option<Symbol> {
    if id in src.nodes then src.nodes[id].sym else None
  }

  /** A child with a symbol below a choice node. */
  predicate IsMember(src: Source, choice: int, child: int) {
    src.IsChoiceNode(choice) && SymOf(src, child).Some?
  }

  // ----- members and tests, from the rounds of the last loop -----

  /** The symbols that have become choice values. */
  function MembersOf(src: Source, visits: seq<Visit>): set<Symbol> {
    if visits == [] then {}
    else
      var v := visits[|visits| - 1];
      MembersOf(src, visits[..|visits| - 1])
      + if IsMember(src, v.choice, v.child) then {SymOf(src, v.child).value} else {}
  }

  /** A round that adds the test of the choice: the choice is tristate, the child is not. */
  predicate AddsTest(src: Source, v: Visit) {
    && IsMember(src, v.choice, v.child)
    && SymOf(src, v.choice).value.Kind() == TristateType && SymOf(src, v.child).value.Kind() != TristateType
  }

  /** The choice whose test each node has got: that of the first round for the symbol of the node. */
  function ChoiceTests(src: Source, visits: seq<Visit>): map<int, Symbol> {
    if visits == [] then map[]
    else
      var v, before := visits[|visits| - 1], visits[..|visits| - 1];
      if AddsTest(src, v) && SymOf(src, v.child).value !in MembersOf(src, before)
      then ChoiceTests(src, before)[v.child := SymOf(src, v.choice).value]
      else ChoiceTests(src, before)
  }

  /** Round `j` is the first one for the symbol of its child. */
  predicate FirstFor(src: Source, visits: seq<Visit>, j: int) {
    && 0 <= j < |visits| && IsMember(src, visits[j].choice, visits[j].child)
    && forall i :: 0 <= i < j && IsMember(src, visits[i].choice, visits[i].child) ==>
         SymOf(src, visits[i].child) != SymOf(src, visits[j].child)
  }

  lemma {:induction false} MembersAreVisited(src: Source, visits: seq<Visit>)
    ensures forall s :: s in MembersOf(src, visits) <==>
      exists j :: 0 <= j < |visits| && IsMember(src, visits[j].choice, visits[j].child)
                  && SymOf(src, visits[j].child).value == s
  {
    if visits != [] {
      var n := |visits| - 1;
      MembersAreVisited(src, visits[..n]);
      forall s | s in MembersOf(src, visits)
        ensures exists j :: 0 <= j < |visits| && IsMember(src, visits[j].choice, visits[j].child)
                            && SymOf(src, visits[j].child).value == s
      {
        if s in MembersOf(src, visits[..n]) {
          var j :| 0 <= j < n && IsMember(src, visits[..n][j].choice, visits[..n][j].child)
                   && SymOf(src, visits[..n][j].child).value == s;
          assert visits[j] == visits[..n][j];
        } else {
          assert IsMember(src, visits[n].choice, visits[n].child);
        }
      }
      forall j | 0 <= j < |visits| && IsMember(src, visits[j].choice, visits[j].child)
        ensures SymOf(src, visits[j].child).value in MembersOf(src, visits)
      {
        if j < n { assert visits[..n][j] == visits[j]; }
      }
    }
  }

  /**
   * A node has a test exactly if the first round for its symbol was its own, and then that of the
   * choice of that round.
   */
  lemma {:induction false} TestsAreFirst(src: Source, visits: seq<Visit>)
    ensures forall id :: id in ChoiceTests(src, visits) ==>
      exists j :: FirstFor(src, visits, j) && AddsTest(src, visits[j]) && visits[j].child == id
    ensures forall j :: FirstFor(src, visits, j) && AddsTest(src, visits[j]) ==>
      && visits[j].child in ChoiceTests(src, visits)
      && ChoiceTests(src, visits)[visits[j].child] == SymOf(src, visits[j].choice).value
  {
    if visits != [] {
      var n := |visits| - 1;
      var before, v := visits[..n], visits[n];
      TestsAreFirst(src, before);
      MembersAreVisited(src, before);
      FirstBefore(src, visits);
      forall id | id in ChoiceTests(src, visits)
        ensures exists j :: FirstFor(src, visits, j) && AddsTest(src, visits[j]) && visits[j].child == id
      {
        if AddsTest(src, v) && SymOf(src, v.child).value !in MembersOf(src, before) && id == v.child {
          LastIsFirst(src, visits);
        } else {
          assert id in ChoiceTests(src, before);
          var j :| FirstFor(src, before, j) && AddsTest(src, before[j]) && before[j].child == id;
          assert FirstFor(src, visits, j) && visits[j] == before[j];
        }
      }
      forall j | FirstFor(src, visits, j) && AddsTest(src, visits[j])
        ensures visits[j].child in ChoiceTests(src, visits)
        ensures ChoiceTests(src, visits)[visits[j].child] == SymOf(src, visits[j].choice).value
      {
        if j == n {
          LastIsFirst(src, visits);
        } else {
          assert FirstFor(src, before, j) && before[j] == visits[j];
          assert SymOf(src, v.child) == SymOf(src, visits[j].child) ==>
            SymOf(src, visits[j].child).value in MembersOf(src, before);
        }
      }
    }
  }

  lemma TestedAreMembers(src: Source, visits: seq<Visit>)
    ensures forall id :: id in ChoiceTests(src, visits) ==>
      SymOf(src, id).Some? && SymOf(src, id).value in MembersOf(src, visits)
  {
    TestsAreFirst(src, visits);
    MembersAreVisited(src, visits);
  }

  lemma FirstBefore(src: Source, visits: seq<Visit>)
    requires visits != []
    ensures forall j :: 0 <= j < |visits| - 1 ==>
      (FirstFor(src, visits, j) <==> FirstFor(src, visits[..|visits| - 1], j))
  {
  }

  lemma LastIsFirst(src: Source, visits: seq<Visit>)
    requires visits != [] && IsMember(src, visits[|visits| - 1].choice, visits[|visits| - 1].child)
    ensures FirstFor(src, visits, |visits| - 1)
       <==> SymOf(src, visits[|visits| - 1].child).value !in MembersOf(src, visits[..|visits| - 1])
  {
    var before := visits[..|visits| - 1];
    MembersAreVisited(src, before);
    assert forall i :: 0 <= i < |before| ==> before[i] == visits[i];
  }

  // ----- flattening -----

  /** The last loop on a chain: children of nodes without a prompt text become their following siblings. */
  function FlatTop(src: Source, f: Forest): Forest
    decreases Count(f)
  {
    match f
    case Nil => Nil
    case Tree(id, kids, rest) =>
      CountAppend(kids, rest);
      if kids.Tree? && !Titled(src, id) then Tree(id, Nil, FlatTop(src, Append(kids, rest)))
      else Tree(id, kids, FlatTop(src, rest))
  }

  predicate Titled(src: Source, id: int) { id in src.nodes && src.nodes[id].titled }

  /** Flattening at all levels, and at all levels but the topmost one. */
  function Flat(src: Source, f: Forest): Forest
    decreases f, 1
  {
    FlatTop(src, FlatBelow(src, f))
  }

  function FlatBelow(src: Source, f: Forest): Forest
    decreases f, 0
  {
    match f
    case Nil => Nil
    case Tree(id, kids, rest) => Tree(id, Flat(src, kids), FlatBelow(src, rest))
  }

  /** The rounds of the last loop of one node. */
  function TopVisits(src: Source, m: int, f: Forest): seq<Visit> {
    match f
    case Nil => []
    case Tree(id, _, rest) => (if IsMember(src, m, id) then [Visit(m, id)] else []) + TopVisits(src, m, rest)
  }

  /** The rounds of the last loops of all nodes, each after those of the nodes below it. */
  function VisitsOf(src: Source, f: Forest): seq<Visit> {
    match f
    case Nil => []
    case Tree(id, kids, rest) => VisitsOf(src, kids) + TopVisits(src, id, Flat(src, kids)) + VisitsOf(src, rest)
  }

  /** Every node that has children has a prompt text. */
  predicate ParentsTitled(src: Source, f: Forest) {
    match f
    case Nil => true
    case Tree(id, kids, rest) =>
      (kids.Tree? ==> Titled(src, id)) && ParentsTitled(src, kids) && ParentsTitled(src, rest)
  }

  /** The same below the topmost nodes. */
  predicate ParentsTitledBelow(src: Source, f: Forest) {
    f.Tree? ==> ParentsTitled(src, f.kids) && ParentsTitledBelow(src, f.rest)
  }

  lemma {:induction false} TitledAppend(src: Source, f: Forest, g: Forest)
    requires ParentsTitled(src, f) && ParentsTitledBelow(src, g)
    ensures ParentsTitledBelow(src, Append(f, g))
  {
    if f.Tree? { TitledAppend(src, f.rest, g); }
  }

  lemma {:induction false} FlatTopTitled(src: Source, f: Forest)
    requires ParentsTitledBelow(src, f)
    ensures ParentsTitled(src, FlatTop(src, f))
    decreases Count(f)
  {
    if f.Tree? {
      CountAppend(f.kids, f.rest);
      if f.kids.Tree? && !Titled(src, f.id) {
        TitledAppend(src, f.kids, f.rest);
        FlatTopTitled(src, Append(f.kids, f.rest));
      } else {
        FlatTopTitled(src, f.rest);
      }
    }
  }

  /** After flattening every node that still has children has a prompt text. */
  lemma {:induction false} FlatTitled(src: Source, f: Forest)
    ensures ParentsTitled(src, Flat(src, f)) && ParentsTitledBelow(src, FlatBelow(src, f))
    decreases f, 1
  {
    FlatBelowTitled(src, f);
    FlatTopTitled(src, FlatBelow(src, f));
  }

  lemma {:induction false} FlatBelowTitled(src: Source, f: Forest)
    ensures ParentsTitledBelow(src, FlatBelow(src, f))
    decreases f, 0
  {
    if f.Tree? {
      FlatTitled(src, f.kids);
      FlatBelowTitled(src, f.rest);
    }
  }

  lemma {:induction false} FlatBelowAppend(src: Source, f: Forest, g: Forest)
    ensures FlatBelow(src, Append(f, g)) == Append(FlatBelow(src, f), FlatBelow(src, g))
  {
    if f.Tree? { FlatBelowAppend(src, f.rest, g); }
  }

  lemma {:induction false} VisitsOfAppend(src: Source, f: Forest, g: Forest)
    ensures VisitsOf(src, Append(f, g)) == VisitsOf(src, f) + VisitsOf(src, g)
  {
    if f.Tree? {
      VisitsOfAppend(src, f.rest, g);
      ConcatVisits(VisitsOf(src, f.kids) + TopVisits(src, f.id, Flat(src, f.kids)),
                   VisitsOf(src, f.rest), VisitsOf(src, g));
    }
  }

  lemma ConcatVisits(a: seq<Visit>, b: seq<Visit>, c: seq<Visit>)
    ensures (a + b) + c == a + (b + c)
  {
  }

  lemma {:induction false} TopVisitsAppend(src: Source, m: int, f: Forest, g: Forest)
    ensures TopVisits(src, m, Append(f, g)) == TopVisits(src, m, f) + TopVisits(src, m, g)
  {
    if f.Tree? {
      TopVisitsAppend(src, m, f.rest, g);
      ConcatVisits(if IsMember(src, m, f.id) then [Visit(m, f.id)] else [],
                   TopVisits(src, m, f.rest), TopVisits(src, m, g));
    }
  }

  // ----- the choice of a node, in the tree -----

  /** The tree holds the node `m` with the children `k`. */
  predicate HasNode(f: Forest, m: int, k: Forest) {
    match f
    case Nil => false
    case Tree(id, kids, rest) => (id == m && kids == k) || HasNode(kids, m, k) || HasNode(rest, m, k)
  }

  /** The nodes that flattening leaves at the top of a chain: those reached through nodes without a prompt text. */
  function Shown(src: Source, f: Forest): set<int> {
    match f
    case Nil => {}
    case Tree(id, kids, rest) => {id} + (if Titled(src, id) then {} else Shown(src, kids)) + Shown(src, rest)
  }

  lemma {:induction false} FlatTopAppend(src: Source, f: Forest, g: Forest)
    ensures FlatTop(src, Append(f, g)) == Append(FlatTop(src, f), FlatTop(src, g))
    decreases Count(f)
  {
    if f.Tree? {
      CountAppend(f.kids, f.rest);
      if f.kids.Tree? && !Titled(src, f.id) {
        AppendAssociative(f.kids, f.rest, g);
        FlatTopAppend(src, Append(f.kids, f.rest), g);
      } else {
        FlatTopAppend(src, f.rest, g);
      }
    }
  }

  /** A flattened chain stays as it is. */
  lemma {:induction false} FlatTopOfTitled(src: Source, f: Forest)
    requires ParentsTitled(src, f)
    ensures FlatTop(src, f) == f
  {
    if f.Tree? { FlatTopOfTitled(src, f.rest); }
  }

  lemma {:induction false} FlatShows(src: Source, f: Forest)
    ensures Tops(Flat(src, f)) == Shown(src, f)
  {
    if f.Tree? {
      FlatShows(src, f.kids);
      FlatShows(src, f.rest);
      var k, r := Flat(src, f.kids), FlatBelow(src, f.rest);
      FlatTitled(src, f.kids);
      FlatTopOfTitled(src, k);
      FlatTopAppend(src, k, r);
      AppendIds(k, FlatTop(src, r));
      assert Flat(src, f) == FlatTop(src, Tree(f.id, k, r));
      assert Flat(src, f.rest) == FlatTop(src, r);
    }
  }

  lemma {:induction false} TopVisitsAre(src: Source, m: int, f: Forest, v: Visit)
    ensures v in TopVisits(src, m, f) <==> v.choice == m && v.child in Tops(f) && IsMember(src, m, v.child)
  {
    if f.Tree? { TopVisitsAre(src, m, f.rest, v); }
  }

  /** Below the choice node `m` of the tree the last loop meets the node `c` with a symbol. */
  ghost predicate Meets(src: Source, f: Forest, v: Visit) {
    IsMember(src, v.choice, v.child) && exists k :: HasNode(f, v.choice, k) && v.child in Shown(src, k)
  }

  lemma {:induction false} VisitsAreMeetings(src: Source, f: Forest, v: Visit)
    ensures v in VisitsOf(src, f) <==> Meets(src, f, v)
  {
    if f.Tree? {
      VisitsAreMeetings(src, f.kids, v);
      VisitsAreMeetings(src, f.rest, v);
      FlatShows(src, f.kids);
      TopVisitsAre(src, f.id, Flat(src, f.kids), v);
      forall k | HasNode(f.kids, v.choice, k) || HasNode(f.rest, v.choice, k) || (v.choice == f.id && k == f.kids)
        ensures HasNode(f, v.choice, k)
      {
      }
    }
  }

  /** No other round of a last loop is for the symbol of this one. */
  ghost predicate OnlyMeeting(src: Source, f: Forest, v: Visit) {
    forall w :: Meets(src, f, w) && SymOf(src, w.child) == SymOf(src, v.child) ==> w == v
  }

  /**
   * The members are the symbols of the nodes that the tree `f`, when flattened, shows below its
   * choice nodes. A test goes only to a node of a symbol that is never m, shown below a tristate
   * choice, and is for that choice; only one node of a symbol has one; and if the symbol is met
   * only once, that node has it.
   */
  ghost predicate ChoicesRight(src: Source, f: Forest, members: set<Symbol>, tests: map<int, Symbol>) {
    && (forall s :: s in members <==> exists v :: Meets(src, f, v) && SymOf(src, v.child) == Some(s))
    && (forall id :: id in tests ==>
          exists v :: Meets(src, f, v) && AddsTest(src, v) && v.child == id && Some(tests[id]) == SymOf(src, v.choice))
    && (forall id, id' :: id in tests && id' in tests && SymOf(src, id) == SymOf(src, id') ==> id == id')
    && (forall v :: Meets(src, f, v) && AddsTest(src, v) && OnlyMeeting(src, f, v) ==>
          v.child in tests && Some(tests[v.child]) == SymOf(src, v.choice))
  }

  lemma VisitAt(src: Source, f: Forest, v: Visit)
    requires Meets(src, f, v)
    ensures exists j :: 0 <= j < |VisitsOf(src, f)| && VisitsOf(src, f)[j] == v
  {
    VisitsAreMeetings(src, f, v);
  }

  lemma AtVisit(src: Source, f: Forest, j: nat)
    requires j < |VisitsOf(src, f)| && IsMember(src, VisitsOf(src, f)[j].choice, VisitsOf(src, f)[j].child)
    ensures Meets(src, f, VisitsOf(src, f)[j])
  {
    VisitsAreMeetings(src, f, VisitsOf(src, f)[j]);
  }

  lemma MembersOfTree(src: Source, f: Forest, s: Symbol)
    ensures s in MembersOf(src, VisitsOf(src, f)) <==> exists v :: Meets(src, f, v) && SymOf(src, v.child) == Some(s)
  {
    hide VisitsOf, MembersOf;
    var visits := VisitsOf(src, f);
    MembersAreVisited(src, visits);
    if s in MembersOf(src, visits) {
      var j :| 0 <= j < |visits| && IsMember(src, visits[j].choice, visits[j].child)
        && SymOf(src, visits[j].child).value == s;
      AtVisit(src, f, j);
    }
    if v :| Meets(src, f, v) && SymOf(src, v.child) == Some(s) { VisitAt(src, f, v); }
  }

  /** Of the rounds for one symbol only one is the first. */
  lemma OneIsFirst(src: Source, visits: seq<Visit>, i: int, j: int)
    requires FirstFor(src, visits, i) && FirstFor(src, visits, j)
    requires SymOf(src, visits[i].child) == SymOf(src, visits[j].child)
    ensures i == j
  {
  }

  lemma ChoicesOfTree(src: Source, f: Forest)
    ensures ChoicesRight(src, f, MembersOf(src, VisitsOf(src, f)), ChoiceTests(src, VisitsOf(src, f)))
  {
    hide VisitsOf, MembersOf, ChoiceTests, Meets;
    var visits := VisitsOf(src, f);
    var tests := ChoiceTests(src, visits);
    TestsAreFirst(src, visits);
    forall s ensures s in MembersOf(src, visits) <==> exists v :: Meets(src, f, v) && SymOf(src, v.child) == Some(s) {
      MembersOfTree(src, f, s);
    }
    forall id | id in tests
      ensures exists v ::
        Meets(src, f, v) && AddsTest(src, v) && v.child == id && Some(tests[id]) == SymOf(src, v.choice)
    {
      var j :| FirstFor(src, visits, j) && AddsTest(src, visits[j]) && visits[j].child == id;
      AtVisit(src, f, j);
    }
    forall id, id' | id in tests && id' in tests && SymOf(src, id) == SymOf(src, id') ensures id == id' {
      var i :| FirstFor(src, visits, i) && AddsTest(src, visits[i]) && visits[i].child == id;
      var j :| FirstFor(src, visits, j) && AddsTest(src, visits[j]) && visits[j].child == id';
      OneIsFirst(src, visits, i, j);
    }
    forall v | Meets(src, f, v) && AddsTest(src, v) && OnlyMeeting(src, f, v)
      ensures v.child in tests && Some(tests[v.child]) == SymOf(src, v.choice)
    {
      VisitAt(src, f, v);
      var k :| 0 <= k < |visits| && visits[k] == v;
      FirstExists(src, visits, k);
      var j :| FirstFor(src, visits, j) && SymOf(src, visits[j].child) == SymOf(src, v.child);
      AtVisit(src, f, j);
    }
  }

  lemma {:induction false} FirstExists(src: Source, visits: seq<Visit>, j: nat)
    requires j < |visits| && IsMember(src, visits[j].choice, visits[j].child)
    ensures exists i :: FirstFor(src, visits, i) && SymOf(src, visits[i].child) == SymOf(src, visits[j].child)
  {
    if !FirstFor(src, visits, j) {
      var i :| 0 <= i < j && IsMember(src, visits[i].choice, visits[i].child)
               && SymOf(src, visits[i].child) == SymOf(src, visits[j].child);
      FirstExists(src, visits, i);
    }
  }

  // ----- the final tree -----

  lemma {:induction false} HasNodeAppend(f: Forest, g: Forest, m: int, k: Forest)
    ensures HasNode(Append(f, g), m, k) <==> HasNode(f, m, k) || HasNode(g, m, k)
  {
    if f.Tree? { HasNodeAppend(f.rest, g, m, k); }
  }

  lemma {:induction false} FlatTopNodes(src: Source, f: Forest, m: int, k: Forest)
    requires k.Tree? && HasNode(FlatTop(src, f), m, k)
    ensures HasNode(f, m, k)
    decreases Count(f)
  {
    CountAppend(f.kids, f.rest);
    if f.kids.Tree? && !Titled(src, f.id) {
      FlatTopNodes(src, Append(f.kids, f.rest), m, k);
      HasNodeAppend(f.kids, f.rest, m, k);
    } else if HasNode(FlatTop(src, f.rest), m, k) {
      FlatTopNodes(src, f.rest, m, k);
    }
  }

  /** A node that still has children after flattening has those that flattening left at the top of its chain. */
  lemma {:induction false} FlatNodes(src: Source, f: Forest, m: int, k': Forest) returns (k: Forest)
    requires k'.Tree? && HasNode(FlatBelow(src, f), m, k')
    ensures HasNode(f, m, k) && k' == Flat(src, k)
  {
    if m == f.id && k' == Flat(src, f.kids) {
      k := f.kids;
    } else if HasNode(Flat(src, f.kids), m, k') {
      FlatTopNodes(src, FlatBelow(src, f.kids), m, k');
      k := FlatNodes(src, f.kids, m, k');
    } else {
      k := FlatNodes(src, f.rest, m, k');
    }
  }

  /** A child of a choice node in the final tree was met below it. */
  lemma FinalChildIsMet(src: Source, f: Forest, m: int, k': Forest, c: int)
    requires HasNode(FlatBelow(src, f), m, k') && c in Tops(k') && IsMember(src, m, c)
    ensures Meets(src, f, Visit(m, c))
  {
    var k := FlatNodes(src, f, m, k');
    FlatShows(src, k);
  }

  /** Every choice node has a prompt text. */
  ghost predicate ChoicesTitled(src: Source) {
    forall id :: src.IsChoiceNode(id) ==> Titled(src, id)
  }

  lemma {:induction false} ShownIsBelow(src: Source, f: Forest)
    ensures Shown(src, f) <= Ids(f)
  {
    if f.Tree? {
      ShownIsBelow(src, f.kids);
      ShownIsBelow(src, f.rest);
    }
  }

  lemma {:induction false} ShownOfNode(src: Source, f: Forest, m: int, k: Forest)
    requires HasNode(f, m, k)
    ensures m in Ids(f) && Shown(src, k) <= Ids(f)
  {
    ShownIsBelow(src, f.kids);
    if HasNode(f.kids, m, k) { ShownOfNode(src, f.kids, m, k); }
    else if HasNode(f.rest, m, k) { ShownOfNode(src, f.rest, m, k); }
  }

  /** What a node with a prompt text shows is not shown above it. */
  lemma {:induction false} NotShownAbove(src: Source, f: Forest, m: int, k: Forest, c: int)
    requires Unique(f) && HasNode(f, m, k) && Titled(src, m) && c in Shown(src, k)
    ensures c !in Shown(src, f)
  {
    ShownIsBelow(src, f.kids);
    ShownIsBelow(src, f.rest);
    if HasNode(f.kids, m, k) {
      ShownOfNode(src, f.kids, m, k);
      NotShownAbove(src, f.kids, m, k, c);
    } else if HasNode(f.rest, m, k) {
      ShownOfNode(src, f.rest, m, k);
      NotShownAbove(src, f.rest, m, k, c);
    }
  }

  /** No node is shown below two nodes with a prompt text. */
  lemma {:induction false} ShownBelowOne(src: Source, f: Forest, m: int, k: Forest, m': int, k': Forest, c: int)
    requires Unique(f) && HasNode(f, m, k) && HasNode(f, m', k') && Titled(src, m) && Titled(src, m')
    requires c in Shown(src, k) && c in Shown(src, k')
    ensures m == m'
  {
    if HasNode(f.kids, m, k) { ShownOfNode(src, f.kids, m, k); }
    if HasNode(f.kids, m', k') { ShownOfNode(src, f.kids, m', k'); }
    if HasNode(f.rest, m, k) { ShownOfNode(src, f.rest, m, k); }
    if HasNode(f.rest, m', k') { ShownOfNode(src, f.rest, m', k'); }
    ShownIsBelow(src, f.kids);
    if HasNode(f.kids, m, k) && HasNode(f.kids, m', k') {
      ShownBelowOne(src, f.kids, m, k, m', k', c);
    } else if HasNode(f.rest, m, k) && HasNode(f.rest, m', k') {
      ShownBelowOne(src, f.rest, m, k, m', k', c);
    } else if HasNode(f.kids, m, k) {
      NotShownAbove(src, f.kids, m, k, c);
    } else if HasNode(f.kids, m', k') {
      NotShownAbove(src, f.kids, m', k', c);
    }
  }

  /** The symbol of the node belongs to no other node. */
  ghost predicate OnlyNode(src: Source, c: int) {
    forall id :: SymOf(src, id) == SymOf(src, c) ==> id == c
  }

  /**
   * In the final tree `g` the symbols of the children of choice nodes are members, and where all
   * choices have a prompt text, a child of a tristate choice whose symbol is never m and belongs
   * to no other node has the test of that choice.
   */
  ghost predicate ChildrenRight(src: Source, g: Forest, members: set<Symbol>, tests: map<int, Symbol>) {
    forall m, k, c :: HasNode(g, m, k) && c in Tops(k) && IsMember(src, m, c) ==>
      && SymOf(src, c).value in members
      && (ChoicesTitled(src) && AddsTest(src, Visit(m, c)) && OnlyNode(src, c) ==>
            c in tests && Some(tests[c]) == SymOf(src, m))
  }

  lemma OnlyNodeIsMetOnce(src: Source, f: Forest, v: Visit)
    requires Unique(f) && ChoicesTitled(src) && Meets(src, f, v) && OnlyNode(src, v.child)
    ensures OnlyMeeting(src, f, v)
  {
    forall w | Meets(src, f, w) && SymOf(src, w.child) == SymOf(src, v.child) ensures w == v {
      var k :| HasNode(f, v.choice, k) && v.child in Shown(src, k);
      var l :| HasNode(f, w.choice, l) && w.child in Shown(src, l);
      ShownBelowOne(src, f, v.choice, k, w.choice, l, v.child);
    }
  }

  lemma ChildrenOfTree(src: Source, f: Forest, members: set<Symbol>, tests: map<int, Symbol>)
    requires ChoicesRight(src, f, members, tests) && Unique(f)
    ensures ChildrenRight(src, FlatBelow(src, f), members, tests)
  {
    hide Meets, HasNode, FlatBelow, Unique, ChoicesTitled, OnlyNode, OnlyMeeting;
    forall m, k, c | HasNode(FlatBelow(src, f), m, k) && c in Tops(k) && IsMember(src, m, c)
      ensures SymOf(src, c).value in members
      ensures ChoicesTitled(src) && AddsTest(src, Visit(m, c)) && OnlyNode(src, c) ==>
                c in tests && Some(tests[c]) == SymOf(src, m)
    {
      FinalChildIsMet(src, f, m, k, c);
      if ChoicesTitled(src) && OnlyNode(src, c) { OnlyNodeIsMetOnce(src, f, Visit(m, c)); }
    }
  }

  // ----- adoption -----

  /** Where the comparison with n that the test for submenus inserts is exact. */
  predicate ExactAt(e: Option<Expr>, v: Valuation) {
    e.Some? ==> Nnf(e.value) && LogicalLeaves(e.value) && NoModUnderNot(e.value, v)
  }

  /** An item with condition `dep` is visible only together with the symbol `s` or the prompt under `base`. */
  ghost predicate VisibleOnlyWith(dep: Option<Expr>, s: Symbol, base: Option<Expr>) {
    forall v :: WellFormed(v) && ExactAt(dep, v) && ExactAt(base, v) && EvalDep(dep, v) != NO ==>
      v.tri(s) != NO || EvalDep(base, v) != NO
  }

  /** An item that depends on the symbol outright. */
  predicate Absolute(dep: Option<Expr>, s: Symbol) { dep.Some? && DependsSymbol(dep.value, s) }

  /** Both conditions are as they come out of simplification. */
  ghost predicate Simplified(dep: Option<Expr>, base: Option<Expr>) {
    (dep.Some? ==> NothingToJoin(dep.value)) && (base.Some? ==> NothingToJoin(base.value))
  }

  /**
   * An item that has to go into the submenu of `s`: it depends on the symbol outright, or mentions it and has all
   * And-operands of the condition `base` of its prompt.
   */
  ghost predicate Due(dep: Option<Expr>, s: Symbol, base: Option<Expr>) {
    || Absolute(dep, s)
    || (Simplified(dep, base) && dep.Some? && ContainsSymbol(dep.value, s) && Covers(dep.value, base))
  }

  /**
   * An item that may go there: it mentions the symbol and is visible only together with it, or with its prompt.
   * Where the conditions are simplified, only the items that are due may.
   */
  ghost predicate Belongs(dep: Option<Expr>, s: Symbol, base: Option<Expr>) {
    && dep.Some? && ContainsSymbol(dep.value, s)
    && (s.IsLogical() && PlainDep(dep) && PlainDep(base) ==> VisibleOnlyWith(dep, s, base))
    && (Simplified(dep, base) ==> Due(dep, s, base))
  }

  /** The condition of the prompt of a node, or `other` if it has none. */
  function PromptCond(src: Source, conds: map<int, Cond>, id: int, other: Option<Expr>): Option<Expr> {
    if id in src.nodes && id in conds && src.nodes[id].prompt.Some? && src.nodes[id].prompt.value < |conds[id].conds|
    then conds[id].conds[src.nodes[id].prompt.value] else other
  }

  /** The condition under which an item appears: that of its prompt, or its dependency. */
  function ItemCond(src: Source, conds: map<int, Cond>, id: int): Option<Expr> {
    PromptCond(src, conds, id, if id in conds then conds[id].dep else None)
  }

  /**
   * With the conditions `given` from above, the items `adopted` belong to the submenu of the
   * symbol of `m`, and the first one left over is not due there.
   */
  ghost predicate AdoptionRight(src: Source, given: map<int, Cond>, m: int, adopted: set<int>, left: Forest) {
    && SymOf(src, m).Some? && m in given && adopted <= given.Keys
    && (forall id :: id in adopted ==>
          Belongs(ItemCond(src, given, id), SymOf(src, m).value, PromptCond(src, given, m, None)))
    && (left.Tree? ==>
          && left.id in given
          && !Due(ItemCond(src, given, left.id), SymOf(src, m).value, PromptCond(src, given, m, None)))
  }

  /**
   * The chain `g` is the chain `f`, followed by `after`, after automatic submenu creation and
   * before flattening: a node with children keeps them, a childless symbol node gets the items
   * that belong to it from the beginning of those after it.
   */
  ghost predicate Adopts(src: Source, given: map<int, Cond>, f: Forest, g: Forest, after: Forest)
    decreases g
  {
    match g
    case Nil => f == Nil
    case Tree(id, kids, rest) =>
      && f.Tree? && f.id == id
      && if f.kids.Tree? then Adopts(src, given, f.kids, kids, Nil) && Adopts(src, given, f.rest, rest, after)
         else exists moved, left ::
                && f.rest == Append(moved, left)
                && Adopts(src, given, moved, kids, Append(left, after)) && Adopts(src, given, left, rest, after)
                && if SymOf(src, id).None? then kids == Nil
                   else AdoptionRight(src, given, id, Tops(kids), Append(left, after))
  }

  lemma {:induction false} AdoptsAppend(src: Source, given: map<int, Cond>, f: Forest, g: Forest,
                                        f': Forest, g': Forest, after: Forest)
    requires Adopts(src, given, f, g, Append(f', after)) && Adopts(src, given, f', g', after)
    ensures Adopts(src, given, Append(f, f'), Append(g, g'), after)
    decreases g
  {
    hide AdoptionRight;
    if g.Tree? {
      if f.kids.Tree? {
        AdoptsAppend(src, given, f.rest, g.rest, f', g', after);
      } else {
        var moved, left :|
          && f.rest == Append(moved, left)
          && Adopts(src, given, moved, g.kids, Append(left, Append(f', after)))
          && Adopts(src, given, left, g.rest, Append(f', after))
          && if SymOf(src, g.id).None? then g.kids == Nil
             else AdoptionRight(src, given, g.id, Tops(g.kids), Append(left, Append(f', after)));
        AppendAssociative(moved, left, f');
        AppendAssociative(left, f', after);
        AdoptsAppend(src, given, left, g.rest, f', g', after);
      }
    }
  }

  lemma AdoptionExtends(src: Source, given: map<int, Cond>, given': map<int, Cond>, m: int, adopted: set<int>,
                        left: Forest)
    requires AdoptionRight(src, given, m, adopted, left) && Extends(given, given')
    ensures AdoptionRight(src, given', m, adopted, left)
  {
    hide Belongs, Due;
    forall id | id in adopted ensures id in given' {
      assert id in given.Keys && id in given;
    }
    forall id | id in adopted
      ensures Belongs(ItemCond(src, given', id), SymOf(src, m).value, PromptCond(src, given', m, None))
    {
      assert id in given && ItemCond(src, given', id) == ItemCond(src, given, id);
      assert PromptCond(src, given', m, None) == PromptCond(src, given, m, None);
    }
  }

  lemma {:induction false} AdoptsExtends(src: Source, given: map<int, Cond>, given': map<int, Cond>,
                                         f: Forest, g: Forest, after: Forest)
    requires Adopts(src, given, f, g, after) && Extends(given, given')
    ensures Adopts(src, given', f, g, after)
    decreases g
  {
    hide AdoptionRight, Extends;
    if g.Tree? {
      if f.kids.Tree? {
        AdoptsExtends(src, given, given', f.kids, g.kids, Nil);
        AdoptsExtends(src, given, given', f.rest, g.rest, after);
      } else {
        var moved, left :|
          && f.rest == Append(moved, left)
          && Adopts(src, given, moved, g.kids, Append(left, after)) && Adopts(src, given, left, g.rest, after)
          && if SymOf(src, g.id).None? then g.kids == Nil
             else AdoptionRight(src, given, g.id, Tops(g.kids), Append(left, after));
        AdoptsExtends(src, given, given', moved, g.kids, Append(left, after));
        AdoptsExtends(src, given, given', left, g.rest, after);
        if SymOf(src, g.id).Some? { AdoptionExtends(src, given, given', g.id, Tops(g.kids), Append(left, after)); }
      }
    }
  }

  // ----- what finalisation records -----

  /**
   * The chain `orig`, followed by `after`, became `shape` by adoption and then `done` by
   * flattening, and from `v0` to `v` the last loops made their rounds.
   */
  ghost predicate Recorded(src: Source, given: map<int, Cond>, v0: seq<Visit>, v: seq<Visit>,
                           orig: Forest, shape: Forest, done: Forest, after: Forest)
  {
    && Adopts(src, given, orig, shape, after)
    && done == FlatBelow(src, shape)
    && v == v0 + VisitsOf(src, shape)
  }

  lemma RecordedNothing(src: Source, given: map<int, Cond>, v: seq<Visit>, after: Forest)
    ensures Recorded(src, given, v, v, Nil, Nil, Nil, after)
  {
    assert v == v + [];
  }

  lemma RecordedAppend(src: Source, given: map<int, Cond>, given': map<int, Cond>, v0: seq<Visit>, v1: seq<Visit>,
                       v2: seq<Visit>,
                       o1: Forest, s1: Forest, d1: Forest, o2: Forest, s2: Forest, d2: Forest, after: Forest)
    requires Recorded(src, given, v0, v1, o1, s1, d1, Append(o2, after)) && Extends(given, given')
    requires Recorded(src, given', v1, v2, o2, s2, d2, after)
    ensures Recorded(src, given', v0, v2, Append(o1, o2), Append(s1, s2), Append(d1, d2), after)
  {
    hide Adopts, Extends;
    AdoptsExtends(src, given, given', o1, s1, Append(o2, after));
    AdoptsAppend(src, given', o1, s1, o2, s2, after);
    FlatBelowAppend(src, s1, s2);
    VisitsOfAppend(src, s1, s2);
    ConcatVisits(v0, VisitsOf(src, s1), VisitsOf(src, s2));
  }

  /** The rounds and the flattening of one node whose chain of children was recorded. */
  lemma NodeVisits(src: Source, v0: seq<Visit>, v1: seq<Visit>, v2: seq<Visit>, m: int, shape: Forest, kids': Forest)
    requires kids' == FlatTop(src, FlatBelow(src, shape))
    requires v1 == v0 + VisitsOf(src, shape) && v2 == v1 + TopVisits(src, m, kids')
    ensures Tree(m, kids', Nil) == FlatBelow(src, Tree(m, shape, Nil))
    ensures v2 == v0 + VisitsOf(src, Tree(m, shape, Nil))
  {
    ConcatVisits(v0, VisitsOf(src, shape), TopVisits(src, m, kids'));
    assert VisitsOf(src, Tree(m, shape, Nil)) == VisitsOf(src, shape) + TopVisits(src, m, kids') + [];
  }

  /** A node with children. */
  lemma RecordedParent(src: Source, given: map<int, Cond>, v0: seq<Visit>, v1: seq<Visit>, v2: seq<Visit>, m: int,
                       kids: Forest, shape: Forest, inner: Forest, kids': Forest, after: Forest)
    requires kids.Tree? && Recorded(src, given, v0, v1, kids, shape, inner, Nil)
    requires kids' == FlatTop(src, inner) && v2 == v1 + TopVisits(src, m, kids')
    ensures Recorded(src, given, v0, v2, Tree(m, kids, Nil), Tree(m, shape, Nil), Tree(m, kids', Nil), after)
  {
    NodeVisits(src, v0, v1, v2, m, shape, kids');
  }

  /** A node without children, that adopted `moved`. */
  lemma RecordedLeaf(src: Source, given: map<int, Cond>, v0: seq<Visit>, v1: seq<Visit>, v2: seq<Visit>, m: int,
                     moved: Forest, shape: Forest, inner: Forest, kids': Forest, after: Forest)
    requires Recorded(src, given, v0, v1, moved, shape, inner, after)
    requires if SymOf(src, m).None? then shape == Nil else AdoptionRight(src, given, m, Tops(shape), after)
    requires kids' == FlatTop(src, inner) && v2 == v1 + TopVisits(src, m, kids')
    ensures Recorded(src, given, v0, v2, Tree(m, Nil, moved), Tree(m, shape, Nil), Tree(m, kids', Nil), after)
  {
    hide AdoptionRight;
    NodeVisits(src, v0, v1, v2, m, shape, kids');
    AppendNil(moved);
    assert moved == Append(moved, Nil) && Append(Nil, after) == after && Adopts(src, given, Nil, Nil, after);
  }

  lemma {:induction false} FlatBelowTops(src: Source, f: Forest)
    ensures Tops(FlatBelow(src, f)) == Tops(f)
  {
    if f.Tree? { FlatBelowTops(src, f.rest); }
  }

  // ----- adoption keeps the order -----

  lemma AdoptedOrder(id: int, moved: Forest, left: Forest, g: Forest)
    requires g.Tree? && g.id == id
    requires Preorder(g.kids) == Preorder(moved) && Ids(g.kids) == Ids(moved) && (Unique(g.kids) <==> Unique(moved))
    requires Preorder(g.rest) == Preorder(left) && Ids(g.rest) == Ids(left) && (Unique(g.rest) <==> Unique(left))
    ensures var f := Tree(id, Nil, Append(moved, left));
            Preorder(g) == Preorder(f) && Ids(g) == Ids(f) && (Unique(g) <==> Unique(f))
  {
    hide Tops, Append;
    AppendFacts(moved, left);
    ConcatAssociative([id], Preorder(moved), Preorder(left));
    assert [id] + [] == [id];
  }

  lemma {:induction false} AdoptsKeepsOrder(src: Source, given: map<int, Cond>, f: Forest, g: Forest, after: Forest)
    requires Adopts(src, given, f, g, after)
    ensures Preorder(g) == Preorder(f) && Ids(g) == Ids(f) && (Unique(g) <==> Unique(f))
    decreases g
  {
    hide AdoptionRight, Tops;
    if g.Tree? {
      if f.kids.Tree? {
        AdoptsKeepsOrder(src, given, f.kids, g.kids, Nil);
        AdoptsKeepsOrder(src, given, f.rest, g.rest, after);
      } else {
        var moved, left :|
          && f.rest == Append(moved, left)
          && Adopts(src, given, moved, g.kids, Append(left, after)) && Adopts(src, given, left, g.rest, after)
          && if SymOf(src, g.id).None? then g.kids == Nil
             else AdoptionRight(src, given, g.id, Tops(g.kids), Append(left, after));
        AdoptsKeepsOrder(src, given, moved, g.kids, Append(left, after));
        AdoptsKeepsOrder(src, given, left, g.rest, after);
        AdoptedOrder(f.id, moved, left, g);
      }
    }
  }
}
