/**
 * The search for recursive dependencies (the sym_check_deps family of
 * scripts/config/symbol.c).
 */
module DepCheck {
  import opened Basics
  import opened Exprs

  datatype PropKind = DefaultProp | SelectProp | ImplyProp | ChoiceProp | OtherProp

  datatype Property = Property(kind: PropKind, visible: Option<Expr>, expr: Option<Expr>)

  /** What a symbol depends on: its own, reverse and weak reverse dependencies, and its properties. */
  datatype Deps = Deps(dir: Option<Expr>, rev: Option<Expr>, implied: Option<Expr>, props: seq<Property>)

  /** The dependencies of the symbols, the members of each choice, and the choice of each member. */
  datatype Graph = Graph(deps: map<Symbol, Deps>, groups: map<Symbol, seq<Symbol>>, choiceOf: map<Symbol, Symbol>)

  function DepsOf(g: Graph, s: Symbol): Deps {
    if s in g.deps then g.deps[s] else Deps(None, None, None, [])
  }

  /** The symbols of an expression, in the order in which they are followed. */
  function Refs(e: Expr): seq<Symbol> {
    match e
    case Sym(s) => [s]
    case Cmp(_, l, r) => [l, r]
    case Not(x) => Refs(x)
    case Bin(_, l, r) => Refs(l) + Refs(r)
  }

  function DepRefs(e: Option<Expr>): seq<Symbol> {
    if e.None? then [] else Refs(e.value)
  }

  predicate Skipped(p: Property) {
    p.kind == ChoiceProp || p.kind == SelectProp || p.kind == ImplyProp
  }

  /**
   * Selects and implies already count as reverse dependencies; of the others the condition counts,
   * and a default's value, unless the symbol is a choice.
   */
  function PropRefs(p: Property, choice: bool): seq<Symbol> {
    if Skipped(p) then [] else DepRefs(p.visible) + if p.kind == DefaultProp && !choice then DepRefs(p.expr) else []
  }

  function PropsRefs(props: seq<Property>, choice: bool): seq<Symbol> {
    if props == [] then [] else PropsRefs(props[..|props| - 1], choice) + PropRefs(props[|props| - 1], choice)
  }

  function AllRefs(d: Deps, choice: bool): seq<Symbol> {
    DepRefs(d.dir) + DepRefs(d.rev) + DepRefs(d.implied) + PropsRefs(d.props, choice)
  }

  /** `t` occurs in what `s` depends on. */
  predicate Edge(g: Graph, s: Symbol, t: Symbol) {
    t in AllRefs(DepsOf(g, s), s in g.groups)
  }

  function SetOf(s: seq<Symbol>): set<Symbol> { set x | x in s }

  // ----- choices -----

  /** Every member is listed below its choice, and a choice is no member. */
  ghost predicate Grouped(g: Graph) {
    && (forall c :: c in g.groups ==> c !in g.choiceOf)
    && (forall c, m :: c in g.groups && m in g.groups[c] ==> m in g.choiceOf && g.choiceOf[m] == c)
    && (forall m :: m in g.choiceOf ==> g.choiceOf[m] in g.groups && m in g.groups[g.choiceOf[m]])
  }

  /** A choice and its members are checked together, in the name of the choice. */
  function Rep(g: Graph, s: Symbol): Symbol {
    if s in g.choiceOf then g.choiceOf[s] else s
  }

  /** The symbols that are checked in the name of `a`. */
  function Group(g: Graph, a: Symbol): set<Symbol> {
    {a} + if a in g.groups then SetOf(g.groups[a]) else {}
  }

  /** A member depends on its own choice. */
  predicate Own(g: Graph, s: Symbol, t: Symbol) {
    s in g.choiceOf && t == g.choiceOf[s]
  }

  /** Some symbol of the group of `a` depends on one of the group of `b`, and not just a member on its own choice. */
  ghost predicate Link(g: Graph, a: Symbol, b: Symbol) {
    exists s, t :: Edge(g, s, t) && !Own(g, s, t) && Rep(g, s) == a && Rep(g, t) == b
  }

  ghost predicate IsPath(g: Graph, p: seq<Symbol>) {
    forall i :: 0 <= i < |p| - 1 ==> Link(g, p[i], p[i + 1])
  }

  ghost predicate IsCycle(g: Graph, p: seq<Symbol>) {
    |p| >= 2 && p[0] == p[|p| - 1] && IsPath(g, p)
  }

  ghost predicate HasCycle(g: Graph) {
    exists p :: IsCycle(g, p)
  }

  /** A path on which no choice is mentioned by name. */
  ghost predicate IsFirm(g: Graph, p: seq<Symbol>) {
    forall i :: 0 <= i < |p| - 1 ==> FirmLink(g, p[i], p[i + 1])
  }

  ghost predicate FirmLink(g: Graph, a: Symbol, b: Symbol) {
    exists s, t :: Edge(g, s, t) && t !in g.groups && Rep(g, s) == a && Rep(g, t) == b
  }

  ghost predicate HasFirmCycle(g: Graph) {
    exists p :: IsCycle(g, p) && IsFirm(g, p)
  }

  /** A choice is mentioned by its own members only, as menu finalisation leaves a choice without a name. */
  ghost predicate ChoicesUnnamed(g: Graph) {
    forall s, t :: Edge(g, s, t) && t in g.groups ==> Own(g, s, t)
  }

  lemma UnnamedIsFirm(g: Graph)
    requires ChoicesUnnamed(g) && HasCycle(g)
    ensures HasFirmCycle(g)
  {
    var p :| IsCycle(g, p);
    forall i | 0 <= i < |p| - 1 ensures FirmLink(g, p[i], p[i + 1]) {
      assert Link(g, p[i], p[i + 1]);
    }
    assert IsFirm(g, p);
  }

  // ----- orders -----

  /** Whatever a group of `order` mentions, choices apart, is in a group before it. */
  ghost predicate Ordered(g: Graph, order: seq<Symbol>) {
    forall i, s, t :: 0 <= i < |order| && Rep(g, s) == order[i] && Edge(g, s, t) && t !in g.groups ==>
      Rep(g, t) in order[..i]
  }

  /** A path that starts at an ordered group runs through the order backwards. */
  lemma {:induction false} PathDescends(g: Graph, order: seq<Symbol>, p: seq<Symbol>, i: nat, k: nat)
    requires Ordered(g, order) && IsFirm(g, p) && k < |p|
    requires i < |order| && order[i] == p[0]
    ensures p[k] in order[..i + 1]
    ensures k > 0 ==> p[k] in order[..i]
  {
    if k == 0 {
      assert order[..i + 1][i] == p[0];
    } else {
      PathDescends(g, order, p, i, k - 1);
      assert FirmLink(g, p[k - 1], p[k - 1 + 1]);
      var j :| 0 <= j <= i && order[j] == p[k - 1];
      assert p[k] in order[..j];
    }
  }

  /** A group that an order contains lies on no such cycle. */
  lemma {:induction false} OrderedOnNoCycle(g: Graph, order: seq<Symbol>, p: seq<Symbol>, i: nat)
    requires Ordered(g, order) && IsCycle(g, p) && IsFirm(g, p)
    requires i < |order| && order[i] == p[0]
    ensures false
    decreases i
  {
    PathDescends(g, order, p, i, |p| - 1);
    var j :| 0 <= j < i && order[j] == p[0];
    OrderedOnNoCycle(g, order, p, j);
  }

  /** A path whose end is linked to one of its own groups closes a cycle. */
  lemma CloseCycle(g: Graph, path: seq<Symbol>, i: nat, s: Symbol)
    requires IsPath(g, path) && i < |path| && path[i] == s && Link(g, path[|path| - 1], s)
    ensures HasCycle(g)
  {
    var p := path[i..] + [s];
    forall k | 0 <= k < |p| - 1 ensures Link(g, p[k], p[k + 1]) {
      if i + k + 1 < |path| {
        assert Link(g, path[i + k], path[i + k + 1]);
      }
    }
    assert IsCycle(g, p);
  }

  /** The groups of a list, together. */
  function Under(g: Graph, reps: seq<Symbol>): set<Symbol> {
    if reps == [] then {} else Under(g, reps[..|reps| - 1]) + Group(g, reps[|reps| - 1])
  }

  /** No member stands for a group. */
  ghost predicate AreReps(g: Graph, reps: seq<Symbol>) {
    forall a :: a in reps ==> a !in g.choiceOf
  }

  lemma GroupIsRep(g: Graph, a: Symbol, s: Symbol)
    requires Grouped(g) && a !in g.choiceOf
    ensures s in Group(g, a) <==> Rep(g, s) == a
  {
  }

  lemma {:induction false} UnderIsRep(g: Graph, reps: seq<Symbol>, s: Symbol)
    requires Grouped(g) && AreReps(g, reps)
    ensures s in Under(g, reps) <==> Rep(g, s) in reps
    decreases |reps|
  {
    hide Grouped, Group, Rep;
    if reps != [] {
      UnderIsRep(g, reps[..|reps| - 1], s);
      GroupIsRep(g, reps[|reps| - 1], s);
      assert reps == reps[..|reps| - 1] + [reps[|reps| - 1]];
    }
  }

  lemma UnderSnoc(g: Graph, reps: seq<Symbol>, a: Symbol)
    ensures Under(g, reps + [a]) == Under(g, reps) + Group(g, a)
  {
    assert (reps + [a])[..|reps|] == reps;
  }

  /** Everything is in `u` that occurs in the dependencies of its symbols, or in their groups. */
  ghost predicate Closed(g: Graph, u: set<Symbol>) {
    && (forall s, t :: s in u && Edge(g, s, t) ==> t in u)
    && (forall s :: s in u ==> Group(g, Rep(g, s)) <= u)
  }

  /** The symbols with SYMBOL_CHECK are those of the groups of `path`, except the choices in `late`. */
  ghost predicate Marks(g: Graph, universe: set<Symbol>, check: set<Symbol>, checked: set<Symbol>, path: seq<Symbol>,
                        late: set<Symbol>)
  {
    && Closed(g, universe) && Grouped(g)
    && AreReps(g, path) && late <= SetOf(path) && late <= g.groups.Keys
    && check == Under(g, path) - late && Under(g, path) <= checked <= universe
    && (forall s :: s in checked ==> Group(g, Rep(g, s)) <= checked)
    && IsPath(g, path)
  }

  /** The groups of `order` are finished and in dependency order. */
  ghost predicate Finished(g: Graph, checked: set<Symbol>, path: seq<Symbol>, order: seq<Symbol>) {
    Ordered(g, order) && AreReps(g, order) && checked == Under(g, path) + Under(g, order)
  }

  /** The group of `a` is put under check. */
  lemma EnterMarks(g: Graph, universe: set<Symbol>, check: set<Symbol>, checked: set<Symbol>, path: seq<Symbol>,
                   late: set<Symbol>, a: Symbol)
    requires Marks(g, universe, check, checked, path, late) && a in universe && a !in checked && a !in g.choiceOf
    requires path == [] || Link(g, path[|path| - 1], a)
    ensures Marks(g, universe, check + Group(g, a), checked + Group(g, a), path + [a], late)
    ensures a !in path && Group(g, a) !! checked
  {
    hide Edge, Link, Closed;
    UnderIsRep(g, path, a);
    UnderSnoc(g, path, a);
    assert Group(g, Rep(g, a)) <= universe by { ClosedGroup(g, universe, a); }
    forall s | s in Group(g, a) ensures s !in checked && Rep(g, s) == a {
      GroupIsRep(g, a, s);
      assert a in Group(g, Rep(g, s));
    }
    IsPathSnoc(g, path, a);
  }

  lemma ClosedGroup(g: Graph, u: set<Symbol>, s: Symbol)
    requires Closed(g, u) && s in u
    ensures Group(g, Rep(g, s)) <= u
  {
  }

  lemma IsPathSnoc(g: Graph, path: seq<Symbol>, a: Symbol)
    requires IsPath(g, path) && (path == [] || Link(g, path[|path| - 1], a))
    ensures IsPath(g, path + [a])
  {
    hide Link;
  }

  /** And leaves it again. */
  lemma LeaveMarks(g: Graph, universe: set<Symbol>, check: set<Symbol>, checked: set<Symbol>, path: seq<Symbol>,
                   late: set<Symbol>, a: Symbol)
    requires Marks(g, universe, check, checked, path + [a], late) && a !in path
    ensures Marks(g, universe, check - Group(g, a), checked, path, late - {a})
  {
    assert a in Group(g, a);
    hide Edge, Link, Closed, Grouped, Group, Rep, Under, IsPath, AreReps;
    RepsFront(g, path, a);
    UnderSnoc(g, path, a);
    LeaveUnder(g, path, a);
    IsPathFront(g, path, a);
    forall s | s in late && s != a ensures s in SetOf(path) && s !in Group(g, a) {
      assert s in path + [a];
      LateApart(g, path, a, s);
    }
    LeaveSets(check, Under(g, path), Group(g, a), late, a);
  }

  lemma LeaveSets(check: set<Symbol>, under: set<Symbol>, group: set<Symbol>, late: set<Symbol>, a: Symbol)
    requires check == (under + group) - late && under !! group && a in group
    requires forall s :: s in late && s != a ==> s !in group
    ensures check - group == under - (late - {a})
  {
  }

  lemma RepsFront(g: Graph, path: seq<Symbol>, a: Symbol)
    requires AreReps(g, path + [a])
    ensures AreReps(g, path) && a !in g.choiceOf
  {
    assert a in path + [a] && forall b :: b in path ==> b in path + [a];
  }

  lemma LateApart(g: Graph, path: seq<Symbol>, a: Symbol, s: Symbol)
    requires Grouped(g) && AreReps(g, path) && a !in g.choiceOf && s in path && s != a
    ensures s !in Group(g, a)
  {
    GroupIsRep(g, a, s);
  }

  lemma LeaveUnder(g: Graph, path: seq<Symbol>, a: Symbol)
    requires Grouped(g) && AreReps(g, path) && a !in g.choiceOf && a !in path
    ensures Under(g, path) !! Group(g, a)
  {
    hide Under, Group, Rep;
    forall s | s in Group(g, a) ensures s !in Under(g, path) {
      UnderIsRep(g, path, s);
      GroupIsRep(g, a, s);
    }
  }

  lemma IsPathFront(g: Graph, path: seq<Symbol>, a: Symbol)
    requires IsPath(g, path + [a])
    ensures IsPath(g, path)
  {
    hide Link;
    forall i | 0 <= i < |path| - 1 ensures Link(g, path[i], path[i + 1]) {
      assert Link(g, (path + [a])[i], (path + [a])[i + 1]);
    }
  }

  /** The members of the choice `c` have their turn. */
  lemma LateMarks(g: Graph, universe: set<Symbol>, check: set<Symbol>, checked: set<Symbol>, path: seq<Symbol>,
                  late: set<Symbol>, c: Symbol)
    requires Marks(g, universe, check, checked, path, late) && c in g.groups && c in path
    ensures Marks(g, universe, check - {c}, checked, path, late + {c})
  {
    hide Edge, Link, Closed, IsPath;
  }

  lemma EnterFinished(g: Graph, checked: set<Symbol>, path: seq<Symbol>, order: seq<Symbol>, a: Symbol)
    requires Finished(g, checked, path, order)
    ensures Finished(g, checked + Group(g, a), path + [a], order)
  {
    hide Edge, Ordered;
    UnderSnoc(g, path, a);
  }

  lemma LeaveFinished(g: Graph, checked: set<Symbol>, path: seq<Symbol>, order: seq<Symbol>, a: Symbol)
    requires Finished(g, checked, path + [a], order) && a !in g.choiceOf
    requires forall s, t :: Rep(g, s) == a && Edge(g, s, t) && t !in g.groups ==> Rep(g, t) in order
    ensures Finished(g, checked, path, order + [a])
  {
    hide Edge;
    UnderSnoc(g, path, a);
    UnderSnoc(g, order, a);
    OrderedSnoc(g, order, a);
  }

  lemma OrderedSnoc(g: Graph, order: seq<Symbol>, a: Symbol)
    requires Ordered(g, order)
    requires forall s, t :: Rep(g, s) == a && Edge(g, s, t) && t !in g.groups ==> Rep(g, t) in order
    ensures Ordered(g, order + [a])
  {
    hide Edge;
    var longer := order + [a];
    forall i, s, t | 0 <= i < |longer| && Rep(g, s) == longer[i] && Edge(g, s, t) && t !in g.groups
      ensures Rep(g, t) in longer[..i]
    {
      assert longer[..i] == order[..i];
      if i == |order| { assert order[..i] == order; }
    }
  }

  /** A symbol of a group under check closes a cycle. */
  lemma HitCloses(g: Graph, path: seq<Symbol>, s: Symbol)
    requires IsPath(g, path) && path != [] && Rep(g, s) in path && Link(g, path[|path| - 1], Rep(g, s))
    ensures HasCycle(g)
  {
    var i :| 0 <= i < |path| && path[i] == Rep(g, s);
    CloseCycle(g, path, i, Rep(g, s));
  }

  lemma EdgeLinks(g: Graph, s: Symbol, t: Symbol)
    requires Edge(g, s, t) && !Own(g, s, t)
    ensures Link(g, Rep(g, s), Rep(g, t))
  {
  }

  lemma NotLate(g: Graph, universe: set<Symbol>, check: set<Symbol>, checked: set<Symbol>, path: seq<Symbol>,
                late: set<Symbol>, s: Symbol)
    requires Marks(g, universe, check, checked, path, late) && s !in checked
    ensures s !in late && check <= checked && Grouped(g)
  {
    UnderIsRep(g, path, s);
  }

  lemma ChoiceIsRep(g: Graph, c: Symbol)
    requires Grouped(g) && c in g.groups
    ensures c !in g.choiceOf
  {
  }

  lemma MarkedMembers(g: Graph, universe: set<Symbol>, check: set<Symbol>, checked: set<Symbol>, path: seq<Symbol>,
                      late: set<Symbol>, c: Symbol)
    requires Marks(g, universe, check, checked, path, late) && c in g.groups && c in path
    ensures forall m :: m in g.groups[c] ==> m in universe && m in g.choiceOf && g.choiceOf[m] == c
  {
    hide Edge, Link, Closed, IsPath;
    forall m | m in g.groups[c] ensures m in universe && m in g.choiceOf && g.choiceOf[m] == c {
      UnderIsRep(g, path, m);
    }
  }

  /** All that `s` mentions is finished, or is a choice in `late`. */
  ghost predicate AllSettled(g: Graph, s: Symbol, order: seq<Symbol>, late: set<Symbol>) {
    forall t :: Edge(g, s, t) ==> Rep(g, t) in order || t in late
  }

  lemma SettledGrows(g: Graph, s: Symbol, before: seq<Symbol>, order: seq<Symbol>, late: set<Symbol>)
    requires AllSettled(g, s, before, late) && before <= order
    ensures AllSettled(g, s, order, late)
  {
    hide Edge, Rep;
  }

  lemma SettledLate(g: Graph, s: Symbol, order: seq<Symbol>, late: set<Symbol>, more: set<Symbol>)
    requires AllSettled(g, s, order, late) && late <= more
    ensures AllSettled(g, s, order, more)
  {
    hide Edge, Rep;
  }

  /** Once all that a group mentions is settled, all but choices is finished. */
  lemma SettledAreBefore(g: Graph, universe: set<Symbol>, check: set<Symbol>, checked: set<Symbol>, path: seq<Symbol>,
                         late: set<Symbol>, order: seq<Symbol>, a: Symbol)
    requires Marks(g, universe, check, checked, path, late) && a !in g.choiceOf
    requires forall s :: s in Group(g, a) ==> AllSettled(g, s, order, late)
    ensures forall s, t :: Rep(g, s) == a && Edge(g, s, t) && t !in g.groups ==> Rep(g, t) in order
  {
    hide Edge, Link, Closed, IsPath, Under, Group, AreReps;
    forall s, t | Rep(g, s) == a && Edge(g, s, t) && t !in g.groups ensures Rep(g, t) in order {
      GroupIsRep(g, a, s);
    }
  }

  class Checker {
    const g: Graph
    const recursiveIsError: bool
    ghost const universe: set<Symbol>

    /** The symbols with SYMBOL_CHECK and SYMBOL_CHECKED set. */
    var check: set<Symbol>
    var checked: set<Symbol>
    /** The symbols on the stack that ends with check_top. */
    var stack: seq<Symbol>

    /** The groups under check, and the choices among them whose members are being checked. */
    ghost var path: seq<Symbol>
    ghost var late: set<Symbol>
    /** The groups finished before any error, in the order in which they were finished. */
    ghost var order: seq<Symbol>
    ghost var failed: bool

    constructor (g: Graph, recursiveIsError: bool, ghost universe: set<Symbol>)
      requires Closed(g, universe) && Grouped(g)
      ensures this.g == g && this.recursiveIsError == recursiveIsError && this.universe == universe
      ensures Valid() && stack == [] && path == [] && check == {} && checked == {} && !failed
    {
      this.g := g;
      this.recursiveIsError := recursiveIsError;
      this.universe := universe;
      check, checked, stack, path, late, order, failed := {}, {}, [], [], {}, [], false;
    }

    ghost predicate Valid()
      reads this
    {
      && Marks(g, universe, check, checked, path, late)
      && (recursiveIsError && !failed ==> Finished(g, checked, path, order))
      && (failed ==> HasCycle(g))
    }

    /** What every part of the search leaves behind, whatever it returns. */
    twostate predicate Balanced(new r: Option<Symbol>)
      reads this
    {
      && check == old(check) && stack == old(stack) && path == old(path) && late == old(late)
      && old(checked) <= checked
      && old(order) <= order
      && (r.Some? ==> HasCycle(g))
      && (r.Some? && !recursiveIsError ==> r.value in check)
      && (recursiveIsError ==> (failed <==> old(failed) || r.Some?))
    }

    /** The same for the search from the group of `a`, before it is known whether it is `a` that is returned. */
    twostate predicate BalancedFor(a: Symbol, new r: Option<Symbol>)
      reads this
    {
      && check == old(check) && stack == old(stack) && path == old(path) && late == old(late)
      && old(checked) <= checked
      && old(order) <= order
      && (r.Some? ==> HasCycle(g))
      && (r.Some? && !recursiveIsError ==> r.value in check + {a})
      && (recursiveIsError ==> (failed <==> old(failed) || r.Some?))
    }

    /** The group of the symbol is finished, or it is a choice whose members are being checked. */
    ghost predicate Settled(t: Symbol)
      reads this
    {
      Rep(g, t) in order || t in late
    }

    /** The symbol whose dependencies are followed: of the group under check, the choice before its members. */
    ghost predicate At(s: Symbol)
      reads this
    {
      && s in universe && path != [] && Rep(g, s) == path[|path| - 1]
      && (s in g.choiceOf ==> g.choiceOf[s] in late)
    }

    /** A symbol that the group under check leads to. */
    ghost predicate Reached(s: Symbol)
      reads this
    {
      s in universe && (s in late || path == [] || Link(g, path[|path| - 1], Rep(g, s)))
    }

    /** sym_check_deps */
    method CheckDeps(s: Symbol) returns (r: Option<Symbol>)
      requires Valid() && Reached(s)
      modifies this
      ensures Valid() && Balanced(r)
      ensures s in checked
      ensures recursiveIsError && !failed ==> Settled(s)
      decreases universe - checked, 0, if s in g.choiceOf then 4 else 2
    {
      hide Edge, AllRefs, DepsOf, Ordered, IsPath, HasCycle, Closed, Link, Under, AreReps, Group;
      UnderIsRep(g, path, s);
      if s in check {
        HitCloses(g, path, s);
        failed := true;
        return Some(s);
      }
      if s in checked {
        if recursiveIsError && !failed { UnderIsRep(g, order, s); }
        return None;
      }
      if s in g.choiceOf {
        r := CheckMember(s);
      } else if s in g.groups {
        r := CheckChoice(s);
      } else {
        r := CheckSymbol(s);
      }
      if !recursiveIsError && r == Some(s) { r := None; }
    }

    /** The part of sym_check_deps for a choice value: the check starts with its choice. */
    method CheckMember(s: Symbol) returns (r: Option<Symbol>)
      requires Valid() && Reached(s) && s in g.choiceOf && s !in checked
      modifies this
      ensures Valid() && Balanced(r) && s in checked
      ensures recursiveIsError && !failed ==> Settled(s)
      decreases universe - checked, 0, 3
    {
      hide Edge, AllRefs, DepsOf, Ordered, IsPath, HasCycle, Link, Under, AreReps;
      var c := g.choiceOf[s];
      UnderIsRep(g, path, s);
      stack := stack + [s];
      r := CheckDeps(c);
      stack := stack[..|stack| - 1];
    }

    /** The part of sym_check_deps for a symbol that is neither a choice nor a choice value. */
    method CheckSymbol(s: Symbol) returns (r: Option<Symbol>)
      requires Valid() && Reached(s) && s !in g.choiceOf && s !in g.groups && s !in checked
      modifies this
      ensures Valid() && BalancedFor(s, r) && s in checked
      ensures recursiveIsError && !failed ==> Settled(s)
      decreases universe - checked, 0, 1
    {
      hide Edge, AllRefs, DepsOf, HasCycle, Link, Ordered, IsPath, AreReps, Closed, Marks, Finished, Grouped;
      ghost var p := path;
      NotLate(g, universe, check, checked, path, late, s);
      assert Group(g, s) == {s};
      EnterMarks(g, universe, check, checked, path, late, s);
      if recursiveIsError && !failed { EnterFinished(g, checked, path, order, s); }
      check, checked, path := check + {s}, checked + {s}, path + [s];
      r := CheckSymDeps(s);
      if recursiveIsError && !failed {
        SettledAreBefore(g, universe, check, checked, path, late, order, s);
        LeaveFinished(g, checked, p, order, s);
      }
      LeaveMarks(g, universe, check, checked, p, late, s);
      assert late - {s} == late;
      check, path := check - {s}, p;
      assert check == old(check);
      if !failed { order := order + [s]; }
    }
    /** sym_check_choice_deps */
    method CheckChoice(c: Symbol) returns (r: Option<Symbol>)
      requires Valid() && Reached(c) && c in g.groups && c !in checked
      modifies this
      ensures Valid() && BalancedFor(c, r) && c in checked
      ensures recursiveIsError && !failed ==> Settled(c)
      decreases universe - checked, 0, 1
    {
      hide Edge, HasCycle, Link, Marks, Finished, Under, Grouped;
      NotLate(g, universe, check, checked, path, late, c);
      assert c !in g.choiceOf by { ChoiceIsRep(g, c); }
      stack := stack + [c];
      MarkGroup(c);
      r := CheckGroup(c);
      EndGroup(c);
      assert check == old(check) && late == old(late);
      if r.Some? && r.value in g.choiceOf && g.choiceOf[r.value] == c { r := Some(c); }
      stack := stack[..|stack| - 1];
    }

    /** The choice is checked as long as it and its members are marked, and then the members. */
    method CheckGroup(c: Symbol) returns (r: Option<Symbol>)
      requires Valid() && c in universe && c in g.groups && c !in g.choiceOf && c !in late
      requires path != [] && path[|path| - 1] == c
      modifies this
      ensures Valid() && check == old(check) - {c} && stack == old(stack) && path == old(path)
              && late == old(late) + {c}
      ensures old(checked) <= checked && old(order) <= order
      ensures r.Some? ==> HasCycle(g) && (!recursiveIsError ==> r.value in old(check))
      ensures recursiveIsError ==> (failed <==> old(failed) || r.Some?)
      ensures recursiveIsError && !failed ==> forall s :: s in Group(g, c) ==> AllSettled(g, s, order, late)
      decreases universe - checked, 5
    {
      hide Edge, HasCycle, Link, Marks, Finished, Under, Grouped, AllSettled;
      r := CheckSymDeps(c);
      ghost var before := order;
      if recursiveIsError && !failed { SettledLate(g, c, order, late, late + {c}); }
      LateMarks(g, universe, check, checked, path, late, c);
      check, late := check - {c}, late + {c};
      if r.None? {
        r := CheckMembers(c);
        if recursiveIsError && !failed { SettledGrows(g, c, before, order, late); }
      }
    }

    /** The group is finished. */
    method EndGroup(c: Symbol)
      requires Valid() && c in g.groups && c !in g.choiceOf && path != [] && path[|path| - 1] == c
      requires c !in path[..|path| - 1] && c !in check
      requires recursiveIsError && !failed ==> forall s :: s in Group(g, c) ==> AllSettled(g, s, order, late)
      modifies `check, `path, `late, `order
      ensures Valid() && check == old(check) - Group(g, c) && path == old(path)[..|old(path)| - 1]
              && late == old(late) - {c}
      ensures order == if failed then old(order) else old(order) + [c]
    {
      hide Edge, HasCycle, Link, Marks, Finished, Under, Grouped;
      ghost var p := path[..|path| - 1];
      assert path == p + [c];
      if recursiveIsError && !failed {
        SettledAreBefore(g, universe, check, checked, path, late, order, c);
        LeaveFinished(g, checked, p, order, c);
      }
      LeaveMarks(g, universe, check, checked, p, late, c);
      assert check - Group(g, c) == check - SetOf(g.groups[c]);
      UnmarkMembers(c);
      path, late := p, late - {c};
      if !failed { order := order + [c]; }
    }

    /** The members and the choice get SYMBOL_CHECK and SYMBOL_CHECKED. */
    method MarkGroup(c: Symbol)
      requires Valid() && Reached(c) && c in g.groups && c !in checked && c !in late
      modifies `check, `checked, `path
      ensures Valid() && path == old(path) + [c]
      ensures check == old(check) + Group(g, c) && checked == old(checked) + Group(g, c)
      ensures c !in old(path) && Group(g, c) !! old(checked)
    {
      hide Edge, Link, Ordered, IsPath, AreReps, Closed, Marks, Finished, Under, HasCycle;
      NotLate(g, universe, check, checked, path, late, c);
      EnterMarks(g, universe, check, checked, path, late, c);
      if recursiveIsError && !failed { EnterFinished(g, checked, path, order, c); }
      var members := g.groups[c];
      for i := 0 to |members|
        invariant check == old(check) + SetOf(members[..i]) && checked == old(checked) + SetOf(members[..i])
        invariant path == old(path)
      {
        assert members[..i + 1] == members[..i] + [members[i]];
        check, checked := check + {members[i]}, checked + {members[i]};
      }
      assert members[..|members|] == members;
      check, checked := check + {c}, checked + {c};
      path := path + [c];
      assert check == old(check) + Group(g, c) && checked == old(checked) + Group(g, c);
    }

    method UnmarkMembers(c: Symbol)
      requires c in g.groups
      modifies `check
      ensures check == old(check) - SetOf(g.groups[c])
    {
      var members := g.groups[c];
      for i := 0 to |members|
        invariant check == old(check) - SetOf(members[..i])
      {
        assert members[..i + 1] == members[..i] + [members[i]];
        check := check - {members[i]};
      }
      assert members[..|members|] == members;
    }

    /** The loop over the members of a choice. */
    method CheckMembers(c: Symbol) returns (r: Option<Symbol>)
      requires Valid() && c in g.groups && c in late && path != [] && path[|path| - 1] == c
      modifies this
      ensures Valid() && Balanced(r)
      ensures recursiveIsError && !failed ==> forall s :: s in g.groups[c] ==> AllSettled(g, s, order, late)
      decreases universe - checked, 4
    {
      hide Edge, HasCycle, Link, Finished, Under, Marks, AllSettled;
      MarkedMembers(g, universe, check, checked, path, late, c);
      r := None;
      var i := 0;
      while i < |g.groups[c]|
        invariant 0 <= i <= |g.groups[c]| && r.None?
        invariant Valid() && Balanced(r)
        invariant recursiveIsError && !failed ==>
          forall j :: 0 <= j < i ==> AllSettled(g, g.groups[c][j], order, late)
      {
        ghost var before := order;
        r := CheckSymDeps(g.groups[c][i]);
        if recursiveIsError && !failed {
          forall j | 0 <= j < i { SettledGrows(g, g.groups[c][j], before, order, late); }
        }
        if r.Some? { break; }
        i := i + 1;
      }
    }

    /** sym_check_sym_deps */
    method CheckSymDeps(s: Symbol) returns (r: Option<Symbol>)
      requires Valid() && At(s)
      modifies this
      ensures Valid() && Balanced(r)
      ensures recursiveIsError && !failed ==> AllSettled(g, s, order, late)
      decreases universe - checked, 3
    {
      hide Marks, Finished, Rep;
      stack := stack + [s];
      var d := DepsOf(g, s);
      r := CheckOwn(s, d);
      if r.None? { r := CheckProps(s, d.props); }
      stack := stack[..|stack| - 1];
    }

    /** The three dependencies of the symbol on top of the stack. */
    method CheckOwn(s: Symbol, d: Deps) returns (r: Option<Symbol>)
      requires Valid() && At(s) && d == DepsOf(g, s)
      modifies this
      ensures Valid() && Balanced(r)
      ensures recursiveIsError && !failed ==>
        forall t :: t in DepRefs(d.dir) + DepRefs(d.rev) + DepRefs(d.implied) ==> Settled(t)
      decreases universe - checked, 2
    {
      hide Marks, Finished, Rep, HasCycle, Refs, PropsRefs;
      r := CheckDep(s, d.dir);
      if r.None? { r := CheckDep(s, d.rev); }
      if r.None? { r := CheckDep(s, d.implied); }
    }

    /** The loop over the properties of the symbol on top of the stack. */
    method CheckProps(s: Symbol, props: seq<Property>) returns (r: Option<Symbol>)
      requires Valid() && At(s)
      requires forall t :: t in PropsRefs(props, s in g.groups) ==> Edge(g, s, t)
      modifies this
      ensures Valid() && Balanced(r)
      ensures recursiveIsError && !failed ==> forall t :: t in PropsRefs(props, s in g.groups) ==> Settled(t)
      decreases universe - checked, 2
    {
      hide Edge, AllRefs, DepsOf, HasCycle, Marks, Finished, Rep, PropRefs;
      r := None;
      var i := 0;
      while i < |props|
        invariant 0 <= i <= |props| && r.None?
        invariant Valid() && Balanced(r)
        invariant recursiveIsError && !failed ==> forall t :: t in PropsRefs(props[..i], s in g.groups) ==> Settled(t)
      {
        PropsRefsPrefix(props, i, s in g.groups);
        ghost var before := order;
        r := CheckProp(s, props[i]);
        assert before <= order;
        if r.Some? { break; }
        i := i + 1;
      }
      if i == |props| { assert props[..i] == props; }
    }

    method CheckProp(s: Symbol, prop: Property) returns (r: Option<Symbol>)
      requires Valid() && At(s)
      requires forall t :: t in PropRefs(prop, s in g.groups) ==> Edge(g, s, t)
      modifies this
      ensures Valid() && Balanced(r)
      ensures recursiveIsError && !failed ==> forall t :: t in PropRefs(prop, s in g.groups) ==> Settled(t)
      decreases universe - checked, 1, 2
    {
      hide Edge, AllRefs, DepsOf, HasCycle, Marks, Finished, Rep, DepRefs;
      if Skipped(prop) { return None; }
      r := CheckDep(s, prop.visible);
      if r.Some? || prop.kind != DefaultProp || s in g.groups { return; }
      r := CheckDep(s, prop.expr);
    }

    method CheckDep(s: Symbol, e: Option<Expr>) returns (r: Option<Symbol>)
      requires Valid() && At(s)
      requires forall t :: t in DepRefs(e) ==> Edge(g, s, t)
      modifies this
      ensures Valid() && Balanced(r)
      ensures recursiveIsError && !failed ==> forall t :: t in DepRefs(e) ==> Settled(t)
      decreases universe - checked, 1, 1
    {
      hide Edge, AllRefs, DepsOf, HasCycle, Marks, Finished, Rep, Refs;
      if e.None? { return None; }
      r := CheckExpr(s, e.value);
    }

    /** sym_check_expr_deps */
    method CheckExpr(s: Symbol, e: Expr) returns (r: Option<Symbol>)
      requires Valid() && At(s)
      requires forall t :: t in Refs(e) ==> Edge(g, s, t)
      modifies this
      ensures Valid() && Balanced(r)
      ensures recursiveIsError && !failed ==> forall t :: t in Refs(e) ==> Settled(t)
      decreases universe - checked, 1, 0, e
    {
      hide Edge, AllRefs, DepsOf, HasCycle, Finished, Marks;
      match e
      case Bin(_, left, right) =>
        r := CheckExpr(s, left);
        if r.None? { r := CheckExpr(s, right); }
      case Not(x) =>
        r := CheckExpr(s, x);
      case Cmp(_, l, right) =>
        assert l in Refs(e) && right in Refs(e);
        r := CheckMentioned(s, l);
        if r.None? { r := CheckMentioned(s, right); }
      case Sym(t) =>
        assert t in Refs(e);
        r := CheckMentioned(s, t);
    }

    /** sym_check_deps for a symbol that `s` depends on. */
    method CheckMentioned(s: Symbol, t: Symbol) returns (r: Option<Symbol>)
      requires Valid() && At(s) && Edge(g, s, t)
      modifies this
      ensures Valid() && Balanced(r)
      ensures recursiveIsError && !failed ==> Settled(t)
      decreases universe - checked, 0, 5
    {
      hide Edge, HasCycle, Finished, Rep, Link;
      assert t in universe by { ClosedEdge(g, universe, s, t); }
      if !Own(g, s, t) { EdgeLinks(g, s, t); }
      r := CheckDeps(t);
    }
  }

  lemma ClosedEdge(g: Graph, u: set<Symbol>, s: Symbol, t: Symbol)
    requires Closed(g, u) && s in u && Edge(g, s, t)
    ensures t in u
  {
    hide Edge;
  }

  lemma {:induction false} PropsRefsPrefix(props: seq<Property>, i: nat, choice: bool)
    requires i < |props|
    ensures PropsRefs(props[..i + 1], choice) == PropsRefs(props[..i], choice) + PropRefs(props[i], choice)
    ensures forall t :: t in PropRefs(props[i], choice) ==> t in PropsRefs(props, choice)
    decreases |props| - i
  {
    assert props[..i + 1][..i] == props[..i];
    if i + 1 < |props| {
      PropsRefsPrefix(props, i + 1, choice);
      PropsRefsMonotone(props, i + 1, choice);
    } else {
      assert props[..i + 1] == props;
    }
  }

  lemma {:induction false} PropsRefsMonotone(props: seq<Property>, i: nat, choice: bool)
    requires i <= |props|
    ensures forall t :: t in PropsRefs(props[..i], choice) ==> t in PropsRefs(props, choice)
    decreases |props| - i
  {
    hide PropRefs;
    if i < |props| {
      assert props[..i + 1][..i] == props[..i];
      PropsRefsMonotone(props, i + 1, choice);
    } else {
      assert props[..i] == props;
    }
  }

  /**
   * The symbols of a list, and all that occur in dependencies and groups: y, m and n among them, which are in
   * no list.
   */
  ghost function Mentioned(g: Graph, symbols: seq<Symbol>): set<Symbol> {
    SetOf(symbols) + (set s, t | s in g.deps && t in AllRefs(g.deps[s], s in g.groups) :: t)
    + g.groups.Keys + g.choiceOf.Keys
  }

  lemma MentionedIsClosed(g: Graph, symbols: seq<Symbol>)
    requires Grouped(g)
    ensures Closed(g, Mentioned(g, symbols))
  {
    var u := Mentioned(g, symbols);
    forall s, t | Edge(g, s, t) ensures t in u {
      assert s in g.deps;
    }
    forall s | s in u ensures Group(g, Rep(g, s)) <= u {}
  }

  /** The groups of all symbols of the list are finished, in dependency order. */
  ghost predicate AllFinished(g: Graph, symbols: seq<Symbol>, order: seq<Symbol>) {
    Ordered(g, order) && forall k :: 0 <= k < |symbols| ==> Rep(g, symbols[k]) in order
  }

  /**
   * The loop over all symbols that ends parsing. With `recursiveIsError` an error means that the
   * dependencies have a cycle, a choice and its members being one, and no error that they have none
   * except through the names of choices; so it tells exactly whether there is a cycle if choices
   * have no names. Without `recursiveIsError` it counts no error.
   */
  method CheckAll(g: Graph, recursiveIsError: bool, symbols: seq<Symbol>) returns (errors: nat, c: Checker)
    requires Grouped(g) && g.deps.Keys <= SetOf(symbols)
    ensures recursiveIsError && errors > 0 ==> HasCycle(g)
    ensures recursiveIsError && errors == 0 ==> !HasFirmCycle(g) && AllFinished(g, symbols, c.order)
    ensures recursiveIsError && ChoicesUnnamed(g) ==> (errors > 0 <==> HasCycle(g))
    ensures !recursiveIsError ==> errors == 0
    ensures c.check == {} && c.stack == []
    ensures SetOf(symbols) <= c.checked <= Mentioned(g, symbols)
  {
    hide Edge, AllRefs, DepsOf, Link, Ordered, IsPath, ChoicesUnnamed, HasFirmCycle, HasCycle, Closed, Mentioned;
    MentionedIsClosed(g, symbols);
    c := new Checker(g, recursiveIsError, Mentioned(g, symbols));
    errors := 0;
    var i := 0;
    while i < |symbols|
      invariant 0 <= i <= |symbols|
      invariant c.g == g && c.recursiveIsError == recursiveIsError && c.universe == Mentioned(g, symbols)
      invariant fresh(c) && c.Valid() && c.path == [] && c.stack == []
      invariant recursiveIsError ==> (errors > 0 <==> c.failed)
      invariant !recursiveIsError ==> errors == 0
      invariant recursiveIsError && !c.failed ==> forall k :: 0 <= k < i ==> Rep(g, symbols[k]) in c.order
      invariant forall k :: 0 <= k < i ==> symbols[k] in c.checked
    {
      InMentioned(g, symbols, i);
      var r := c.CheckDeps(symbols[i]);
      if r.Some? { errors := errors + 1; }
      i := i + 1;
    }
    if recursiveIsError && !c.failed {
      if HasFirmCycle(g) { AllOrdered(g, symbols, c.order); }
      if ChoicesUnnamed(g) && HasCycle(g) { UnnamedIsFirm(g); }
    }
  }

  lemma InMentioned(g: Graph, symbols: seq<Symbol>, i: nat)
    requires i < |symbols|
    ensures symbols[i] in Mentioned(g, symbols)
  {
  }

  /** If everything is finished in dependency order, there is no cycle but through names of choices. */
  lemma AllOrdered(g: Graph, symbols: seq<Symbol>, order: seq<Symbol>)
    requires g.deps.Keys <= SetOf(symbols) && AllFinished(g, symbols, order) && HasFirmCycle(g)
    ensures false
  {
    var p :| IsCycle(g, p) && IsFirm(g, p);
    assert FirmLink(g, p[0], p[0 + 1]);
    var s, t :| Edge(g, s, t) && t !in g.groups && Rep(g, s) == p[0] && Rep(g, t) == p[1];
    assert s in g.deps.Keys && s in SetOf(symbols);
    var k :| 0 <= k < |order| && order[k] == p[0];
    OrderedOnNoCycle(g, order, p, k);
  }
}
