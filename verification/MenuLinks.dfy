/**
 * The linked menu tree of scripts/config/menu.c: nodes are numbers, and each
 * of the pointer fields `list`, `next` and `parent` is a map from nodes.
 */
module MenuLinks {

  const NULL := -1

  datatype Links = Links(list: map<int, int>, next: map<int, int>, parent: map<int, int>)
  {
    predicate Has(id: int) { id >= 0 && id in list && id in next && id in parent }
  }

  /** The shape that a `list`/`next` chain spells: a node, its children, and its following siblings. */
  datatype Forest = Nil | Tree(id: int, kids: Forest, rest: Forest)

  function Ids(f: Forest): set<int> {
    match f
    case Nil => {}
    case Tree(id, kids, rest) => {id} + Ids(kids) + Ids(rest)
  }

  /** The nodes in document order. */
  function Preorder(f: Forest): seq<int> {
    match f
    case Nil => []
    case Tree(id, kids, rest) => [id] + Preorder(kids) + Preorder(rest)
  }

  function Append(f: Forest, g: Forest): Forest {
    match f
    case Nil => g
    case Tree(id, kids, rest) => Tree(id, kids, Append(rest, g))
  }

  function Count(f: Forest): nat {
    match f
    case Nil => 0
    case Tree(_, kids, rest) => 1 + Count(kids) + Count(rest)
  }

  /** The topmost nodes, and the last of them. */
  function Tops(f: Forest): set<int> {
    match f
    case Nil => {}
    case Tree(id, _, rest) => {id} + Tops(rest)
  }

  function LastTop(f: Forest): int
    requires f.Tree?
  {
    if f.rest.Nil? then f.id else LastTop(f.rest)
  }

  /** No node occurs twice. */
  ghost predicate Unique(f: Forest) {
    match f
    case Nil => true
    case Tree(id, kids, rest) =>
      && id !in Ids(kids) && id !in Ids(rest) && Ids(kids) !! Ids(rest)
      && Unique(kids) && Unique(rest)
  }

  /** The chain of siblings from `start` to just before `end` has the shape `f`. */
  ghost predicate Chain(links: Links, start: int, f: Forest, end: int)
    decreases f
  {
    match f
    case Nil => start == end
    case Tree(id, kids, rest) =>
      && start == id && links.Has(id)
      && Chain(links, links.list[id], kids, NULL)
      && Chain(links, links.next[id], rest, end)
  }

  /** Every node's `parent` is the node whose `list` chain holds it, `p` for the topmost ones. */
  ghost predicate Parented(links: Links, p: int, f: Forest)
    decreases f
  {
    match f
    case Nil => true
    case Tree(id, kids, rest) =>
      && id in links.parent && links.parent[id] == p
      && Parented(links, id, kids)
      && Parented(links, p, rest)
  }

  // ----- appending -----

  lemma ConcatAssociative(a: seq<int>, b: seq<int>, c: seq<int>)
    ensures (a + b) + c == a + (b + c)
  {
  }

  lemma {:induction false} AppendPreorder(f: Forest, g: Forest)
    ensures Preorder(Append(f, g)) == Preorder(f) + Preorder(g)
  {
    if f.Tree? {
      AppendPreorder(f.rest, g);
      ConcatAssociative([f.id] + Preorder(f.kids), Preorder(f.rest), Preorder(g));
    }
  }

  lemma {:induction false} AppendIds(f: Forest, g: Forest)
    ensures Ids(Append(f, g)) == Ids(f) + Ids(g)
    ensures Tops(Append(f, g)) == Tops(f) + Tops(g)
  {
    if f.Tree? { AppendIds(f.rest, g); }
  }

  lemma {:induction false} AppendUnique(f: Forest, g: Forest)
    ensures Unique(Append(f, g)) <==> Unique(f) && Unique(g) && Ids(f) !! Ids(g)
  {
    hide Preorder, Tops;
    if f.Tree? {
      AppendUnique(f.rest, g);
      AppendIds(f.rest, g);
    }
  }

  lemma AppendFacts(f: Forest, g: Forest)
    ensures Ids(Append(f, g)) == Ids(f) + Ids(g)
    ensures Tops(Append(f, g)) == Tops(f) + Tops(g)
    ensures Preorder(Append(f, g)) == Preorder(f) + Preorder(g)
    ensures Unique(Append(f, g)) <==> Unique(f) && Unique(g) && Ids(f) !! Ids(g)
  {
    hide *;
    AppendIds(f, g);
    AppendPreorder(f, g);
    AppendUnique(f, g);
  }

  lemma {:induction false} CountAppend(f: Forest, g: Forest)
    ensures Count(Append(f, g)) == Count(f) + Count(g)
  {
    if f.Tree? { CountAppend(f.rest, g); }
  }

  lemma {:induction false} AppendAssociative(f: Forest, g: Forest, h: Forest)
    ensures Append(Append(f, g), h) == Append(f, Append(g, h))
  {
    if f.Tree? { AppendAssociative(f.rest, g, h); }
  }

  lemma {:induction false} AppendNil(f: Forest)
    ensures Append(f, Nil) == f
  {
    if f.Tree? { AppendNil(f.rest); }
  }

  lemma {:induction false} ChainAppend(links: Links, start: int, f: Forest, mid: int, g: Forest, end: int)
    requires Chain(links, start, f, mid) && Chain(links, mid, g, end)
    ensures Chain(links, start, Append(f, g), end)
    decreases f
  {
    if f.Tree? { ChainAppend(links, links.next[f.id], f.rest, mid, g, end); }
  }

  lemma {:induction false} ParentedAppend(links: Links, p: int, f: Forest, g: Forest)
    ensures Parented(links, p, Append(f, g)) <==> Parented(links, p, f) && Parented(links, p, g)
  {
    if f.Tree? { ParentedAppend(links, p, f.rest, g); }
  }

  lemma {:induction false} TopsAreIds(f: Forest)
    ensures Tops(f) <= Ids(f)
    ensures f.Tree? ==> LastTop(f) in Tops(f)
  {
    if f.Tree? { TopsAreIds(f.rest); }
  }

  // ----- what an update leaves alone -----

  /** The two states of the links agree outside `changed`. */
  ghost predicate SameOutside(l1: Links, l2: Links, changed: set<int>) {
    && l2.list.Keys == l1.list.Keys && l2.next.Keys == l1.next.Keys && l2.parent.Keys == l1.parent.Keys
    && forall id :: id !in changed && l1.Has(id) ==>
         l2.list[id] == l1.list[id] && l2.next[id] == l1.next[id] && l2.parent[id] == l1.parent[id]
  }

  lemma {:induction false} ChainFrame(l1: Links, l2: Links, changed: set<int>, start: int, f: Forest, end: int)
    requires SameOutside(l1, l2, changed) && Ids(f) !! changed && Chain(l1, start, f, end)
    ensures Chain(l2, start, f, end)
    decreases f
  {
    if f.Tree? {
      ChainFrame(l1, l2, changed, l1.list[f.id], f.kids, NULL);
      ChainFrame(l1, l2, changed, l1.next[f.id], f.rest, end);
    }
  }

  lemma {:induction false} ParentedFrame(l1: Links, l2: Links, p: int, f: Forest)
    requires Parented(l1, p, f)
    requires forall id :: id in Ids(f) && id in l1.parent ==> id in l2.parent && l2.parent[id] == l1.parent[id]
    ensures Parented(l2, p, f)
    decreases f
  {
    if f.Tree? {
      ParentedFrame(l1, l2, f.id, f.kids);
      ParentedFrame(l1, l2, p, f.rest);
    }
  }

  lemma {:induction false} ChainHas(links: Links, start: int, f: Forest, end: int)
    requires Chain(links, start, f, end)
    ensures forall id :: id in Ids(f) ==> links.Has(id)
    decreases f
  {
    if f.Tree? {
      ChainHas(links, links.list[f.id], f.kids, NULL);
      ChainHas(links, links.next[f.id], f.rest, end);
    }
  }

  /** Redirecting the last `next` pointer of a chain moves the end of the chain. */
  lemma {:induction false} ChainEnd(links: Links, start: int, f: Forest, end: int, end': int)
    requires f.Tree? && Unique(f) && Chain(links, start, f, end)
    ensures LastTop(f) in links.next && links.next[LastTop(f)] == end
    ensures Chain(links.(next := links.next[LastTop(f) := end']), start, f, end')
    decreases f
  {
    var links' := links.(next := links.next[LastTop(f) := end']);
    if f.rest.Tree? {
      TopsAreIds(f.rest);
      ChainEnd(links, links.next[f.id], f.rest, end, end');
    }
    ChainFrame(links, links', {LastTop(f)}, links.list[f.id], f.kids, NULL);
  }

  // ----- the two restructurings -----

  /** Automatic submenu: the chain `f` after the childless node `m`, up to `end`, becomes the children of `m`. */
  lemma AdoptLinks(links: Links, m: int, f: Forest, end: int, rest: Forest)
    requires links.Has(m) && links.list[m] == NULL && f.Tree? && links.Has(LastTop(f))
    requires Unique(Tree(m, f, rest))
    requires Chain(links, links.next[m], f, end) && Chain(links, end, rest, NULL)
    ensures var links' := Adopted(links, m, LastTop(f));
            Chain(links', m, Tree(m, f, rest), NULL) && SameOutside(links, links', {m, LastTop(f)})
  {
    var first := links.next[m];
    var l1 := links.(next := links.next[LastTop(f) := NULL]);
    TopsAreIds(f);
    ChainEnd(links, first, f, end, NULL);
    var links' := Adopted(links, m, LastTop(f));
    ChainFrame(l1, links', {m}, first, f, NULL);
    ChainFrame(links, links', {m, LastTop(f)}, end, rest, NULL);
  }

  /** The three assignments that end submenu creation. */
  function Adopted(links: Links, m: int, last: int): Links
    requires links.Has(m) && last in links.next
  {
    var l1 := links.(list := links.list[m := links.next[m]]);
    var l2 := l1.(next := l1.next[m := l1.next[last]]);
    l2.(next := l2.next[last := NULL])
  }

  /** Flattening: the children of `c` become its following siblings. */
  lemma FlattenLinks(links: Links, c: int, kids: Forest, rest: Forest)
    requires kids.Tree? && Unique(Tree(c, kids, rest)) && Chain(links, c, Tree(c, kids, rest), NULL)
    ensures var links' := Flattened(links, c, LastTop(kids));
            && Chain(links', c, Tree(c, Nil, Append(kids, rest)), NULL)
            && SameOutside(links, links', {c, LastTop(kids)})
  {
    var end := links.next[c];
    TopsAreIds(kids);
    ChainHas(links, links.list[c], kids, NULL);
    var l1 := links.(next := links.next[LastTop(kids) := end]);
    ChainEnd(links, links.list[c], kids, NULL, end);
    var links' := Flattened(links, c, LastTop(kids));
    ChainFrame(l1, links', {c}, links.list[c], kids, end);
    ChainFrame(links, links', {c, LastTop(kids)}, end, rest, NULL);
    ChainAppend(links', links.list[c], kids, end, rest, NULL);
  }

  lemma FlattenKeepsOrder(c: int, kids: Forest, rest: Forest)
    requires Unique(Tree(c, kids, rest))
    ensures var after := Tree(c, Nil, Append(kids, rest));
            && Unique(after)
            && Ids(after) == Ids(Tree(c, kids, rest))
            && Preorder(after) == Preorder(Tree(c, kids, rest))
  {
    hide Tops, Append;
    AppendFacts(kids, rest);
    ConcatAssociative([c], Preorder(kids), Preorder(rest));
    assert [c] + [] == [c];
  }

  /** The three assignments that end the flattening of one node. */
  function Flattened(links: Links, c: int, last: int): Links
    requires links.Has(c)
  {
    var l1 := links.(next := links.next[last := links.next[c]]);
    var l2 := l1.(next := l1.next[c := l1.list[c]]);
    l2.(list := l2.list[c := NULL])
  }

  /** After the topmost nodes of `f` have got the parent `p`, all of `f` hangs below `p`. */
  lemma {:induction false} Reparented(l1: Links, l2: Links, q: int, p: int, f: Forest)
    requires Unique(f) && Parented(l1, q, f)
    requires l2.parent.Keys == l1.parent.Keys
    requires forall id :: id in Ids(f) && id in l1.parent ==>
               l2.parent[id] == if id in Tops(f) then p else l1.parent[id]
    ensures Parented(l2, p, f)
    decreases f
  {
    if f.Tree? {
      TopsAreIds(f.rest);
      ParentedFrame(l1, l2, f.id, f.kids);
      Reparented(l1, l2, q, p, f.rest);
    }
  }

  lemma {:induction false} UniquePreorder(f: Forest)
    requires Unique(f)
    ensures forall i, j :: 0 <= i < j < |Preorder(f)| ==> Preorder(f)[i] != Preorder(f)[j]
    ensures forall id :: id in Preorder(f) <==> id in Ids(f)
  {
    if f.Tree? {
      UniquePreorder(f.kids);
      UniquePreorder(f.rest);
      var a, b := Preorder(f.kids), Preorder(f.rest);
      forall i, j | 0 <= i < j < |Preorder(f)| ensures Preorder(f)[i] != Preorder(f)[j] {
        assert j > |a| ==> Preorder(f)[j] == b[j - 1 - |a|] && b[j - 1 - |a|] in b;
        assert 0 < j <= |a| ==> Preorder(f)[j] == a[j - 1] && a[j - 1] in a;
        assert 0 < i <= |a| ==> Preorder(f)[i] == a[i - 1] && a[i - 1] in a;
      }
    }
  }
}
