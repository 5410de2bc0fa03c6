/** The symbol table: strhash, sym_lookup and sym_find of scripts/config/symbol.c. */
module Interning {
  import opened Basics
  import opened Exprs
  import opened Words

  /** The flags a symbol is looked up with: none, SYMBOL_CONST or SYMBOL_CHOICE. */
  datatype Class = Plain | Constant | ChoiceSymbol

  /** A symbol; the name is missing for a choice without one. */
  datatype Entry = Entry(name: Option<string>, cls: Class)

  datatype Key = Key(name: string, cls: Class)

  const SIZE := 9973

  /** The built-in constants y, m and n are symbols 0, 1 and 2; they are not in the table. */
  const BUILT_IN: seq<Entry> := [Entry(Some("y"), Constant), Entry(Some("m"), Constant), Entry(Some("n"), Constant)]

  function BuiltIn(name: string): (r: Option<nat>)
    ensures r.Some? ==> r.value < 3 && BUILT_IN[r.value].name == Some(name)
  {
    if name == "y" then Some(0) else if name == "m" then Some(1) else if name == "n" then Some(2) else None
  }

  // ----- the hash -----

  /** The prime and the start of the hash "FNV-1a" for 32 bits. */
  const FNV_PRIME := 0x100_0000 + 0x100 + 0x93
  const FNV_BASIS: Word := 2166136261

  /** A character as an `unsigned int`, sign-extended from a signed char. */
  function CharWord(c: char): Word {
    var b := c as int % 256;
    if b < 128 then b else TWO_32 - 256 + b
  }

  function HashStep(h: Word, c: char): Word {
    Xor(h, CharWord(c)) * FNV_PRIME % TWO_32
  }

  function HashOf(s: string): Word {
    if s == "" then FNV_BASIS else HashStep(HashOf(s[..|s| - 1]), s[|s| - 1])
  }

  /** strhash */
  method StrHash(s: string) returns (h: Word)
    ensures h == HashOf(s)
  {
    hide Xor;
    h := 2166136261;
    for i := 0 to |s|
      invariant h == HashOf(s[..i])
    {
      assert s[..i + 1][..i] == s[..i];
      var b := s[i] as int % 0x100;
      if b >= 0x80 { b := b + 0xffff_ff00; }
      h := Xor(h, b) * 0x0100_0193 % 0x1_0000_0000;
    }
    assert s[..|s|] == s;
  }

  function BucketOf(name: Option<string>): (b: nat)
    ensures b < SIZE
  {
    if name.None? then 0 else HashOf(name.value) % SIZE
  }

  // ----- the table -----

  /** A symbol that sym_lookup accepts for a class, and one that sym_find accepts. */
  predicate Accepts(e: Entry, name: string, cls: Class) { e.name == Some(name) && e.cls == cls }

  predicate Findable(e: Entry, name: string) { e.name == Some(name) && e.cls != Constant }

  /** The number of the bucket at which `id` is chained, and the order of the chain: the newest first. */
  ghost predicate Chained(symbols: seq<Entry>, chain: seq<nat>, b: nat) {
    && (forall id :: id in chain <==> 3 <= id < |symbols| && BucketOf(symbols[id].name) == b)
    && forall i, j :: 0 <= i < j < |chain| ==> chain[i] > chain[j]
  }

  /** The plain map that the table stands for. */
  ghost predicate Indexed(symbols: seq<Entry>, index: map<Key, nat>) {
    && |symbols| >= 3 && symbols[..3] == BUILT_IN
    && (forall k :: k in index ==> 3 <= index[k] < |symbols| && symbols[index[k]] == Entry(Some(k.name), k.cls))
    && (forall id :: 3 <= id < |symbols| && symbols[id].name.Some? ==>
          && BuiltIn(symbols[id].name.value).None?
          && Key(symbols[id].name.value, symbols[id].cls) in index
          && index[Key(symbols[id].name.value, symbols[id].cls)] == id)
  }

  /** Within a class a name has one symbol. */
  lemma OneSymbolPerName(symbols: seq<Entry>, index: map<Key, nat>, i: nat, j: nat)
    requires Indexed(symbols, index) && 3 <= i < |symbols| && 3 <= j < |symbols|
    requires symbols[i].name.Some? && symbols[i] == symbols[j]
    ensures i == j
  {
    assert index[Key(symbols[i].name.value, symbols[i].cls)] == i;
  }

  lemma ChainWithNew(symbols: seq<Entry>, chain: seq<nat>, b: nat, e: Entry)
    requires |symbols| >= 3 && Chained(symbols, chain, b)
    ensures Chained(symbols + [e], if BucketOf(e.name) == b then [|symbols|] + chain else chain, b)
  {
    hide BucketOf;
    var chain' := if BucketOf(e.name) == b then [|symbols|] + chain else chain;
    forall id ensures id in chain' <==> 3 <= id < |symbols| + 1 && BucketOf((symbols + [e])[id].name) == b {
      if 0 <= id < |symbols| { assert (symbols + [e])[id] == symbols[id]; }
    }
    forall i, j | 0 <= i < j < |chain'| ensures chain'[i] > chain'[j] {
      assert chain'[j] in chain';
      if BucketOf(e.name) == b && i == 0 { assert chain'[j] == chain[j - 1] && chain[j - 1] in chain; }
    }
  }

  class SymbolTable {
    /** symbol_hash: the chain of each bucket. */
    const table: array<seq<nat>>
    /** All symbols, a number standing for a pointer. */
    var symbols: seq<Entry>
    ghost var index: map<Key, nat>

    ghost predicate Valid()
      reads this, table
    {
      && table.Length == SIZE && Indexed(symbols, index)
      && forall b :: 0 <= b < SIZE ==> Chained(symbols, table[b], b)
    }

    constructor ()
      ensures Valid() && fresh(table) && index == map[] && symbols == BUILT_IN
    {
      table := new seq<nat>[SIZE](_ => []);
      symbols := BUILT_IN;
      index := map[];
    }

    /** The walk along a chain in sym_lookup. */
    method Walk(b: nat, name: string, cls: Class) returns (r: Option<nat>)
      requires Valid() && b == BucketOf(Some(name)) && BuiltIn(name).None?
      ensures r == if Key(name, cls) in index then Some(index[Key(name, cls)]) else None
    {
      hide BucketOf;
      var chain := table[b];
      var i := 0;
      while i < |chain|
        invariant 0 <= i <= |chain|
        invariant forall k :: 0 <= k < i ==> chain[k] < |symbols| && !Accepts(symbols[chain[k]], name, cls)
      {
        assert chain[i] in chain;
        var symbol := symbols[chain[i]];
        if symbol.name == Some(name) && symbol.cls == cls { return Some(chain[i]); }
        i := i + 1;
      }
      r := None;
    }

    /** The end of sym_lookup: a new symbol at the front of its chain. */
    method Insert(b: nat, e: Entry)
      requires Valid() && b == BucketOf(e.name)
      requires e.name.Some? ==> BuiltIn(e.name.value).None? && Key(e.name.value, e.cls) !in index
      modifies `symbols, `index, table
      ensures Valid() && symbols == old(symbols) + [e]
      ensures index == if e.name.Some? then old(index)[Key(e.name.value, e.cls) := |old(symbols)|] else old(index)
    {
      hide BucketOf;
      forall c | 0 <= c < SIZE
        ensures Chained(symbols + [e], if c == b then [|symbols|] + table[c] else table[c], c)
      {
        ChainWithNew(symbols, table[c], c, e);
      }
      table[b] := [|symbols|] + table[b];
      if e.name.Some? { index := index[Key(e.name.value, e.cls) := |symbols|]; }
      symbols := symbols + [e];
    }

    /** sym_lookup */
    method Lookup(name: Option<string>, cls: Class) returns (id: nat)
      requires Valid()
      modifies `symbols, `index, table
      ensures Valid() && id < |symbols| && old(symbols) <= symbols
      ensures name.Some? && BuiltIn(name.value).Some? ==>
        id == BuiltIn(name.value).value && symbols == old(symbols) && index == old(index)
      ensures name.Some? && BuiltIn(name.value).None? ==>
        && id == (if Key(name.value, cls) in old(index) then old(index)[Key(name.value, cls)] else |old(symbols)|)
        && index == old(index)[Key(name.value, cls) := id] && symbols[id] == Entry(name, cls)
      ensures name.None? ==> id == |old(symbols)| && index == old(index) && symbols == old(symbols) + [Entry(None, cls)]
    {
      hide Indexed, Chained;
      var b := 0;
      if name.Some? {
        var special := BuiltIn(name.value);
        if special.Some? { KnownSymbols(symbols, index); return special.value; }
        var h := StrHash(name.value);
        b := h % SIZE;
        var found := Walk(b, name.value, cls);
        if found.Some? {
          IndexedEntry(symbols, index, Key(name.value, cls));
          assert index == index[Key(name.value, cls) := found.value];
          return found.value;
        }
      }
      id := |symbols|;
      Insert(b, Entry(name, cls));
    }

    /** sym_find: the newest symbol of that name that is not a constant. */
    method Find(name: Option<string>) returns (r: Option<nat>)
      requires Valid()
      ensures name.None? ==> r == None
      ensures name.Some? && BuiltIn(name.value).Some? ==> r == BuiltIn(name.value)
      ensures name.Some? && BuiltIn(name.value).None? ==>
        && (r.Some? ==> 3 <= r.value < |symbols| && Findable(symbols[r.value], name.value))
        && (forall id :: 3 <= id < |symbols| && Findable(symbols[id], name.value) ==> r.Some? && id <= r.value)
    {
      if name.None? { return None; }
      var special := BuiltIn(name.value);
      if special.Some? { return special; }
      var h := StrHash(name.value);
      hide HashOf;
      var chain := table[h % SIZE];
      var i := 0;
      while i < |chain|
        invariant 0 <= i <= |chain|
        invariant forall k :: 0 <= k < i ==> chain[k] < |symbols| && !Findable(symbols[chain[k]], name.value)
      {
        assert chain[i] in chain;
        var symbol := symbols[chain[i]];
        if symbol.name == name && symbol.cls != Constant {
          forall id | 3 <= id < |symbols| && Findable(symbols[id], name.value) ensures id <= chain[i] {
            var k :| 0 <= k < |chain| && chain[k] == id;
            assert k >= i;
          }
          return Some(chain[i]);
        }
        i := i + 1;
      }
      forall id | 3 <= id < |symbols| ensures !Findable(symbols[id], name.value) {
        assert symbols[id].name == name ==> id in chain;
      }
      r := None;
    }
  }

  lemma KnownSymbols(symbols: seq<Entry>, index: map<Key, nat>)
    requires Indexed(symbols, index)
    ensures |symbols| >= 3
  {
  }

  lemma IndexedEntry(symbols: seq<Entry>, index: map<Key, nat>, k: Key)
    requires Indexed(symbols, index) && k in index
    ensures 3 <= index[k] < |symbols| && symbols[index[k]] == Entry(Some(k.name), k.cls)
  {
  }

  // ----- sequences of lookups -----

  datatype Request = Request(name: Option<string>, cls: Class)

  /** Two lookups that must give the same symbol. */
  predicate SameSymbol(a: Request, b: Request) {
    a.name.Some? && a.name == b.name && (BuiltIn(a.name.value).Some? || a.cls == b.cls)
  }

  /** `id` is what the table gives for a request. */
  ghost predicate Answers(symbols: seq<Entry>, index: map<Key, nat>, a: Request, id: nat) {
    id < |symbols| &&
    match a.name
    case None => id >= 3 && symbols[id] == Entry(None, a.cls)
    case Some(name) =>
      if BuiltIn(name).Some? then id == BuiltIn(name).value
      else Key(name, a.cls) in index && id == index[Key(name, a.cls)]
  }

  lemma AnswersAgree(symbols: seq<Entry>, index: map<Key, nat>, a: Request, i: nat, b: Request, j: nat)
    requires Indexed(symbols, index) && Answers(symbols, index, a, i) && Answers(symbols, index, b, j)
    requires a.name.Some? || b.name.Some?
    ensures i == j <==> SameSymbol(a, b)
  {
    if a.name.Some? && BuiltIn(a.name.value).Some? { assert BUILT_IN[i].name == a.name; }
    if b.name.Some? && BuiltIn(b.name.value).Some? { assert BUILT_IN[j].name == b.name; }
  }

  /** Later lookups keep earlier answers. */
  ghost predicate Grows(s: seq<Entry>, m: map<Key, nat>, s': seq<Entry>, m': map<Key, nat>) {
    s <= s' && forall k :: k in m ==> k in m' && m'[k] == m[k]
  }

  lemma AnswerStays(s: seq<Entry>, m: map<Key, nat>, s': seq<Entry>, m': map<Key, nat>, a: Request, id: nat)
    requires Grows(s, m, s', m') && Answers(s, m, a, id)
    ensures Answers(s', m', a, id)
  {
  }

  /**
   * Over every sequence of lookups the symbols returned are equal exactly for requests
   * with the same name and class, or with the same built-in name; a missing name
   * always makes a new symbol.
   */
  method LookupAll(requests: seq<Request>) returns (ids: seq<nat>)
    ensures |ids| == |requests|
    ensures forall i, j :: 0 <= i < j < |ids| ==> (ids[i] == ids[j] <==> SameSymbol(requests[i], requests[j]))
  {
    hide Indexed, Chained, BuiltIn;
    var t := new SymbolTable();
    ids := [];
    while |ids| < |requests|
      invariant |ids| <= |requests| && t.Valid() && fresh(t) && fresh(t.table)
      invariant forall i :: 0 <= i < |ids| ==> Answers(t.symbols, t.index, requests[i], ids[i])
      invariant forall i, j :: 0 <= i < j < |ids| ==> (ids[i] == ids[j] <==> SameSymbol(requests[i], requests[j]))
    {
      ghost var n, s, m := |ids|, t.symbols, t.index;
      KnownSymbols(s, m);
      var id := t.Lookup(requests[|ids|].name, requests[|ids|].cls);
      forall i | 0 <= i < n
        ensures Answers(t.symbols, t.index, requests[i], ids[i])
        ensures ids[i] == id <==> SameSymbol(requests[i], requests[n])
      {
        AnswerStays(s, m, t.symbols, t.index, requests[i], ids[i]);
        if requests[i].name.Some? || requests[n].name.Some? {
          AnswersAgree(t.symbols, t.index, requests[i], ids[i], requests[n], id);
        }
      }
      ids := ids + [id];
    }
  }
}
