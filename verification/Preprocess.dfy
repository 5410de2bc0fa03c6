/**
 * Expansion of variables and functions in Kconfig text
 * (scripts/config/preprocess.c).
 */
module Preprocess {
  import opened Basics
  import CNumbers

  datatype Error =
    | Unterminated                  // a reference without closing parenthesis
    | TooManyArguments
    | SelfReference(name: string)   // a variable that expands to itself
    | TooDeep
    | BuiltinError

  datatype Result<+T> = Ok(value: T) | Err(error: Error)

  datatype Variable = Variable(name: string, value: string, recursive: bool)

  /**
   * What expansion reads: the variables, the built-in functions (which return a
   * string, nothing, or end the program), and the environment.
   */
  datatype Env = Env(vars: seq<Variable>,
                     builtin: (string, seq<string>) -> Result<Option<string>>,
                     getenv: string -> Option<string>)

  const MAX_ARGS := 16
  const MAX_DEPTH := 1000

  // ----- scanning -----

  /** The closing parenthesis that matches, `nest` levels down. */
  function FindClose(s: string, q: nat, nest: nat): (r: Option<nat>)
    requires q <= |s|
    ensures r.Some? ==> q <= r.value < |s| && s[r.value] == ')'
    decreases |s| - q
  {
    if q == |s| then None
    else if s[q] == '(' then FindClose(s, q + 1, nest + 1)
    else if s[q] == ')' then if nest == 0 then Some(q) else FindClose(s, q + 1, nest - 1)
    else FindClose(s, q + 1, nest)
  }

  /** What a dollar sign introduces: nothing, an unfinished reference, or a clause and what follows it. */
  datatype Reference = Lone | Broken | Clause(text: string, rest: string)

  /** The reference that the text behind a dollar sign starts with. */
  function ReferenceOf(s: string): (r: Reference)
    ensures r.Clause? ==> |r.rest| < |s| && |r.text| < |s|
  {
    if s == "" || s[0] != '(' then Lone
    else match FindClose(s, 1, 0)
      case None => Broken
      case Some(q) => Clause(s[1..q], s[q + 1..])
  }

  /** The parts of a clause between the commas outside parentheses. */
  function Split(s: string, prev: nat, p: nat, nest: int): (parts: seq<string>)
    requires prev <= p <= |s|
    ensures |parts| > 0
    ensures forall part :: part in parts ==> |part| <= |s|
    decreases |s| - p
  {
    if p == |s| then [s[prev..]]
    else if nest == 0 && s[p] == ',' then [s[prev..p]] + Split(s, p + 1, p + 1, nest)
    else Split(s, prev, p + 1, if s[p] == '(' then nest + 1 else if s[p] == ')' then nest - 1 else nest)
  }

  function Join(parts: seq<string>): string {
    if parts == [] then [] else if |parts| == 1 then parts[0] else parts[0] + "," + Join(parts[1..])
  }

  /** Splitting loses nothing: the parts, joined by commas, are the clause. */
  lemma {:induction false} JoinOfSplit(s: string, prev: nat, p: nat, nest: int)
    requires prev <= p <= |s|
    ensures Join(Split(s, prev, p, nest)) == s[prev..]
    decreases |s| - p
  {
    if p < |s| {
      if nest == 0 && s[p] == ',' {
        JoinOfSplit(s, p + 1, p + 1, nest);
        var rest := Split(s, p + 1, p + 1, nest);
        assert Split(s, prev, p, nest)[1..] == rest;
        assert s[prev..] == s[prev..p] + "," + s[p + 1..];
      } else {
        JoinOfSplit(s, prev, p + 1, if s[p] == '(' then nest + 1 else if s[p] == ')' then nest - 1 else nest);
      }
    }
  }

  predicate IsTokenEnd(c: char) {
    !('0' <= c <= '9' || 'a' <= c <= 'z' || 'A' <= c <= 'Z' || c == '_' || c == '-' || c == '.' || c == '/')
  }

  // ----- what a string expands to -----

  function Lookup(vars: seq<Variable>, name: string): (r: Option<nat>)
    ensures r.Some? ==> r.value < |vars| && vars[r.value].name == name
    ensures r.Some? ==> forall k :: 0 <= k < r.value ==> vars[k].name != name
    ensures r.None? ==> forall k :: 0 <= k < |vars| ==> vars[k].name != name
  {
    LookupFrom(vars, name, 0)
  }

  function LookupFrom(vars: seq<Variable>, name: string, i: nat): (r: Option<nat>)
    requires i <= |vars|
    ensures r.Some? ==> i <= r.value < |vars| && vars[r.value].name == name
    ensures r.Some? ==> forall k :: i <= k < r.value ==> vars[k].name != name
    ensures r.None? ==> forall k :: i <= k < |vars| ==> vars[k].name != name
    decreases |vars| - i
  {
    if i == |vars| then None else if vars[i].name == name then Some(i) else LookupFrom(vars, name, i + 1)
  }

  /** How many more expansions can be nested, given the current counts. */
  function Budget(counts: seq<nat>): nat {
    if counts == [] then 0
    else Budget(counts[..|counts| - 1]) + Room(counts[|counts| - 1])
  }

  function Room(count: nat): nat {
    if count <= MAX_DEPTH then MAX_DEPTH + 1 - count else 0
  }

  lemma {:induction false} BudgetFalls(counts: seq<nat>, i: nat)
    requires i < |counts| && counts[i] <= MAX_DEPTH
    ensures Budget(counts[i := counts[i] + 1]) == Budget(counts) - 1
  {
    var bumped := counts[i := counts[i] + 1];
    var n := |counts| - 1;
    if i < n {
      BudgetFalls(counts[..n], i);
      assert bumped[..n] == counts[..n][i := counts[i] + 1];
    } else {
      assert bumped[..n] == counts[..n];
    }
  }

  /** An expansion and the text left behind it. */
  type Expansion = Result<(string, string)>

  function Prepend(x: string, r: Expansion): Expansion {
    match r
    case Err(e) => Err(e)
    case Ok((y, rest)) => Ok((x + y, rest))
  }

  /** The expansion of `s`, and what is left of it: a token ends at its first other character. */
  function Expand(env: Env, counts: seq<nat>, s: string, token: bool, args: seq<string>): (r: Expansion)
    requires |counts| == |env.vars|
    ensures r.Ok? && !token ==> r.value.1 == ""
    decreases Budget(counts), |s|, 1
  {
    if s == "" then Ok(("", ""))
    else if s[0] == '$' then
      match ExpandDollar(env, counts, s[1..], args)
      case Err(e) => Err(e)
      case Ok((x, rest)) => Prepend(x, Expand(env, counts, rest, token, args))
    else if token && IsTokenEnd(s[0]) then Ok(("", s))
    else Prepend([s[0]], Expand(env, counts, s[1..], token, args))
  }

  /** What follows a dollar sign. */
  function ExpandDollar(env: Env, counts: seq<nat>, s: string, args: seq<string>): (r: Expansion)
    requires |counts| == |env.vars|
    ensures r.Ok? ==> |r.value.1| <= |s|
    decreases Budget(counts), |s|, 0
  {
    match ReferenceOf(s)
    case Lone => Ok(("$", s))
    case Broken => Err(Unterminated)
    case Clause(text, rest) =>
      match EvalClause(env, counts, text, args)
      case Err(e) => Err(e)
      case Ok(x) => Ok((x, rest))
  }

  function EvalClause(env: Env, counts: seq<nat>, clause: string, args: seq<string>): Result<string>
    requires |counts| == |env.vars|
    decreases Budget(counts), |clause|, 3
  {
    var n := CNumbers.Strtoull(clause, 10);
    if n.tail == |clause| && 0 < n.value <= |args| then Ok(args[n.value - 1])
    else
      var parts := Split(clause, 0, 0, 0);
      if |parts| > MAX_ARGS then Err(TooManyArguments)
      else match ExpandAll(env, counts, parts, |clause|, args)
        case Err(e) => Err(e)
        case Ok(full) => Call(env, counts, full[0], full[1..])
  }

  /** Name and arguments, expanded from left to right. */
  function ExpandAll(env: Env, counts: seq<nat>, parts: seq<string>, size: nat,
                     args: seq<string>): (r: Result<seq<string>>)
    requires |counts| == |env.vars| && forall part :: part in parts ==> |part| <= size
    ensures r.Ok? ==> |r.value| == |parts|
    decreases Budget(counts), size, 2, |parts|
  {
    if parts == [] then Ok([])
    else match ExpandAll(env, counts, parts[..|parts| - 1], size, args)
      case Err(e) => Err(e)
      case Ok(xs) =>
        match Expand(env, counts, parts[|parts| - 1], false, args)
        case Err(e) => Err(e)
        case Ok((x, _)) => Ok(xs + [x])
  }

  /** A variable, else a built-in function, else the environment, else nothing. */
  function Call(env: Env, counts: seq<nat>, name: string, args: seq<string>): Result<string>
    requires |counts| == |env.vars|
    decreases Budget(counts), 0, 1
  {
    match ExpandVariable(env, counts, name, args)
    case Err(e) => Err(e)
    case Ok(Some(x)) => Ok(x)
    case Ok(None) => CallOther(env, name, args)
  }

  function CallOther(env: Env, name: string, args: seq<string>): Result<string> {
    match env.builtin(name, args)
    case Err(e) => Err(e)
    case Ok(Some(x)) => Ok(x)
    case Ok(None) =>
      var x := if args == [] && name != "" then env.getenv(name) else None;
      Ok(if x.Some? then x.value else "")
  }

  function ExpandVariable(env: Env, counts: seq<nat>, name: string, args: seq<string>): Result<Option<string>>
    requires |counts| == |env.vars|
    decreases Budget(counts), 0, 0
  {
    match Lookup(env.vars, name)
    case None => Ok(None)
    case Some(i) =>
      if args == [] && counts[i] > 0 then Err(SelfReference(name))
      else if counts[i] > MAX_DEPTH then Err(TooDeep)
      else if !env.vars[i].recursive then Ok(Some(env.vars[i].value))
      else
        BudgetFalls(counts, i);
        match Expand(env, counts[i := counts[i] + 1], env.vars[i].value, false, args)
        case Err(e) => Err(e)
        case Ok((x, _)) => Ok(Some(x))
  }

  // ----- laws of expansion -----

  /** Text without a dollar sign stands for itself. */
  lemma {:induction false} PlainText(env: Env, counts: seq<nat>, s: string, args: seq<string>)
    requires |counts| == |env.vars| && forall k :: 0 <= k < |s| ==> s[k] != '$'
    ensures Expand(env, counts, s, false, args) == Ok((s, ""))
  {
    if s != "" {
      PlainText(env, counts, s[1..], args);
      assert s == [s[0]] + s[1..];
    }
  }

  lemma {:induction false} FindCloseAppend(a: string, b: string, q: nat, nest: nat)
    requires q <= |a| && FindClose(a, q, nest).Some?
    ensures FindClose(a + b, q, nest) == FindClose(a, q, nest)
    decreases |a| - q
  {
    assert (a + b)[q] == a[q];
    if a[q] == '(' {
      FindCloseAppend(a, b, q + 1, nest + 1);
    } else if a[q] == ')' {
      if nest > 0 { FindCloseAppend(a, b, q + 1, nest - 1); }
    } else {
      FindCloseAppend(a, b, q + 1, nest);
    }
  }

  lemma ReferenceAppend(a: string, b: string)
    requires a != "" && !ReferenceOf(a).Broken?
    ensures var r := ReferenceOf(a);
            ReferenceOf(a + b) == if r.Clause? then Clause(r.text, r.rest + b) else Lone
  {
    assert (a + b)[0] == a[0];
    if a[0] == '(' {
      FindCloseAppend(a, b, 1, 0);
      var q := FindClose(a, 1, 0).value;
      assert (a + b)[1..q] == a[1..q] && (a + b)[q + 1..] == a[q + 1..] + b;
    }
  }

  /**
   * Expansion distributes over concatenation, unless the cut is inside a
   * reference or just behind a dollar sign.
   */
  lemma {:induction false} ExpandAppend(env: Env, counts: seq<nat>, a: string, b: string, args: seq<string>)
    requires |counts| == |env.vars|
    requires a != "" ==> a[|a| - 1] != '$'
    requires Expand(env, counts, a, false, args).Ok?
    ensures Expand(env, counts, a + b, false, args)
         == Prepend(Expand(env, counts, a, false, args).value.0, Expand(env, counts, b, false, args))
    decreases |a|
  {
    var whole := Expand(env, counts, b, false, args);
    if a == "" {
      assert a + b == b;
      PrependNothing("", whole);
    } else if a[0] == '$' {
      assert (a + b)[1..] == a[1..] + b;
      ReferenceAppend(a[1..], b);
      var (x, rest) := ExpandDollar(env, counts, a[1..], args).value;
      RestIsEnd(a, rest, env, counts, args);
      ExpandAppend(env, counts, rest, b, args);
      PrependTwice(x, Expand(env, counts, rest, false, args).value.0, whole);
    } else {
      assert (a + b)[1..] == a[1..] + b;
      ExpandAppend(env, counts, a[1..], b, args);
      PrependTwice([a[0]], Expand(env, counts, a[1..], false, args).value.0, whole);
    }
  }

  /** What is left behind a reference ends as the text ends. */
  lemma RestIsEnd(a: string, rest: string, env: Env, counts: seq<nat>, args: seq<string>)
    requires |counts| == |env.vars| && a != "" && ExpandDollar(env, counts, a[1..], args).Ok?
    requires rest == ExpandDollar(env, counts, a[1..], args).value.1
    ensures |rest| < |a| && rest == a[|a| - |rest|..]
  {
    hide FindClose, EvalClause, Budget;
  }

  lemma PrependNothing(x: string, r: Expansion)
    requires x == ""
    ensures Prepend(x, r) == r
  {
    if r.Ok? { assert x + r.value.0 == r.value.0; }
  }

  lemma PrependError(x: string, r: Expansion, e: Error)
    requires r == Err(e)
    ensures Prepend(x, r) == Err(e)
  {
  }

  /** One step of a scan, at the position `p` of `str`. */
  lemma ExpandStep(env: Env, counts: seq<nat>, str: string, p: nat, token: bool, args: seq<string>)
    requires |counts| == |env.vars| && p < |str|
    ensures var whole, d := Expand(env, counts, str[p..], token, args), ExpandDollar(env, counts, str[p + 1..], args);
            && (str[p] == '$' && d.Err? ==> whole == Err(d.error))
            && (str[p] == '$' && d.Ok? ==> whole == Prepend(d.value.0, Expand(env, counts, d.value.1, token, args)))
            && (str[p] != '$' && token && IsTokenEnd(str[p]) ==> whole == Ok(("", str[p..])))
            && (str[p] != '$' && !(token && IsTokenEnd(str[p])) ==>
                  whole == Prepend([str[p]], Expand(env, counts, str[p + 1..], token, args)))
  {
    hide ExpandDollar, Prepend, IsTokenEnd, Budget;
    assert str[p..][1..] == str[p + 1..];
  }

  /** The end of a scan: behind the text, or before the character that ends a token. */
  lemma PrependEnd(env: Env, counts: seq<nat>, x: string, str: string, p: nat, token: bool, args: seq<string>)
    requires |counts| == |env.vars| && p <= |str|
    requires p < |str| ==> str[p] != '$' && token && IsTokenEnd(str[p])
    ensures Prepend(x, Expand(env, counts, str[p..], token, args)) == Ok((x, str[p..]))
  {
    hide ExpandDollar, IsTokenEnd, Budget;
    assert x + "" == x;
  }

  lemma PrependTwice(x: string, y: string, r: Expansion)
    ensures Prepend(x, Prepend(y, r)) == Prepend(x + y, r)
  {
    if r.Ok? { assert x + (y + r.value.0) == (x + y) + r.value.0; }
  }

  /** A name that is not a number, a list or a reference. */
  predicate SimpleName(name: string) {
    && name != "" && CNumbers.DigitValue(name[0]) >= 10 && !CNumbers.IsSpace(name[0]) && name[0] != '+'
         && name[0] != '-'
    && forall k :: 0 <= k < |name| ==> name[k] != '$' && name[k] != ',' && name[k] != '(' && name[k] != ')'
  }

  lemma SimpleClause(env: Env, counts: seq<nat>, name: string, args: seq<string>)
    requires |counts| == |env.vars| && SimpleName(name)
    ensures EvalClause(env, counts, name, args) == Call(env, counts, name, [])
  {
    assert CNumbers.SkipSpace(name, 0) == 0;
    assert CNumbers.ScanNumber(name, 10).tail == 0;
    NoCommas(name, 0);
    PlainText(env, counts, name, args);
    ExpandSingle(env, counts, name, args, name);
    assert [name][1..] == [];
  }

  lemma ExpandSingle(env: Env, counts: seq<nat>, part: string, args: seq<string>, x: string)
    requires |counts| == |env.vars| && Expand(env, counts, part, false, args) == Ok((x, ""))
    ensures ExpandAll(env, counts, [part], |part|, args) == Ok([x])
  {
    assert [part][..0] == [];
    assert ExpandAll(env, counts, [], |part|, args) == Ok([]);
    assert [] + [x] == [x];
  }

  lemma ParenthesizedText(text: string)
    requires forall k :: 0 <= k < |text| ==> text[k] != '(' && text[k] != ')'
    ensures ReferenceOf("(" + text + ")") == Clause(text, "")
  {
    var s := "(" + text + ")";
    forall k | 1 <= k < |s| - 1 ensures s[k] != '(' && s[k] != ')' {
      assert s[k] == text[k - 1];
    }
    NoParens(s, 1);
    assert s[1..|s| - 1] == text;
  }

  lemma ExpandReference(env: Env, counts: seq<nat>, text: string, args: seq<string>)
    requires |counts| == |env.vars| && forall k :: 0 <= k < |text| ==> text[k] != '(' && text[k] != ')'
    ensures var r, x := Expand(env, counts, "$(" + text + ")", false, args), EvalClause(env, counts, text, args);
            r == if x.Ok? then Ok((x.value, "")) else Err(x.error)
  {
    hide EvalClause;
    var s := "(" + text + ")";
    assert ("$(" + text + ")")[1..] == s;
    ParenthesizedText(text);
    assert Expand(env, counts, "", false, args) == Ok(("", ""));
    var x := EvalClause(env, counts, text, args);
    if x.Ok? { assert x.value + "" == x.value; }
  }

  /** A variable whose expansion is under way is an error when it is mentioned again without arguments. */
  lemma SelfReferenceIsError(env: Env, counts: seq<nat>, name: string, i: nat, args: seq<string>)
    requires |counts| == |env.vars| && Lookup(env.vars, name) == Some(i) && counts[i] > 0 && SimpleName(name)
    ensures Expand(env, counts, "$(" + name + ")", false, args) == Err(SelfReference(name))
  {
    SimpleClause(env, counts, name, args);
    ExpandReference(env, counts, name, args);
  }

  /**
   * A reference to a variable stands for its value: as it is for a simple variable, expanded
   * for a recursive one, while the variable counts as being expanded.
   */
  lemma VariableStandsForValue(env: Env, counts: seq<nat>, name: string, i: nat, args: seq<string>)
    requires |counts| == |env.vars| && Lookup(env.vars, name) == Some(i) && counts[i] == 0 && SimpleName(name)
    ensures Expand(env, counts, "$(" + name + ")", false, args) ==
      if env.vars[i].recursive then Expand(env, counts[i := 1], env.vars[i].value, false, [])
      else Ok((env.vars[i].value, ""))
  {
    SimpleClause(env, counts, name, args);
    ExpandReference(env, counts, name, args);
    assert counts[i := counts[i] + 1] == counts[i := 1];
  }

  /** What the environment says of a name. */
  function FromEnvironment(env: Env, name: string): string {
    if env.getenv(name).Some? then env.getenv(name).value else ""
  }

  /** A name that is no variable stands for a built-in function, or else for what the environment says of it. */
  lemma OtherNameStandsForEnvironment(env: Env, counts: seq<nat>, name: string, args: seq<string>)
    requires |counts| == |env.vars| && Lookup(env.vars, name).None? && SimpleName(name)
    ensures Expand(env, counts, "$(" + name + ")", false, args) ==
      match env.builtin(name, [])
      case Err(e) => Err(e)
      case Ok(Some(x)) => Ok((x, ""))
      case Ok(None) => Ok((FromEnvironment(env, name), ""))
  {
    hide Expand;
    SimpleClause(env, counts, name, args);
    ExpandReference(env, counts, name, args);
  }

  /** The environment is not asked for the empty name. */
  lemma EmptyReference(env: Env, counts: seq<nat>, args: seq<string>)
    requires |counts| == |env.vars| && Lookup(env.vars, "").None? && env.builtin("", []) == Ok(None)
    ensures Expand(env, counts, "$()", false, args) == Ok(("", ""))
  {
    ExpandReference(env, counts, "", args);
    assert "$(" + "" + ")" == "$()";
    EmptyClause(env, counts, args);
  }

  lemma EmptyClause(env: Env, counts: seq<nat>, args: seq<string>)
    requires |counts| == |env.vars|
    ensures EvalClause(env, counts, "", args) == Call(env, counts, "", [])
  {
    hide Call;
    assert CNumbers.Strtoull("", 10).value == 0;
    assert Split("", 0, 0, 0) == [""] && [""][1..] == [];
    assert ExpandAll(env, counts, [], 0, args) == Ok([]);
    assert Expand(env, counts, "", false, args) == Ok(("", ""));
    assert [""][..0] == [] && [] + [""] == [""];
    assert ExpandAll(env, counts, [""], 0, args) == Ok([""]);
  }

  /** The value mentions `name` in a reference without arguments, behind text without a dollar sign. */
  ghost predicate Mentions(value: string, name: string) {
    exists front, back :: MentionsBetween(value, front, name, back)
  }

  predicate MentionsBetween(value: string, front: string, name: string, back: string) {
    && (forall k :: 0 <= k < |front| ==> front[k] != '$')
    && value == front + ("$(" + name + ")" + back)
  }

  lemma ClauseFails(env: Env, counts: seq<nat>, s: string, text: string, rest: string, args: seq<string>)
    requires |counts| == |env.vars| && ReferenceOf(s) == Clause(text, rest) && |text| < |s|
    requires EvalClause(env, counts, text, args).Err?
    ensures Expand(env, counts, "$" + s, false, args) == Err(EvalClause(env, counts, text, args).error)
  {
    hide EvalClause, ReferenceOf;
    assert ("$" + s)[1..] == s;
  }

  /** If a reference is an error, so is a text that goes on behind it. */
  lemma ReferenceFails(env: Env, counts: seq<nat>, text: string, back: string, args: seq<string>)
    requires |counts| == |env.vars| && forall k :: 0 <= k < |text| ==> text[k] != '(' && text[k] != ')'
    requires Expand(env, counts, "$(" + text + ")", false, args).Err?
    ensures Expand(env, counts, "$(" + text + ")" + back, false, args)
         == Expand(env, counts, "$(" + text + ")", false, args)
  {
    hide EvalClause, ReferenceOf, Expand;
    var s := "(" + text + ")";
    ExpandReference(env, counts, text, args);
    ParenthesizedText(text);
    ReferenceAppend(s, back);
    ClauseFails(env, counts, s + back, text, "" + back, args);
    assert "$" + (s + back) == "$(" + text + ")" + back;
  }

  /** If a variable that a value mentions is an error, so is the value. */
  lemma MentionFails(env: Env, counts: seq<nat>, value: string, name: string, args: seq<string>)
    requires |counts| == |env.vars| && SimpleName(name) && Mentions(value, name)
    requires Expand(env, counts, "$(" + name + ")", false, args).Err?
    ensures Expand(env, counts, value, false, args) == Expand(env, counts, "$(" + name + ")", false, args)
  {
    hide Expand;
    var front, back :| MentionsBetween(value, front, name, back);
    ReferenceFails(env, counts, name, back, args);
    PlainText(env, counts, front, args);
    ExpandAppend(env, counts, front, "$(" + name + ")" + back, args);
  }

  /** The variables `chain` are recursive, each mentioning the next, and the last one the first. */
  ghost predicate Cyclic(env: Env, chain: seq<nat>) {
    && chain != [] && (forall k :: 0 <= k < |chain| ==> chain[k] < |env.vars|)
    && forall k :: 0 <= k < |chain| ==>
         && SimpleName(env.vars[chain[k]].name)
         && Lookup(env.vars, env.vars[chain[k]].name) == Some(chain[k])
         && env.vars[chain[k]].recursive
         && Mentions(env.vars[chain[k]].value, env.vars[chain[if k + 1 < |chain| then k + 1 else 0]].name)
  }

  lemma {:induction false} CycleFails(env: Env, counts: seq<nat>, chain: seq<nat>, k: nat, args: seq<string>)
    requires |counts| == |env.vars| && Cyclic(env, chain) && k <= |chain|
    requires forall j :: 0 <= j < k ==> counts[chain[j]] > 0
    ensures var name := env.vars[chain[if k < |chain| then k else 0]].name;
            var r := Expand(env, counts, "$(" + name + ")", false, args);
            r.Err? && r.error.SelfReference?
    decreases |chain| - k
  {
    hide Expand;
    var i := chain[if k < |chain| then k else 0];
    var name := env.vars[i].name;
    if counts[i] > 0 {
      SelfReferenceIsError(env, counts, name, i, args);
    } else {
      VariableStandsForValue(env, counts, name, i, args);
      CycleFails(env, counts[i := 1], chain, k + 1, []);
      MentionFails(env, counts[i := 1], env.vars[i].value,
                   env.vars[chain[if k + 1 < |chain| then k + 1 else 0]].name, []);
    }
  }

  /**
   * A variable whose value refers to itself, directly or through any number of other
   * variables, is an error when it is expanded from the start, whatever else the values hold.
   */
  lemma CyclicVariablesAreErrors(env: Env, chain: seq<nat>)
    requires Cyclic(env, chain)
    ensures var r := Expand(env, seq(|env.vars|, _ => 0), "$(" + env.vars[chain[0]].name + ")", false, []);
            r.Err? && r.error.SelfReference?
  {
    hide Expand;
    CycleFails(env, seq(|env.vars|, _ => 0), chain, 0, []);
  }

  // ----- calls with arguments -----

  /** From `p` on, `nest` levels down: the parentheses match up to the end, and commas are inside them. */
  predicate Closed(s: string, p: nat, nest: nat)
    requires p <= |s|
    decreases |s| - p
  {
    if p == |s| then nest == 0
    else if s[p] == '(' then Closed(s, p + 1, nest + 1)
    else if s[p] == ')' then nest > 0 && Closed(s, p + 1, nest - 1)
    else (s[p] == ',' ==> nest > 0) && Closed(s, p + 1, nest)
  }

  /** A list whose parts can be told apart. */
  ghost predicate ClosedParts(parts: seq<string>) {
    forall j :: 0 <= j < |parts| ==> Closed(parts[j], 0, 0)
  }

  /** Scanning over a closed part, which `s` has at `q - p`. */
  lemma {:induction false} ScanPart(s: string, prev: nat, q: nat, part: string, p: nat, nest: nat)
    requires p <= |part| && prev <= q && q + |part| - p <= |s| && s[q..q + |part| - p] == part[p..]
             && Closed(part, p, nest)
    ensures Split(s, prev, q, nest) == Split(s, prev, q + |part| - p, 0)
    ensures FindClose(s, q, nest) == FindClose(s, q + |part| - p, 0)
    decreases |part| - p
  {
    if p < |part| {
      assert s[q] == s[q..q + |part| - p][0] == part[p];
      assert s[q + 1..q + |part| - p] == s[q..q + |part| - p][1..] == part[p + 1..];
      var next := if part[p] == '(' then nest + 1 else if part[p] == ')' then nest - 1 else nest;
      ScanPart(s, prev, q + 1, part, p + 1, next);
    }
  }

  lemma JoinMore(parts: seq<string>)
    requires |parts| > 1
    ensures Join(parts) == parts[0] + "," + Join(parts[1..])
  {
  }

  lemma JoinOne(parts: seq<string>)
    requires |parts| == 1
    ensures Join(parts) == parts[0]
  {
  }

  lemma CloseAt(s: string, q: nat)
    requires q < |s|
    ensures s[q..] == ")" ==> FindClose(s, q, 0) == Some(q) && q == |s| - 1
    ensures s[q..q + 1] == "," ==> FindClose(s, q, 0) == FindClose(s, q + 1, 0)
  {
    assert s[q] == s[q..][0] == s[q..q + 1][0];
    assert |s[q..]| == |s| - q;
  }

  /** What `s` has from `q` on, piece by piece. */
  lemma Pieces(s: string, q: nat, front: string, more: string)
    requires q <= |s| && s[q..] == front + more
    ensures q + |front| <= |s| && s[q..q + |front|] == front == front[0..] && s[q + |front|..] == more
  {
    assert s[q..][..|front|] == front && s[q..][|front|..] == more;
  }

  lemma SplitAt(s: string, prev: nat, q: nat)
    requires prev <= q <= |s|
    ensures q == |s| ==> Split(s, prev, q, 0) == [s[prev..q]]
    ensures q < |s| && s[q..q + 1] == "," ==> Split(s, prev, q, 0) == [s[prev..q]] + Split(s, q + 1, q + 1, 0)
  {
    if q < |s| { assert s[q] == s[q..q + 1][0]; } else { assert s[prev..] == s[prev..q]; }
  }

  /** Joining and splitting again gives the parts back. */
  lemma {:induction false} SplitOfJoin(s: string, q: nat, parts: seq<string>)
    requires parts != [] && ClosedParts(parts) && q <= |s| && s[q..] == Join(parts)
    ensures Split(s, q, q, 0) == parts
    decreases |parts|
  {
    hide Closed, Split, FindClose, Join;
    var n := |parts[0]|;
    if |parts| == 1 {
      JoinOne(parts);
      Pieces(s, q, parts[0], "");
      ScanPart(s, q, q, parts[0], 0, 0);
      SplitAt(s, q, q + n);
      assert parts == [parts[0]];
    } else {
      JoinMore(parts);
      assert s[q..] == parts[0] + ("," + Join(parts[1..]));
      Pieces(s, q, parts[0], "," + Join(parts[1..]));
      Pieces(s, q + n, ",", Join(parts[1..]));
      ScanPart(s, q, q, parts[0], 0, 0);
      SplitAt(s, q, q + n);
      SplitOfJoin(s, q + n + 1, parts[1..]);
      assert parts == [parts[0]] + parts[1..];
    }
  }

  /** The closing parenthesis behind a list is found. */
  lemma {:induction false} CloseOfJoin(s: string, q: nat, parts: seq<string>)
    requires parts != [] && ClosedParts(parts) && q <= |s| && s[q..] == Join(parts) + ")"
    ensures FindClose(s, q, 0) == Some(|s| - 1)
    decreases |parts|
  {
    hide Closed, Split, FindClose, Join;
    var n := |parts[0]|;
    if |parts| == 1 {
      assert Join(parts) == parts[0] by { JoinOne(parts); }
      Pieces(s, q, parts[0], ")");
      CloseAt(s, q + n);
      ScanPart(s, q, q, parts[0], 0, 0);
    } else {
      JoinMore(parts);
      assert s[q..] == parts[0] + ("," + (Join(parts[1..]) + ")"));
      Pieces(s, q, parts[0], "," + (Join(parts[1..]) + ")"));
      Pieces(s, q + n, ",", Join(parts[1..]) + ")");
      CloseAt(s, q + n);
      ScanPart(s, q, q, parts[0], 0, 0);
      CloseOfJoin(s, q + n + 1, parts[1..]);
    }
  }

  lemma CallReference(parts: seq<string>)
    requires parts != [] && ClosedParts(parts)
    ensures ReferenceOf("(" + Join(parts) + ")") == Clause(Join(parts), "")
  {
    hide Closed, Join;
    var s := "(" + Join(parts) + ")";
    assert s[1..] == Join(parts) + ")";
    CloseOfJoin(s, 1, parts);
    assert s[1..|s| - 1] == Join(parts);
  }

  /** If every part expands, so does the list. */
  lemma {:induction false} ExpandParts(env: Env, counts: seq<nat>, parts: seq<string>, size: nat, args: seq<string>,
                                       xs: seq<string>)
    requires |counts| == |env.vars| && |xs| == |parts| && forall part :: part in parts ==> |part| <= size
    requires forall j :: 0 <= j < |parts| ==> Expand(env, counts, parts[j], false, args) == Ok((xs[j], ""))
    ensures ExpandAll(env, counts, parts, size, args) == Ok(xs)
    decreases |parts|
  {
    hide Expand;
    var n := |parts| - 1;
    if parts != [] {
      ExpandParts(env, counts, parts[..n], size, args, xs[..n]);
      assert xs == xs[..n] + [xs[n]];
    }
  }

  /** The parts of a call, and what they expand to. */
  ghost predicate CallParts(env: Env, counts: seq<nat>, name: string, parts: seq<string>, args: seq<string>,
                            xs: seq<string>)
    requires |counts| == |env.vars|
  {
    && SimpleName(name) && 0 < |parts| < MAX_ARGS && ClosedParts(parts) && |xs| == |parts|
    && forall j :: 0 <= j < |parts| ==> Expand(env, counts, parts[j], false, args) == Ok((xs[j], ""))
  }

  lemma {:induction false} PlainIsClosed(s: string, p: nat)
    requires p <= |s| && forall k :: p <= k < |s| ==> s[k] != ',' && s[k] != '(' && s[k] != ')'
    ensures Closed(s, p, 0)
    decreases |s| - p
  {
    if p < |s| { PlainIsClosed(s, p + 1); }
  }

  /** What a call reads: its name and its arguments, expanded. */
  lemma CallClause(env: Env, counts: seq<nat>, name: string, parts: seq<string>, args: seq<string>, xs: seq<string>)
    requires |counts| == |env.vars| && CallParts(env, counts, name, parts, args, xs)
    ensures EvalClause(env, counts, Join([name] + parts), args) == Call(env, counts, name, xs)
    ensures ClosedParts([name] + parts)
  {
    hide Expand, Closed, Call;
    var all, text := [name] + parts, Join([name] + parts);
    PlainIsClosed(name, 0);
    JoinMore(all);
    assert text[0] == name[0];
    NotANumber(text);
    assert text[0..] == text;
    SplitOfJoin(text, 0, all);
    PlainText(env, counts, name, args);
    forall j | 0 <= j < |all| ensures Expand(env, counts, all[j], false, args) == Ok((([name] + xs)[j], "")) {}
    ExpandParts(env, counts, all, |text|, args, [name] + xs);
    assert ([name] + xs)[1..] == xs;
  }

  /** Text that starts like a name is not a number. */
  lemma NotANumber(text: string)
    requires text != "" && CNumbers.DigitValue(text[0]) >= 10 && !CNumbers.IsSpace(text[0]) && text[0] != '+'
             && text[0] != '-'
    ensures CNumbers.Strtoull(text, 10).tail == 0
  {
    assert CNumbers.SkipSpace(text, 0) == 0;
    assert CNumbers.ScanNumber(text, 10).tail == 0;
  }

  /**
   * A call of a variable with arguments stands for its value: as it is for a simple variable; for a
   * recursive one expanded, with the expansions of the arguments, while the variable counts once more.
   */
  lemma CallStandsForValue(env: Env, counts: seq<nat>, name: string, i: nat, parts: seq<string>, args: seq<string>,
                           xs: seq<string>)
    requires |counts| == |env.vars| && Lookup(env.vars, name) == Some(i)
             && CallParts(env, counts, name, parts, args, xs)
    ensures Expand(env, counts, "$(" + Join([name] + parts) + ")", false, args) ==
      if counts[i] > MAX_DEPTH then Err(TooDeep)
      else if env.vars[i].recursive then Expand(env, counts[i := counts[i] + 1], env.vars[i].value, false, xs)
      else Ok((env.vars[i].value, ""))
  {
    CallClause(env, counts, name, parts, args, xs);
    CallReference([name] + parts);
    ExpandClosed(env, counts, Join([name] + parts), args);
    CallOfVariable(env, counts, name, i, xs);
  }

  /** A call of a name that is no variable stands for a built-in function, or for nothing, whatever the environment. */
  lemma OtherCallStandsForNothing(env: Env, counts: seq<nat>, name: string, parts: seq<string>, args: seq<string>,
                                  xs: seq<string>)
    requires |counts| == |env.vars| && Lookup(env.vars, name).None? && CallParts(env, counts, name, parts, args, xs)
    ensures Expand(env, counts, "$(" + Join([name] + parts) + ")", false, args) ==
      match env.builtin(name, xs)
      case Err(e) => Err(e)
      case Ok(Some(x)) => Ok((x, ""))
      case Ok(None) => Ok(("", ""))
  {
    CallClause(env, counts, name, parts, args, xs);
    CallReference([name] + parts);
    ExpandClosed(env, counts, Join([name] + parts), args);
  }

  lemma CallOfVariable(env: Env, counts: seq<nat>, name: string, i: nat, xs: seq<string>)
    requires |counts| == |env.vars| && Lookup(env.vars, name) == Some(i) && xs != []
    ensures var r, x := Call(env, counts, name, xs),
            Expand(env, counts[i := counts[i] + 1], env.vars[i].value, false, xs);
            r == if counts[i] > MAX_DEPTH then Err(TooDeep)
                 else if env.vars[i].recursive then (if x.Ok? then Ok(x.value.0) else Err(x.error))
                 else Ok(env.vars[i].value)
  {
    hide Expand;
  }

  /** A reference that is the whole text. */
  lemma ExpandClosed(env: Env, counts: seq<nat>, text: string, args: seq<string>)
    requires |counts| == |env.vars| && ReferenceOf("(" + text + ")") == Clause(text, "")
    ensures var r, x := Expand(env, counts, "$(" + text + ")", false, args), EvalClause(env, counts, text, args);
            r == if x.Ok? then Ok((x.value, "")) else Err(x.error)
  {
    hide EvalClause, ReferenceOf;
    assert ("$(" + text + ")")[1..] == "(" + text + ")";
    assert Expand(env, counts, "", false, args) == Ok(("", ""));
    var x := EvalClause(env, counts, text, args);
    if x.Ok? { assert x.value + "" == x.value; }
  }

  /** The text expands, whatever is under way, in a call with `n` arguments. */
  ghost predicate AlwaysExpands(env: Env, text: string, n: nat) {
    forall counts: seq<nat>, args: seq<string> :: |counts| == |env.vars| && |args| == n ==>
      Expand(env, counts, text, false, args).Ok?
  }

  /** The value calls `name` with the arguments `parts`, behind text without a dollar sign. */
  predicate CallsItself(value: string, front: string, name: string, parts: seq<string>, back: string) {
    && (forall k :: 0 <= k < |front| ==> front[k] != '$')
    && value == front + ("$(" + Join([name] + parts) + ")" + back)
  }

  lemma ExpandedParts(env: Env, counts: seq<nat>, name: string, parts: seq<string>, args: seq<string>)
    returns (xs: seq<string>)
    requires |counts| == |env.vars| && SimpleName(name) && 0 < |parts| < MAX_ARGS && ClosedParts(parts)
    requires forall j :: 0 <= j < |parts| ==> Expand(env, counts, parts[j], false, args).Ok?
    ensures CallParts(env, counts, name, parts, args, xs)
  {
    hide Expand, SimpleName, Closed;
    xs := seq(|parts|, j requires 0 <= j < |parts| => Expand(env, counts, parts[j], false, args).value.0);
    forall j | 0 <= j < |parts| ensures Expand(env, counts, parts[j], false, args) == Ok((xs[j], "")) {
      ExpandsToEnd(env, counts, parts[j], args);
    }
  }

  lemma ExpandsToEnd(env: Env, counts: seq<nat>, text: string, args: seq<string>)
    requires |counts| == |env.vars| && Expand(env, counts, text, false, args).Ok?
    ensures Expand(env, counts, text, false, args).value.1 == ""
  {
    hide ExpandDollar;
  }

  /** If a call is an error, so is a text that goes on behind it. */
  lemma CallFails(env: Env, counts: seq<nat>, all: seq<string>, back: string, args: seq<string>)
    requires |counts| == |env.vars| && all != [] && ClosedParts(all)
    requires Expand(env, counts, "$(" + Join(all) + ")", false, args).Err?
    ensures Expand(env, counts, "$(" + Join(all) + ")" + back, false, args)
         == Expand(env, counts, "$(" + Join(all) + ")", false, args)
  {
    hide EvalClause, ReferenceOf, Expand, Join, Closed;
    var text := Join(all);
    var s := "(" + text + ")";
    CallReference(all);
    ExpandClosed(env, counts, text, args);
    ReferenceAppend(s, back);
    ClauseFails(env, counts, s + back, text, "" + back, args);
    assert "$" + (s + back) == "$(" + text + ")" + back;
  }

  /**
   * A recursive variable that calls itself with arguments ends as too deep an expansion, from any
   * count: what SelfReference is without arguments, the limit is with them.
   */
  lemma {:induction false} SelfCallIsTooDeep(env: Env, counts: seq<nat>, name: string, i: nat, front: string,
                                             parts: seq<string>, back: string, args: seq<string>)
    requires |counts| == |env.vars| && Lookup(env.vars, name) == Some(i) && env.vars[i].recursive
    requires SimpleName(name) && 0 < |parts| < MAX_ARGS && ClosedParts(parts)
    requires CallsItself(env.vars[i].value, front, name, parts, back)
    requires forall j :: 0 <= j < |parts| ==> AlwaysExpands(env, parts[j], |parts|)
    requires forall j :: 0 <= j < |parts| ==> Expand(env, counts, parts[j], false, args).Ok?
    ensures Expand(env, counts, "$(" + Join([name] + parts) + ")", false, args) == Err(TooDeep)
    decreases Room(counts[i])
  {
    hide Expand, Join, Closed, SimpleName;
    var xs := ExpandedParts(env, counts, name, parts, args);
    CallStandsForValue(env, counts, name, i, parts, args, xs);
    if counts[i] <= MAX_DEPTH {
      var more := counts[i := counts[i] + 1];
      forall j | 0 <= j < |parts| ensures Expand(env, more, parts[j], false, xs).Ok? {
        assert AlwaysExpands(env, parts[j], |parts|);
      }
      SelfCallIsTooDeep(env, more, name, i, front, parts, back, xs);
      var ys := ExpandedParts(env, more, name, parts, xs);
      CallClause(env, more, name, parts, xs, ys);
      CallFails(env, more, [name] + parts, back, xs);
      PlainText(env, more, front, xs);
      ExpandAppend(env, more, front, "$(" + Join([name] + parts) + ")" + back, xs);
    }
  }

  /** For instance `f = $(f,x)`, called as `$(f,x)`. */
  lemma SelfCallExample(env: Env)
    requires env.vars == [Variable("f", "$(f,x)", true)]
    ensures Expand(env, [0], "$(f,x)", false, []) == Err(TooDeep)
  {
    hide Expand;
    var parts := ["x"];
    forall counts: seq<nat>, args: seq<string> | |counts| == |env.vars|
      ensures Expand(env, counts, "x", false, args).Ok?
    {
      PlainText(env, counts, "x", args);
    }
    assert Join(["f"] + parts) == "f,x" by {
      JoinMore(["f", "x"]);
      assert ["f"] + parts == ["f", "x"] && ["f", "x"][1..] == ["x"];
    }
    assert "$(" + "f,x" + ")" == "$(f,x)";
    assert SimpleName("f");
    PlainIsClosed("x", 0);
    SelfCallIsTooDeep(env, [0], "f", 0, "", parts, "", []);
  }

  /** A decimal number parses to itself and takes up its whole text. */
  lemma DigitsParse(n: nat)
    requires n < TWO_64
    ensures CNumbers.Strtoull(CNumbers.Digits(n, 10), 10) == CNumbers.Parsed(n, |CNumbers.Digits(n, 10)|, false)
  {
    var text := CNumbers.Digits(n, 10);
    forall k | 0 <= k < |text| ensures CNumbers.DigitValue(text[k]) < 10 {
      assert text[k] in text;
    }
    CNumbers.ScanDecimal(text, 0);
    assert text[0..] == text;
    CNumbers.DigitsValueOfDigits(n, 10);
  }

  /** $(1), $(2), and so on stand for the arguments, without further expansion. */
  lemma NumberStandsForArgument(env: Env, counts: seq<nat>, n: nat, args: seq<string>)
    requires |counts| == |env.vars| && 0 < n <= |args| && n < TWO_64
    ensures Expand(env, counts, "$(" + CNumbers.Digits(n, 10) + ")", false, args) == Ok((args[n - 1], ""))
  {
    hide CNumbers.Digits, CNumbers.Strtoull, Expand, ExpandAll, Split;
    DigitsParse(n);
    ArgumentClause(env, counts, CNumbers.Digits(n, 10), n, args);
    DigitsAreDigits(n);
    ExpandReference(env, counts, CNumbers.Digits(n, 10), args);
  }

  lemma DigitsAreDigits(n: nat)
    ensures var text := CNumbers.Digits(n, 10); forall k :: 0 <= k < |text| ==> text[k] != '(' && text[k] != ')'
  {
    var text := CNumbers.Digits(n, 10);
    forall k | 0 <= k < |text| ensures text[k] != '(' && text[k] != ')' {
      assert text[k] in text && CNumbers.DigitValue(text[k]) < 10;
    }
  }

  lemma ArgumentClause(env: Env, counts: seq<nat>, text: string, n: nat, args: seq<string>)
    requires |counts| == |env.vars| && 0 < n <= |args|
    requires CNumbers.Strtoull(text, 10) == CNumbers.Parsed(n, |text|, false)
    ensures EvalClause(env, counts, text, args) == Ok(args[n - 1])
  {
    hide CNumbers.Strtoull, Split;
  }

  lemma {:induction false} NoParens(s: string, q: nat)
    requires q < |s| && s[|s| - 1] == ')' && forall k :: q <= k < |s| - 1 ==> s[k] != '(' && s[k] != ')'
    ensures FindClose(s, q, 0) == Some(|s| - 1)
    decreases |s| - q
  {
    if q < |s| - 1 { NoParens(s, q + 1); }
  }

  lemma {:induction false} NoCommas(s: string, p: nat)
    requires p <= |s| && forall k :: 0 <= k < |s| ==> s[k] != ',' && s[k] != '(' && s[k] != ')'
    ensures Split(s, 0, p, 0) == [s]
    decreases |s| - p
  {
    if p < |s| {
      NoCommas(s, p + 1);
    } else {
      assert s[0..] == s;
    }
  }

  // ----- the expander -----

  /** The result of a scan over `str` from `start`: as the expansion says, with the position of what is left. */
  predicate IsResult(r: Result<(string, nat)>, str: string, start: nat, expansion: Expansion) {
    match r
    case Err(e) => expansion == Err(e)
    case Ok((x, k)) => start <= k <= |str| && expansion == Ok((x, str[k..]))
  }

  class Expander {
    const env: Env
    /** `exp_count` of every variable. */
    var expCount: seq<nat>

    constructor (env: Env)
      ensures this.env == env && expCount == seq(|env.vars|, _ => 0)
    {
      this.env := env;
      expCount := seq(|env.vars|, _ => 0);
    }

    ghost predicate Valid()
      reads this
    {
      |expCount| == |env.vars|
    }

    /** __expand_string: every return but an error leaves the counts as they were. */
    method ExpandFrom(str: string, start: nat, token: bool, args: seq<string>) returns (r: Result<(string, nat)>)
      requires Valid() && start <= |str|
      modifies this
      ensures IsResult(r, str, start, Expand(env, old(expCount), str[start..], token, args))
      ensures Valid() && (r.Ok? ==> expCount == old(expCount))
      decreases Budget(expCount), |str|, 1
    {
      hide Expand, Prepend, ExpandDollar, Budget, IsTokenEnd;
      var out, from, p := "", start, start;
      PrependNothing(out + str[from..p], Expand(env, expCount, str[p..], token, args));
      while p < |str|
        invariant start <= from <= p <= |str| && expCount == old(expCount)
        invariant Expand(env, expCount, str[start..], token, args)
               == Prepend(out + str[from..p], Expand(env, expCount, str[p..], token, args))
        decreases |str| - p
      {
        ExpandStep(env, expCount, str, p, token, args);
        var ends := EndsToken(str[p]);
        if str[p] == '$' {
          var d := ExpandDollarAt(str, p + 1, args);
          if d.Err? {
            PrependError(out + str[from..p], Expand(env, old(expCount), str[p..], token, args), d.error);
            return Err(d.error);
          }
          var (x, j) := d.value;
          PrependTwice(out + str[from..p], x, Expand(env, expCount, str[j..], token, args));
          out := out + str[from..p] + x;
          from, p := j, j;
          assert out + str[from..p] == out;
        } else if token && ends {
          break;
        } else {
          PrependTwice(out + str[from..p], [str[p]], Expand(env, expCount, str[p + 1..], token, args));
          assert out + str[from..p + 1] == out + str[from..p] + [str[p]];
          p := p + 1;
        }
      }
      r := Ok((out + str[from..p], p));
      PrependEnd(env, expCount, out + str[from..p], str, p, token, args);
    }

    /** is_end_of_token */
    method EndsToken(c: char) returns (b: bool)
      ensures b == IsTokenEnd(c)
    {
      var isalnum := ('a' <= c && c <= 'z') || ('A' <= c && c <= 'Z') || ('0' <= c && c <= '9');
      b := !(isalnum || c == '_' || c == '-' || c == '.' || c == '/');
    }

    /** Scans to the parenthesis that closes the one at `p`, or to the end. */
    method ScanClose(str: string, p: nat) returns (q: nat)
      requires p < |str|
      ensures p < q <= |str|
      ensures FindClose(str[p..], 1, 0) == if q == |str| then None else Some(q - p)
    {
      ghost var s := str[p..];
      var nest: nat := 0;
      q := p + 1;
      while q < |str| && !(str[q] == ')' && nest == 0)
        invariant p < q <= |str|
        invariant FindClose(s, 1, 0) == FindClose(s, q - p, nest)
      {
        assert s[q - p] == str[q];
        if str[q] == '(' { nest := nest + 1; } else if str[q] == ')' { nest := nest - 1; }
        q := q + 1;
      }
      if q < |str| { assert s[q - p] == str[q]; }
    }

    /** expand_dollar_with_args */
    method ExpandDollarAt(str: string, p: nat, args: seq<string>) returns (r: Result<(string, nat)>)
      requires Valid() && 0 < p <= |str|
      modifies this
      ensures IsResult(r, str, p, ExpandDollar(env, old(expCount), str[p..], args))
      ensures Valid() && (r.Ok? ==> expCount == old(expCount))
      decreases Budget(expCount), |str|, 0
    {
      hide FindClose, EvalClause, Budget;
      if p == |str| || str[p] != '(' { return Ok(("$", p)); }
      var q := ScanClose(str, p);
      if q == |str| { return Err(Unterminated); }
      assert str[p..][1..q - p] == str[p + 1..q] && str[p..][q - p + 1..] == str[q + 1..];
      var x := EvalClauseOf(str[p + 1..q], args);
      match x
      case Err(e) => r := Err(e);
      case Ok(y) => r := Ok((y, q + 1));
    }

    /** eval_clause */
    method EvalClauseOf(clause: string, args: seq<string>) returns (r: Result<string>)
      requires Valid()
      modifies this
      ensures r == EvalClause(env, old(expCount), clause, args)
      ensures Valid() && (r.Ok? ==> expCount == old(expCount))
      decreases Budget(expCount), |clause|, 3
    {
      var n := CNumbers.Strtoull(clause, 10);
      if n.tail == |clause| && 0 < n.value <= |args| { return Ok(args[n.value - 1]); }
      var parts := SplitClause(clause);
      if |parts| > MAX_ARGS { return Err(TooManyArguments); }
      var full := ExpandParts(parts, |clause|, args);
      if full.Err? { return Err(full.error); }
      var name, rest := full.value[0], full.value[1..];
      var v := ExpandVariableOf(name, rest);
      if v.Err? { return Err(v.error); }
      if v.value.Some? { return Ok(v.value.value); }
      r := CallOther(env, name, rest);
    }

    /** Expands the name and the arguments of a clause. */
    method ExpandParts(parts: seq<string>, ghost size: nat, args: seq<string>) returns (r: Result<seq<string>>)
      requires Valid() && forall part :: part in parts ==> |part| <= size
      modifies this
      ensures r == ExpandAll(env, old(expCount), parts, size, args)
      ensures Valid() && (r.Ok? ==> expCount == old(expCount))
      decreases Budget(expCount), size, 2
    {
      hide Expand, Budget, Prepend;
      var full: seq<string> := [];
      while |full| < |parts|
        invariant |full| <= |parts| && expCount == old(expCount)
        invariant ExpandAll(env, expCount, parts[..|full|], size, args) == Ok(full)
      {
        ghost var k := |full|;
        assert parts[..k + 1][..k] == parts[..k] && parts[..k + 1][k] == parts[k];
        assert parts[k][0..] == parts[k];
        var x := ExpandFrom(parts[|full|], 0, false, args);
        if x.Err? {
          ExpandAllFails(env, old(expCount), parts, size, args, k + 1);
          return Err(x.error);
        }
        full := full + [x.value.0];
      }
      assert parts[..|full|] == parts;
      r := Ok(full);
    }

    method SplitClause(clause: string) returns (parts: seq<string>)
      ensures parts == Split(clause, 0, 0, 0)
    {
      parts := [];
      var prev, p, nest := 0, 0, 0;
      while p < |clause|
        invariant 0 <= prev <= p <= |clause|
        invariant Split(clause, 0, 0, 0) == parts + Split(clause, prev, p, nest)
      {
        if nest == 0 && clause[p] == ',' {
          MovePart(parts, clause[prev..p], Split(clause, p + 1, p + 1, nest));
          parts := parts + [clause[prev..p]];
          prev := p + 1;
        } else if clause[p] == '(' {
          nest := nest + 1;
        } else if clause[p] == ')' {
          nest := nest - 1;
        }
        p := p + 1;
      }
      parts := parts + [clause[prev..]];
    }

    /** variable_expand */
    method ExpandVariableOf(name: string, args: seq<string>) returns (r: Result<Option<string>>)
      requires Valid()
      modifies this
      ensures r == ExpandVariable(env, old(expCount), name, args)
      ensures Valid() && (r.Ok? ==> expCount == old(expCount))
      decreases Budget(expCount), 0, 0
    {
      var found := Lookup(env.vars, name);
      if found.None? { return Ok(None); }
      var i := found.value;
      if args == [] && expCount[i] > 0 { return Err(SelfReference(name)); }
      if expCount[i] > MAX_DEPTH { return Err(TooDeep); }
      BudgetFalls(expCount, i);
      expCount := expCount[i := expCount[i] + 1];
      if env.vars[i].recursive {
        var x := ExpandFrom(env.vars[i].value, 0, false, args);
        assert env.vars[i].value[0..] == env.vars[i].value;
        if x.Err? { return Err(x.error); }
        r := Ok(Some(x.value.0));
      } else {
        r := Ok(Some(env.vars[i].value));
      }
      expCount := expCount[i := expCount[i] - 1];
      assert expCount == old(expCount);
    }
  }

  lemma MovePart(parts: seq<string>, x: string, rest: seq<string>)
    ensures parts + ([x] + rest) == (parts + [x]) + rest
  {
  }

  lemma {:induction false} ExpandAllFails(env: Env, counts: seq<nat>, parts: seq<string>,
                                          size: nat, args: seq<string>, k: nat)
    requires |counts| == |env.vars| && forall part :: part in parts ==> |part| <= size
    requires k <= |parts| && ExpandAll(env, counts, parts[..k], size, args).Err?
    ensures ExpandAll(env, counts, parts, size, args) == ExpandAll(env, counts, parts[..k], size, args)
    decreases |parts| - k
  {
    if k == |parts| {
      assert parts[..k] == parts;
    } else {
      assert parts[..k + 1][..k] == parts[..k];
      assert forall part :: part in parts[..k + 1] ==> part in parts;
      ExpandAllFails(env, counts, parts, size, args, k + 1);
    }
  }
}
