/**
 * Lines of a configuration file: escaping of strings (sym_escape_string_value,
 * scripts/config/symbol.c), printing and reading of lines (kconfig_print_symbol,
 * conf_set_sym_val and the read loop of conf_read_simple, scripts/config/confdata.c).
 */
module ConfLine {
  import opened Basics
  import opened Exprs
  import Range

  const NUL := '\0'
  const PREFIX := "CONFIG_"

  /** A string that C can hold. */
  predicate IsText(s: string) {
    forall k :: 0 <= k < |s| ==> s[k] != NUL
  }

  /** The characters of the memory `m` from `p` on are `s` and a NUL. */
  ghost predicate TextAt(m: seq<char>, p: nat, s: string) {
    && p + |s| < |m| && IsText(s) && m[p + |s|] == NUL
    && forall k :: 0 <= k < |s| ==> m[p + k] == s[k]
  }

  ghost predicate CString(a: array<char>, p: nat, s: string)
    reads a
  {
    TextAt(a[..], p, s)
  }

  lemma CharOf(a: array<char>, p: nat, s: string, k: nat)
    requires CString(a, p, s) && k < |s|
    ensures a[p + k] == s[k] != NUL
  {
  }

  predicate Special(c: char) { c == '"' || c == '\\' }

  // ----- escaping -----

  /** Every quote and backslash with a backslash before it. */
  function EscapeBody(s: string): string {
    if s == "" then "" else (if Special(s[0]) then ['\\', s[0]] else [s[0]]) + EscapeBody(s[1..])
  }

  function Escaped(s: string): string { "\"" + EscapeBody(s) + "\"" }

  function Specials(s: string): nat {
    if s == "" then 0 else (if Special(s[0]) then 1 else 0) + Specials(s[1..])
  }

  /** What the text behind an opening quote denotes, if it has a closing one. */
  function Unescaped(t: string): Option<string> {
    if t == "" then None
    else if t[0] == '"' then Some("")
    else if t[0] != '\\' then Before([t[0]], Unescaped(t[1..]))
    else if |t| == 1 then None
    else Before([t[1]], Unescaped(t[2..]))
  }

  function Before(front: string, rest: Option<string>): Option<string> {
    if rest.None? then None else Some(front + rest.value)
  }

  /** Unescaping undoes escaping, whatever follows the closing quote. */
  lemma {:induction false} UnescapedEscape(s: string, more: string)
    ensures Unescaped(EscapeBody(s) + "\"" + more) == Some(s)
  {
    var t := EscapeBody(s) + "\"" + more;
    if s != "" {
      var rest := EscapeBody(s[1..]) + "\"" + more;
      UnescapedEscape(s[1..], more);
      assert s == [s[0]] + s[1..];
      if Special(s[0]) {
        assert t == ['\\', s[0]] + rest;
        assert t[2..] == rest;
      } else {
        assert t == [s[0]] + rest;
        assert t[1..] == rest;
      }
    }
  }

  /** The memory the escaper asks for is exactly what the result and its NUL take. */
  lemma {:induction false} EscapedLength(s: string)
    ensures |Escaped(s)| + 1 == |s| + 2 + 1 + Specials(s)
  {
    if s != "" { EscapedLength(s[1..]); }
  }

  lemma {:induction false} EscapeAppend(s: string, t: string)
    ensures EscapeBody(s + t) == EscapeBody(s) + EscapeBody(t)
    ensures Specials(s + t) == Specials(s) + Specials(t)
  {
    if s == "" {
      assert s + t == t;
    } else {
      assert (s + t)[1..] == s[1..] + t;
      EscapeAppend(s[1..], t);
    }
  }

  lemma {:induction false} PlainRun(s: string)
    requires forall k :: 0 <= k < |s| ==> !Special(s[k])
    ensures EscapeBody(s) == s && Specials(s) == 0
  {
    if s != "" { PlainRun(s[1..]); }
  }

  lemma OneSpecial(c: char)
    requires Special(c)
    ensures EscapeBody([c]) == ['\\', c] && Specials([c]) == 1
  {
    assert [c][1..] == "";
  }

  /** strcspn(s + p, "\"\\") */
  method Strcspn(s: string, p: nat) returns (l: nat)
    requires p <= |s|
    ensures p + l <= |s| && forall k :: p <= k < p + l ==> !Special(s[k])
    ensures p + l < |s| ==> Special(s[p + l])
  {
    l := 0;
    while p + l < |s| && !Special(s[p + l])
      invariant p + l <= |s| && forall k :: p <= k < p + l ==> !Special(s[k])
    {
      l := l + 1;
    }
  }

  /** strcat(a, t) and strncat: finds the end of the text in `a`, and continues it with `t`. */
  method StrCat(a: array<char>, ghost s: string, t: string)
    requires CString(a, 0, s) && IsText(t) && |s| + |t| < a.Length
    modifies a
    ensures CString(a, 0, s + t)
  {
    var len := 0;
    while a[len] != NUL
      invariant 0 <= len <= |s|
      decreases |s| - len
    {
      assert a[len] == a[0..|s|][len];
      len := len + 1;
    }
    if len < |s| { CharOf(a, 0, s, len); }
    for i := 0 to |t|
      invariant a[..len + i] == s + t[..i]
    {
      a[len + i] := t[i];
    }
    a[len + |t|] := NUL;
    assert t[..|t|] == t && a[0..len + |t|] == a[..len + |t|];
  }

  /** What one round of the scan for special characters covers. */
  lemma RunStep(s: string, p: nat, l: nat)
    requires p + l < |s| && Special(s[p + l]) && forall k :: p <= k < p + l ==> !Special(s[k])
    ensures EscapeBody(s[..p + l + 1]) == EscapeBody(s[..p]) + s[p..p + l] + "\\" + [s[p + l]]
    ensures Specials(s[..p + l + 1]) == Specials(s[..p]) + 1
  {
    var run, c := s[p..p + l], s[p + l];
    assert s[..p + l + 1] == s[..p] + (run + [c]);
    EscapeAppend(s[..p], run + [c]);
    EscapeAppend(run, [c]);
    PlainRun(run);
    OneSpecial(c);
  }

  lemma LastRun(s: string, p: nat)
    requires p <= |s| && forall k :: p <= k < |s| ==> !Special(s[k])
    ensures EscapeBody(s) == EscapeBody(s[..p]) + s[p..] && Specials(s) == Specials(s[..p])
  {
    assert s == s[..p] + s[p..];
    EscapeAppend(s[..p], s[p..]);
    PlainRun(s[p..]);
  }

  /** The first loop of the escaper: the size to allocate. */
  method EscapedSize(s: string) returns (n: nat)
    ensures n == |Escaped(s)| + 1
  {
    n := |s| + 2 + 1;
    var p := 0;
    while true
      invariant p <= |s| && n == |s| + 3 + Specials(s[..p])
      decreases |s| - p
    {
      var l := Strcspn(s, p);
      if p + l == |s| { LastRun(s, p); break; }
      RunStep(s, p, l);
      p := p + l + 1;
      n := n + 1;
    }
    EscapedLength(s);
  }

  lemma EscapedPrefix(s: string, p: nat)
    requires p <= |s|
    ensures |EscapeBody(s[..p])| <= |EscapeBody(s)|
  {
    assert s == s[..p] + s[p..];
    EscapeAppend(s[..p], s[p..]);
  }

  /** The result of the escaper when it has got to `p`. */
  function EscapedTo(s: string, p: nat): string
    requires p <= |s|
  {
    "\"" + EscapeBody(s[..p])
  }

  lemma NextSpecial(s: string, p: nat, l: nat)
    requires p + l < |s| && Special(s[p + l]) && forall k :: p <= k < p + l ==> !Special(s[k])
    ensures EscapedTo(s, p + l + 1) == EscapedTo(s, p) + s[p..p + l] + "\\" + [s[p + l]]
    ensures |EscapedTo(s, p + l + 1)| < |Escaped(s)|
  {
    RunStep(s, p, l);
    EscapedPrefix(s, p + l + 1);
  }

  lemma NoMoreSpecial(s: string, p: nat)
    requires p <= |s| && forall k :: p <= k < |s| ==> !Special(s[k])
    ensures Escaped(s) == EscapedTo(s, p) + s[p..] + "\""
  {
    LastRun(s, p);
  }

  /** One round of the escaper: the text up to the next special character, and that character. */
  method EscapeRun(res: array<char>, s: string, p: nat) returns (q: nat, more: bool)
    requires IsText(s) && p <= |s| && CString(res, 0, EscapedTo(s, p)) && res.Length == |Escaped(s)| + 1
    modifies res
    ensures p <= q <= |s| && (more ==> p < q)
    ensures more ==> CString(res, 0, EscapedTo(s, q))
    ensures !more ==> |Escaped(s)| > 0 && CString(res, 0, Escaped(s)[..|Escaped(s)| - 1])
  {
    hide CString, EscapedTo, Escaped, Special;
    var l := Strcspn(s, p);
    q := p + l;
    ghost var done := EscapedTo(s, p) + s[p..q];
    if q == |s| {
      NoMoreSpecial(s, p);
      StrCat(res, EscapedTo(s, p), s[p..q]);
      assert Escaped(s)[..|Escaped(s)| - 1] == done;
      return q, false;
    }
    NextSpecial(s, p, l);
    StrCat(res, EscapedTo(s, p), s[p..q]);
    StrCat(res, done, "\\");
    StrCat(res, done + "\\", [s[q]]);
    q, more := q + 1, true;
  }

  /** sym_escape_string_value: the buffer holds the escaped text and is exactly full. */
  method Escape(s: string) returns (res: array<char>)
    requires IsText(s)
    ensures fresh(res) && CString(res, 0, Escaped(s)) && res.Length == |Escaped(s)| + 1
  {
    var n := EscapedSize(s);
    res := new char[n];
    res[0] := NUL;
    StrCat(res, "", "\"");
    assert "" + "\"" == EscapedTo(s, 0);
    hide CString;
    var p, more := 0, true;
    while more
      invariant p <= |s| && fresh(res)
      invariant if more then CString(res, 0, EscapedTo(s, p)) else CString(res, 0, Escaped(s)[..|Escaped(s)| - 1])
      decreases |s| - p, more
    {
      p, more := EscapeRun(res, s, p);
    }
    StrCat(res, Escaped(s)[..|Escaped(s)| - 1], "\"");
    assert Escaped(s)[..|Escaped(s)| - 1] + "\"" == Escaped(s);
  }

  // ----- unescaping in place -----

  /** strlen */
  method StrLen(a: array<char>, p: nat, ghost s: string) returns (n: nat)
    requires CString(a, p, s)
    ensures n == |s|
  {
    n := 0;
    while a[p + n] != NUL
      invariant n <= |s|
      decreases |s| - n
    {
      n := n + 1;
    }
    if n < |s| { CharOf(a, p, s, n); }
  }

  /** The memory after the character at `p` has been dropped from the text of `n` characters there. */
  function Dropped(m: seq<char>, p: nat, n: nat): seq<char>
    requires p + n < |m|
  {
    m[..p] + m[p + 1..p + n + 1] + m[p + n..]
  }

  lemma DroppedText(m: seq<char>, p: nat, s: string)
    requires TextAt(m, p, s) && s != ""
    ensures var m' := Dropped(m, p, |s|);
            && |m'| == |m| && TextAt(m', p, s[1..]) && m'[..p] == m[..p] && m'[p + |s|] == NUL
  {
    var m' := Dropped(m, p, |s|);
    forall k | 0 <= k < |s| - 1 ensures m'[p + k] == s[1..][k] {
      assert m'[p + k] == m[p + (k + 1)] == s[k + 1];
    }
    assert m'[p + (|s| - 1)] == m[p + |s|] == m'[p + |s|];
  }

  lemma DroppedNone(m: seq<char>, p: nat)
    requires p < |m|
    ensures Dropped(m, p, 0) == m
  {
  }

  lemma DroppedStep(m: seq<char>, p: nat, i: nat)
    requires p + i + 1 < |m|
    ensures |Dropped(m, p, i)| == |m| && Dropped(m, p, i)[p + i + 1] == m[p + i + 1]
    ensures Dropped(m, p, i)[p + i := m[p + i + 1]] == Dropped(m, p, i + 1)
  {
  }

  /** memmove(a + p, a + p + 1, strlen(a + p)): drops the character at `p`. */
  method DropChar(a: array<char>, p: nat, ghost s: string)
    requires CString(a, p, s) && s != ""
    modifies a
    ensures a[..] == Dropped(old(a[..]), p, |s|)
  {
    var n := StrLen(a, p, s);
    assert p + n < a.Length;
    ghost var m := a[..];
    DroppedNone(m, p);
    hide TextAt, Dropped;
    for i := 0 to n
      invariant a[..] == Dropped(m, p, i)
    {
      DroppedStep(m, p, i);
      ghost var b := a[..];
      a[p + i] := a[p + i + 1];
      assert a[..] == b[p + i := m[p + i + 1]];
    }
  }

  lemma {:induction false} PlainPrefix(run: string, rest: string)
    requires forall k :: 0 <= k < |run| ==> !Special(run[k])
    ensures Unescaped(run + rest) == Before(run, Unescaped(rest))
  {
    if run == "" {
      assert run + rest == rest;
      if Unescaped(rest).Some? { assert run + Unescaped(rest).value == Unescaped(rest).value; }
    } else {
      assert (run + rest)[1..] == run[1..] + rest;
      PlainPrefix(run[1..], rest);
      BeforeTwice([run[0]], run[1..], Unescaped(rest));
      assert [run[0]] + run[1..] == run;
    }
  }

  lemma BeforeTwice(x: string, y: string, r: Option<string>)
    ensures Before(x, Before(y, r)) == Before(x + y, r)
  {
    if r.Some? { assert x + (y + r.value) == (x + y) + r.value; }
  }

  /** strpbrk(a + p, "\"\\"): the distance to the next special character or to the end. */
  method NextBreak(a: array<char>, p: nat, ghost s: string) returns (l: nat)
    requires CString(a, p, s)
    ensures l <= |s| && forall k :: 0 <= k < l ==> !Special(s[k])
    ensures l < |s| ==> Special(s[l]) && a[p + l] == s[l]
    ensures l == |s| <==> a[p + l] == NUL
  {
    l := 0;
    while a[p + l] != NUL && !Special(a[p + l])
      invariant l <= |s| && forall k :: 0 <= k < l ==> !Special(s[k])
      decreases |s| - l
    {
      if l < |s| { CharOf(a, p, s, l); }
      l := l + 1;
    }
    if l < |s| { CharOf(a, p, s, l); }
  }

  /** The scan has turned the text `t` at `p` into `out`, up to `p2`, where `rest` is left. */
  ghost predicate Unescaping(m: seq<char>, p: nat, t: string, p2: nat, out: string, rest: string) {
    && p2 == p + |out| && p2 <= |m| && m[p..p2] == out
    && TextAt(m, p2, rest) && (rest != "" ==> IsText(out))
    && Unescaped(t) == Before(out, Unescaped(rest))
  }

  /** Removing the backslash at `p2` and stepping over the character it protects. */
  lemma StepOver(m: seq<char>, p: nat, t: string, p2: nat, out: string, rest: string)
    returns (out': string, rest': string)
    requires Unescaping(m, p, t, p2, out, rest) && rest != "" && rest[0] == '\\'
    ensures |rest'| < |rest|
    ensures Unescaping(Dropped(m, p2, |rest|), p, t, p2 + 1, out', rest')
  {
    var m' := Dropped(m, p2, |rest|);
    DroppedText(m, p2, rest);
    if |rest| == 1 {
      out', rest' := out + [NUL], "";
      assert m'[p2] == NUL && m'[p2 + 1] == NUL;
    } else {
      out', rest' := out + [rest[1]], rest[2..];
      assert m'[p2] == rest[1..][0];
      BeforeTwice(out, [rest[1]], Unescaped(rest[2..]));
      TextTail(m', p2, rest[1..], 1);
      assert rest[1..][1..] == rest[2..];
    }
    assert m'[p..p2] == m'[..p2][p..] == out;
  }

  lemma TextTail(m: seq<char>, p: nat, s: string, l: nat)
    requires TextAt(m, p, s) && l <= |s|
    ensures TextAt(m, p + l, s[l..])
  {
    forall k | 0 <= k < |s| - l ensures m[p + l + k] == s[l..][k] {
      assert m[p + (l + k)] == s[l + k];
    }
  }

  /** Stepping over characters that are not special. */
  lemma SkipRun(m: seq<char>, p: nat, t: string, p2: nat, out: string, rest: string, l: nat)
    requires Unescaping(m, p, t, p2, out, rest)
    requires l <= |rest| && forall k :: 0 <= k < l ==> !Special(rest[k])
    ensures Unescaping(m, p, t, p2 + l, out + rest[..l], rest[l..])
  {
    assert rest == rest[..l] + rest[l..];
    PlainPrefix(rest[..l], rest[l..]);
    BeforeTwice(out, rest[..l], Unescaped(rest[l..]));
    TextTail(m, p2, rest, l);
    assert m[p..p2 + l] == m[p..p2] + m[p2..p2 + l];
  }

  /** The end of the scan at a closing quote, which becomes the end of the text. */
  lemma ClosingQuote(m: seq<char>, p: nat, t: string, p2: nat, out: string, rest: string)
    requires Unescaping(m, p, t, p2, out, rest) && rest != "" && rest[0] == '"'
    ensures Unescaped(t) == Some(out) && TextAt(m[p2 := NUL], p, out)
  {
    assert out + "" == out;
    forall k | 0 <= k < |out| ensures m[p2 := NUL][p + k] == out[k] {
      assert m[p..p2][k] == m[p + k];
    }
  }

  /** The unescaping loop of conf_set_sym_val on the text `t` behind the opening quote. */
  method UnescapeInPlace(a: array<char>, p: nat, ghost t: string) returns (ok: bool)
    requires CString(a, p, t)
    modifies a
    ensures ok == Unescaped(t).Some? && a[..p] == old(a[..p])
    ensures ok ==> CString(a, p, Unescaped(t).value)
  {
    hide TextAt, IsText, Before, Dropped, Special, Unescaping, Unescaped;
    var p2: nat := p;
    ghost var out, rest := "", t;
    UnescapingStart(a[..], p, t);
    while true
      invariant Unescaping(a[..], p, t, p2, out, rest) && a[..p] == old(a[..p])
      decreases |rest|
    {
      UnescapingText(a[..], p, t, p2, out, rest);
      var l := NextBreak(a, p2, rest);
      SkipRun(a[..], p, t, p2, out, rest, l);
      out, rest, p2 := out + rest[..l], rest[l..], p2 + l;
      UnescapingText(a[..], p, t, p2, out, rest);
      if a[p2] == NUL { return false; }
      if a[p2] == '"' {
        ClosingQuote(a[..], p, t, p2, out, rest);
        ghost var m := a[..];
        a[p2] := NUL;
        assert a[..] == m[p2 := NUL];
        return true;
      }
      assert rest[0] == '\\' by { SpecialChars(rest[0]); }
      ghost var out', rest' := StepOver(a[..], p, t, p2, out, rest);
      KeepsFront(a[..], p, p2, rest);
      DropChar(a, p2, rest);
      out, rest, p2 := out', rest', p2 + 1;
    }
  }

  lemma SpecialChars(c: char)
    requires Special(c) && c != '"'
    ensures c == '\\'
  {
  }

  lemma UnescapingStart(m: seq<char>, p: nat, t: string)
    requires TextAt(m, p, t)
    ensures Unescaping(m, p, t, p, "", t)
  {
    if Unescaped(t).Some? { assert "" + Unescaped(t).value == Unescaped(t).value; }
  }

  lemma UnescapingText(m: seq<char>, p: nat, t: string, p2: nat, out: string, rest: string)
    requires Unescaping(m, p, t, p2, out, rest)
    ensures TextAt(m, p2, rest) && p <= p2 && p2 + |rest| < |m|
    ensures rest == "" ==> Unescaped(t) == None
  {
  }

  lemma KeepsFront(m: seq<char>, p: nat, p2: nat, rest: string)
    requires p <= p2 && p2 + |rest| < |m|
    ensures Dropped(m, p2, |rest|)[..p] == m[..p]
  {
  }

  // ----- setting a symbol from the text of a line -----

  /** What a line sets a symbol to. */
  datatype Setting = Tri(tri: Tristate) | Text(text: string)

  /** conf_set_sym_val: what the text behind the equals sign sets a symbol of this type to, if anything. */
  function SettingOf(kind: SymbolType, text: string): Option<Setting> {
    match kind
    case TristateType => if text != "" && text[0] == 'm' then Some(Tri(MOD)) else YesOrNo(text)
    case BooleanType => YesOrNo(text)
    case StringType => if text == "" || text[0] != '"' then None else AsText(Unescaped(text[1..]))
    case IntType => if Range.ValidText(kind, text) then Some(Text(text)) else None
    case HexType => if Range.ValidText(kind, text) then Some(Text(text)) else None
    case UnknownType => None
  }

  function AsText(s: Option<string>): Option<Setting> {
    if s.None? then None else Some(Text(s.value))
  }

  function YesOrNo(text: string): Option<Setting> {
    if text != "" && text[0] == 'y' then Some(Tri(YES))
    else if text != "" && text[0] == 'n' then Some(Tri(NO))
    else None
  }

  /** The text that starts at `p`. */
  method TextFrom(a: array<char>, p: nat, ghost s: string) returns (r: string)
    requires CString(a, p, s)
    ensures r == s
  {
    var n := StrLen(a, p, s);
    r := a[p..p + n];
  }

  method SetSymVal(kind: SymbolType, a: array<char>, p: nat, ghost text: string) returns (r: Option<Setting>)
    requires CString(a, p, text)
    modifies a
    ensures r == SettingOf(kind, text)
  {
    var c := a[p];
    match kind
    case TristateType =>
      if c == 'm' { return Some(Tri(MOD)); }
      r := if c == 'y' then Some(Tri(YES)) else if c == 'n' then Some(Tri(NO)) else None;
    case BooleanType =>
      r := if c == 'y' then Some(Tri(YES)) else if c == 'n' then Some(Tri(NO)) else None;
    case StringType =>
      if c != '"' { return None; }
      TextTail(a[..], p, text, 1);
      var ok := UnescapeInPlace(a, p + 1, text[1..]);
      if !ok { return None; }
      var s := TextFrom(a, p + 1, Unescaped(text[1..]).value);
      r := Some(Text(s));
    case UnknownType => return None;
    case _ =>
      var s := TextFrom(a, p, text);
      var ok := Range.StringValid(kind, s);
      r := if ok then Some(Text(s)) else None;
  }

  // ----- lines -----

  /** strchr: the first `c` from `p` on. */
  function Find(s: string, c: char, p: nat): (r: Option<nat>)
    requires p <= |s|
    ensures r.Some? ==> p <= r.value < |s| && s[r.value] == c
    ensures forall k :: p <= k < |s| && (r.Some? ==> k < r.value) ==> s[k] != c
    decreases |s| - p
  {
    if p == |s| then None else if s[p] == c then Some(p) else Find(s, c, p + 1)
  }

  predicate HasAt(s: string, p: nat, t: string) {
    p + |t| <= |s| && s[p..p + |t|] == t
  }

  /** What a line says: nothing, that a symbol is not set, or a text for a symbol. */
  datatype Entry = Skip | Unset(name: string) | Assign(name: string, text: string)

  /** A text without its line end, and without the carriage return before that. */
  function Chopped(text: string): string {
    match Find(text, '\n', 0)
    case None => text
    case Some(q) => if q > 0 && text[q - 1] == '\r' then text[..q - 1] else text[..q]
  }

  function EntryOf(line: string): Entry {
    if line != "" && line[0] == '#' then
      if !HasAt(line, 2, PREFIX) then Skip
      else match Find(line, ' ', 9)
        case None => Skip
        case Some(p) => if HasAt(line, p + 1, "is not set") then Unset(line[9..p]) else Skip
    else if HasAt(line, 0, PREFIX) then
      match Find(line, '=', 7)
      case None => Skip
      case Some(p) => Assign(line[7..p], Chopped(line[p + 1..]))
    else Skip
  }

  /** The types of the symbols that sym_find knows. */
  type Types = string -> Option<SymbolType>

  /** What a line of the user's configuration sets. */
  function Read(types: Types, line: string): Option<(string, Setting)> {
    match EntryOf(line)
    case Skip => None
    case Unset(name) =>
      if types(name) == Some(BooleanType) || types(name) == Some(TristateType) then Some((name, Tri(NO))) else None
    case Assign(name, text) =>
      match types(name)
      case None => None
      case Some(kind) =>
        match SettingOf(kind, text)
        case None => None
        case Some(x) => Some((name, x))
  }

  // ----- printing -----

  /** sym_get_string_value, escaped for a string symbol. */
  function ValueText(kind: SymbolType, x: Setting): string {
    match x
    case Tri(t) => TriName(t)
    case Text(s) => if kind == StringType then Escaped(s) else s
  }

  /** kconfig_print_symbol */
  function PrintLine(kind: SymbolType, name: string, value: string): string {
    if (kind == BooleanType || kind == TristateType) && value != "" && value[0] == 'n' then
      "# " + PREFIX + name + " is not set\n"
    else PREFIX + name + "=" + value + "\n"
  }

  predicate NameChar(c: char) {
    c != ' ' && c != '=' && c != '\n' && c != NUL
  }

  predicate ValidName(name: string) {
    forall k :: 0 <= k < |name| ==> NameChar(name[k])
  }

  /** A value that a symbol of this type can have. */
  predicate HasType(kind: SymbolType, x: Setting) {
    match kind
    case BooleanType => x.Tri? && x.tri != MOD
    case TristateType => x.Tri?
    case StringType => x.Text? && IsText(x.text)
    case UnknownType => false
    case _ => x.Text? && Range.ValidText(kind, x.text)
  }

  /** The names that the configuration language knows can be written. */
  lemma SymbolNamesAreValid(name: string)
    requires forall k :: 0 <= k < |name| ==>
      '0' <= name[k] <= '9' || 'a' <= name[k] <= 'z' || 'A' <= name[k] <= 'Z' || name[k] == '_'
    ensures ValidName(name)
  {
  }

  lemma {:induction false} UnescapedIsText(t: string)
    requires IsText(t) && Unescaped(t).Some?
    ensures IsText(Unescaped(t).value)
  {
    if t[0] == '\\' {
      UnescapedIsText(t[2..]);
    } else if t[0] != '"' {
      UnescapedIsText(t[1..]);
    }
  }

  /** Whatever a line sets a symbol to is a value that the symbol can have. */
  lemma SettingHasType(kind: SymbolType, text: string)
    requires IsText(text) && SettingOf(kind, text).Some?
    ensures HasType(kind, SettingOf(kind, text).value)
  {
    if kind == StringType { UnescapedIsText(text[1..]); }
  }

  // ----- writing and reading back -----

  lemma {:induction false} FindFirst(s: string, c: char, p: nat, q: nat)
    requires p <= q < |s| && s[q] == c && forall k :: p <= k < q ==> s[k] != c
    ensures Find(s, c, p) == Some(q)
    decreases q - p
  {
    if p < q { FindFirst(s, c, p + 1, q); }
  }

  lemma UnsetRoundTrip(name: string)
    requires ValidName(name)
    ensures EntryOf("# " + PREFIX + name + " is not set\n") == Unset(name)
  {
    var line := "# " + PREFIX + name + " is not set\n";
    assert line[2..9] == PREFIX;
    forall k | 9 <= k < 9 + |name| ensures line[k] != ' ' { assert line[k] == name[k - 9]; }
    FindFirst(line, ' ', 9, 9 + |name|);
    assert line[9..9 + |name|] == name;
    assert line == ("# " + PREFIX + name + " ") + "is not set" + "\n";
    assert line[10 + |name|..20 + |name|] == "is not set";
  }

  lemma AssignRoundTrip(name: string, value: string, more: string)
    requires ValidName(name)
    ensures EntryOf(PREFIX + name + "=" + value + more) == Assign(name, Chopped(value + more))
  {
    var line := PREFIX + name + "=" + value + more;
    assert line[0..7] == PREFIX && line[0] == 'C';
    forall k | 7 <= k < 7 + |name| ensures line[k] != '=' { assert line[k] == name[k - 7]; }
    FindFirst(line, '=', 7, 7 + |name|);
    assert line[7..7 + |name|] == name;
    assert line[8 + |name|..] == value + more;
  }

  predicate OneLine(s: string) {
    forall k :: 0 <= k < |s| ==> s[k] != '\n'
  }

  lemma ChoppedLine(value: string)
    requires OneLine(value) && (value != "" ==> value[|value| - 1] != '\r')
    ensures Chopped(value + "\n") == value
  {
    FindFirst(value + "\n", '\n', 0, |value|);
    assert (value + "\n")[..|value|] == value;
  }

  lemma {:induction false} EscapeKeepsLines(s: string)
    ensures OneLine(EscapeBody(s)) <==> OneLine(s)
  {
    if s != "" {
      EscapeKeepsLines(s[1..]);
      var e, rest := EscapeBody(s), EscapeBody(s[1..]);
      var n := |e| - |rest|;
      assert e[n..] == rest;
      assert OneLine(s) ==> OneLine(s[1..]);
      if OneLine(e) {
        forall k | 0 <= k < |rest| ensures rest[k] != '\n' { assert rest[k] == e[n + k]; }
        forall k | 0 <= k < |s| ensures s[k] != '\n' {
          assert if k > 0 then s[k] == s[1..][k - 1] else s[0] == e[n - 1];
        }
      }
    }
  }

  lemma ValidTextIsPlain(kind: SymbolType, s: string)
    requires Range.Numeric(kind) && Range.ValidText(kind, s)
    ensures OneLine(s) && s != "" && s[|s| - 1] != '\r'
  {
    var d := if kind == IntType then Range.WithoutMinus(s) else Range.WithoutPrefix(s);
    var n := |s| - |d|;
    assert s[n..] == d;
    forall k | 0 <= k < |s| ensures s[k] != '\n' && s[k] != '\r' {
      if k >= n { assert s[k] == d[k - n]; }
    }
  }

  /** The text of a value is one line exactly if the value is, and reads back as the value. */
  lemma ValueTextReadsBack(kind: SymbolType, x: Setting)
    requires HasType(kind, x)
    ensures SettingOf(kind, ValueText(kind, x)) == Some(x)
    ensures (kind == StringType ==> OneLine(x.text)) ==>
      OneLine(ValueText(kind, x)) && ValueText(kind, x) != "" && ValueText(kind, x)[|ValueText(kind, x)| - 1] != '\r'
  {
    match x
    case Tri(_) =>
    case Text(s) =>
      if kind == StringType {
        var t := Escaped(s);
        UnescapedEscape(s, "");
        assert t[1..] == EscapeBody(s) + "\"" + "";
        EscapeKeepsLines(s);
        if OneLine(s) {
          forall k | 0 <= k < |t| ensures t[k] != '\n' { assert 0 < k < |t| - 1 ==> t[k] == EscapeBody(s)[k - 1]; }
        }
      } else {
        ValidTextIsPlain(kind, s);
      }
  }

  /** Printing a value and reading the line gives the symbol and the value; n is printed as "is not set". */
  lemma LineRoundTrip(types: Types, kind: SymbolType, name: string, x: Setting)
    requires ValidName(name) && HasType(kind, x) && types(name) == Some(kind)
    requires kind == StringType ==> OneLine(x.text)
    ensures Read(types, PrintLine(kind, name, ValueText(kind, x))) == Some((name, x))
  {
    var value := ValueText(kind, x);
    ValueTextReadsBack(kind, x);
    if x == Tri(NO) {
      UnsetRoundTrip(name);
    } else {
      AssignRoundTrip(name, value, "\n");
      ChoppedLine(value);
    }
  }

  // ----- whole files -----

  /** What getline returns: the text up to and with the first line end. */
  function FirstLine(text: string): (line: string)
    ensures |line| <= |text| && text[..|line|] == line && (text != "" ==> line != "")
  {
    match Find(text, '\n', 0)
    case None => text
    case Some(q) => text[..q + 1]
  }

  lemma FirstLineOf(front: string, more: string)
    requires OneLine(front)
    ensures FirstLine(front + "\n" + more) == front + "\n"
  {
    FindFirst(front + "\n" + more, '\n', 0, |front|);
  }

  lemma {:induction false} EscapeNeverCloses(s: string, n: nat)
    requires n <= |EscapeBody(s)|
    ensures Unescaped(EscapeBody(s)[..n]) == None
  {
    if n > 0 {
      var e, rest := EscapeBody(s), EscapeBody(s[1..]);
      var k := |e| - |rest|;
      assert e[k..] == rest && e == e[..k] + rest;
      if n >= k {
        EscapeNeverCloses(s[1..], n - k);
        assert e[..n][k..] == rest[..n - k];
      }
    }
  }

  /** A string symbol reads back from the first line printed for it exactly if its value has no line end. */
  lemma ReadsBackIffOneLine(types: Types, name: string, s: string)
    requires ValidName(name) && IsText(s) && types(name) == Some(StringType)
    ensures var line := PrintLine(StringType, name, Escaped(s));
            Read(types, FirstLine(line)) == Some((name, Text(s))) <==> OneLine(s)
  {
    hide EscapeBody, Unescaped, Find;
    EscapeKeepsLines(s);
    if OneLine(s) {
      var x := Item(name, StringType, Text(s));
      LineRoundTrip(types, StringType, name, Text(s));
      PrintedLineIsOne(types, x, "");
      assert PrintLine(StringType, name, Escaped(s)) + "" == PrintLine(StringType, name, Escaped(s));
    } else {
      var q := FirstBreak(EscapeBody(s));
      FirstBrokenLine(name, EscapeBody(s), q);
      ChoppedStaysOpen(s, q);
      AssignRoundTrip(name, "\"" + EscapeBody(s)[..q], "\n");
    }
  }

  lemma FirstBrokenLine(name: string, e: string, q: nat)
    requires ValidName(name) && q < |e| && e[q] == '\n' && OneLine(e[..q])
    ensures FirstLine(PREFIX + name + "=" + ("\"" + e + "\"") + "\n") == PREFIX + name + "=" + ("\"" + e[..q]) + "\n"
  {
    var front := PREFIX + name + "=" + ("\"" + e[..q]);
    assert e == e[..q] + "\n" + e[q + 1..];
    assert PREFIX + name + "=" + ("\"" + e + "\"") + "\n" == front + "\n" + (e[q + 1..] + "\"\n");
    FirstLineOf(front, e[q + 1..] + "\"\n");
  }

  lemma FirstBreak(e: string) returns (q: nat)
    requires !OneLine(e)
    ensures q < |e| && e[q] == '\n' && OneLine(e[..q])
  {
    q := Find(e, '\n', 0).value;
  }

  /** A text that ends inside an escaped value sets nothing. */
  lemma ChoppedStaysOpen(s: string, q: nat)
    requires q < |EscapeBody(s)| && OneLine(EscapeBody(s)[..q])
    ensures SettingOf(StringType, Chopped("\"" + EscapeBody(s)[..q] + "\n")) == None
  {
    hide EscapeBody, Unescaped, Find;
    var value := "\"" + EscapeBody(s)[..q];
    FindFirst(value + "\n", '\n', 0, |value|);
    var text := Chopped(value + "\n");
    var n := |text| - 1;
    assert text == value[..n + 1] && text[1..] == EscapeBody(s)[..n];
    EscapeNeverCloses(s, n);
  }

  datatype Item = Item(name: string, kind: SymbolType, value: Setting)

  predicate Writable(types: Types, x: Item) {
    && ValidName(x.name) && HasType(x.kind, x.value) && types(x.name) == Some(x.kind)
    && (x.kind == StringType ==> OneLine(x.value.text))
  }

  /** The lines written for the symbols. */
  function Written(items: seq<Item>): string {
    if items == [] then ""
    else PrintLine(items[0].kind, items[0].name, ValueText(items[0].kind, items[0].value)) + Written(items[1..])
  }

  function Put(m: map<string, Setting>, x: Option<(string, Setting)>): map<string, Setting> {
    if x.None? then m else m[x.value.0 := x.value.1]
  }

  /** The values after the lines of the text have been read in turn. */
  function ReadAll(types: Types, text: string, m: map<string, Setting>): map<string, Setting>
    decreases |text|
  {
    if text == "" then m
    else var line := FirstLine(text); ReadAll(types, text[|line|..], Put(m, Read(types, line)))
  }

  function Values(items: seq<Item>, m: map<string, Setting>): map<string, Setting> {
    if items == [] then m else Values(items[1..], m[items[0].name := items[0].value])
  }

  lemma PrintedLineIsOne(types: Types, x: Item, more: string)
    requires Writable(types, x)
    ensures var line := PrintLine(x.kind, x.name, ValueText(x.kind, x.value)); FirstLine(line + more) == line
  {
    var value := ValueText(x.kind, x.value);
    var line := PrintLine(x.kind, x.name, value);
    ValueTextReadsBack(x.kind, x.value);
    hide ValueText, HasType, Find;
    var front := line[..|line| - 1];
    assert line == front + "\n";
    assert OneLine(front) by {
      var tail := if x.value == Tri(NO) then " is not set" else "=" + value;
      var head := if x.value == Tri(NO) then "# " + PREFIX else PREFIX;
      assert front == head + x.name + tail;
    }
    FirstLineOf(front, more);
    assert front + "\n" + more == line + more;
  }

  /** Reading back what was written for any symbols gives all of them their values. */
  lemma {:induction false} WrittenReadsBack(types: Types, items: seq<Item>, m: map<string, Setting>)
    requires forall k :: 0 <= k < |items| ==> Writable(types, items[k])
    ensures ReadAll(types, Written(items), m) == Values(items, m)
    decreases |items|
  {
    if items != [] {
      var x := items[0];
      var line, more := PrintLine(x.kind, x.name, ValueText(x.kind, x.value)), Written(items[1..]);
      PrintedLineIsOne(types, x, more);
      LineRoundTrip(types, x.kind, x.name, x.value);
      assert (line + more)[|line|..] == more;
      WrittenReadsBack(types, items[1..], m[x.name := x.value]);
    }
  }

  /** With different names, each symbol has its own value, and no other value has changed. */
  lemma {:induction false} ValuesOfItems(items: seq<Item>, m: map<string, Setting>)
    requires forall i, j :: 0 <= i < j < |items| ==> items[i].name != items[j].name
    ensures forall k :: 0 <= k < |items| ==>
              items[k].name in Values(items, m) && Values(items, m)[items[k].name] == items[k].value
    ensures forall n :: (forall k :: 0 <= k < |items| ==> items[k].name != n) ==>
              (n in Values(items, m) <==> n in m) && (n in m ==> Values(items, m)[n] == m[n])
    decreases |items|
  {
    if items != [] {
      var rest, m' := items[1..], m[items[0].name := items[0].value];
      ValuesOfItems(rest, m');
      assert forall k :: 0 <= k < |rest| ==> rest[k].name == items[k + 1].name;
      forall k | 0 <= k < |items|
        ensures items[k].name in Values(items, m) && Values(items, m)[items[k].name] == items[k].value
      {
        if k > 0 { assert items[k] == rest[k - 1]; }
      }
      forall n | forall k :: 0 <= k < |items| ==> items[k].name != n
        ensures (n in Values(items, m) <==> n in m) && (n in m ==> Values(items, m)[n] == m[n])
      {
        assert items[0].name != n;
      }
    }
  }

  // ----- reading a line in its buffer -----

  /** memcmp or strncmp with a text, a line that is too short being different. */
  method Matches(a: array<char>, p: nat, t: string, ghost line: string) returns (b: bool)
    requires CString(a, 0, line)
    ensures b == HasAt(line, p, t)
  {
    var n := StrLen(a, 0, line);
    if p + |t| > n { return false; }
    var i := 0;
    while i < |t|
      invariant 0 <= i <= |t| && line[p..p + i] == t[..i]
    {
      CharOf(a, 0, line, p + i);
      if a[p + i] != t[i] {
        assert line[p..p + |t|][i] != t[i];
        return false;
      }
      i := i + 1;
    }
    assert t[..|t|] == t;
    b := true;
  }

  /** strchr, from position `p` of the text at `base` on. */
  method StrChr(a: array<char>, base: nat, p: nat, c: char, ghost text: string) returns (r: Option<nat>)
    requires CString(a, base, text) && p <= |text| && c != NUL
    ensures r == Find(text, c, p)
  {
    var q := p;
    while a[base + q] != NUL
      invariant p <= q <= |text| && Find(text, c, p) == Find(text, c, q)
      decreases |text| - q
    {
      CharOf(a, base, text, q);
      if a[base + q] == c { return Some(q); }
      q := q + 1;
    }
    r := None;
  }

  /** Ending the text at `q` leaves its front. */
  lemma CutText(m: seq<char>, p: nat, s: string, q: nat)
    requires TextAt(m, p, s) && q <= |s|
    ensures TextAt(m[p + q := NUL], p, s[..q])
  {
  }

  lemma CutKeepsTail(m: seq<char>, p: nat, s: string, q: nat)
    requires TextAt(m, p, s) && q < |s|
    ensures TextAt(m[p + q := NUL], p + q + 1, s[q + 1..])
  {
    TextTail(m, p, s, q + 1);
  }

  method EndTextAt(a: array<char>, q: nat)
    requires q < a.Length
    modifies a
    ensures a[..] == old(a[..])[q := NUL]
  {
    a[q] := NUL;
  }

  /** The part of the read loop for a line that starts with a number sign. */
  method ReadUnset(types: Types, a: array<char>, ghost line: string) returns (r: Option<(string, Setting)>)
    requires CString(a, 0, line) && line != "" && line[0] == '#'
    modifies a
    ensures r == Read(types, line)
  {
    hide TextAt, Find;
    var ours := Matches(a, 2, PREFIX, line);
    if !ours { return None; }
    var p := StrChr(a, 0, 9, ' ', line);
    if p.None? { return None; }
    var unset := Matches(a, p.value + 1, "is not set", line);
    if !unset { return None; }
    TextTail(a[..], 0, line, 9);
    CutText(a[..], 9, line[9..], p.value - 9);
    LongEnough(a, 0, line);
    EndTextAt(a, p.value);
    assert line[9..][..p.value - 9] == line[9..p.value];
    var name := TextFrom(a, 9, line[9..p.value]);
    var kind := types(name);
    r := if kind == Some(BooleanType) || kind == Some(TristateType) then Some((name, Tri(NO))) else None;
  }

  lemma LongEnough(a: array<char>, p: nat, s: string)
    requires CString(a, p, s)
    ensures p + |s| < a.Length
  {
  }

  /** Ends the text at `p` before its line end, and before the carriage return there. */
  method Chop(a: array<char>, p: nat, ghost text: string)
    requires CString(a, p, text) && 0 < p && a[p - 1] == NUL
    modifies a
    ensures CString(a, p, Chopped(text)) && a[..p] == old(a[..p])
  {
    hide TextAt, Find;
    ghost var m := a[..];
    LongEnough(a, p, text);
    var q := StrChr(a, p, 0, '\n', text);
    if q.None? { return; }
    var n := q.value;
    CutText(a[..], p, text, n);
    EndTextAt(a, p + n);
    if n > 0 { CharOf(a, p, text[..n], n - 1); }
    if a[p + n - 1] == '\r' {
      CutText(a[..], p, text[..n], n - 1);
      assert text[..n][..n - 1] == text[..n - 1];
      EndTextAt(a, p + n - 1);
    }
    assert a[..p] == m[..p];
  }

  /** The part for a line that starts with the prefix of a symbol. */
  method ReadAssign(types: Types, a: array<char>, ghost line: string) returns (r: Option<(string, Setting)>)
    requires CString(a, 0, line) && HasAt(line, 0, PREFIX)
    modifies a
    ensures r == Read(types, line)
  {
    hide TextAt, Find, Chopped, SettingOf;
    assert line[0] == line[0..7][0] == 'C';
    LongEnough(a, 0, line);
    var p := StrChr(a, 0, 7, '=', line);
    if p.None? { return None; }
    var q := p.value;
    TextTail(a[..], 0, line, 7);
    CutText(a[..], 7, line[7..], q - 7);
    CutKeepsTail(a[..], 0, line, q);
    assert line[7..][..q - 7] == line[7..q];
    EndTextAt(a, q);
    var name := TextFrom(a, 7, line[7..q]);
    Chop(a, q + 1, line[q + 1..]);
    var kind := types(name);
    if kind.None? { return None; }
    var x := SetSymVal(kind.value, a, q + 1, Chopped(line[q + 1..]));
    r := if x.None? then None else Some((name, x.value));
  }

  /** One round of the read loop. */
  method ReadLine(types: Types, a: array<char>, ghost line: string) returns (r: Option<(string, Setting)>)
    requires CString(a, 0, line)
    modifies a
    ensures r == Read(types, line)
  {
    if line != "" { CharOf(a, 0, line, 0); }
    if a[0] == '#' {
      r := ReadUnset(types, a, line);
    } else {
      var ours := Matches(a, 0, PREFIX, line);
      if !ours { return None; }
      r := ReadAssign(types, a, line);
    }
  }

  /** A line in a buffer of its own. */
  method BufferFor(line: string) returns (a: array<char>)
    requires IsText(line)
    ensures fresh(a) && CString(a, 0, line)
  {
    a := new char[|line| + 1];
    a[0] := NUL;
    StrCat(a, "", line);
    assert "" + line == line;
  }

  method LineEnd(text: string, from: nat) returns (n: nat)
    requires from < |text|
    ensures 0 < n <= |text| - from && FirstLine(text[from..]) == text[from..from + n]
  {
    ghost var rest := text[from..];
    n := 0;
    while from + n < |text| && text[from + n] != '\n'
      invariant from + n <= |text| && Find(rest, '\n', 0) == Find(rest, '\n', n)
    {
      assert rest[n] == text[from + n];
      n := n + 1;
    }
    if from + n < |text| {
      assert rest[n] == text[from + n];
      assert rest[..n + 1] == text[from..from + n + 1];
      n := n + 1;
    } else {
      assert text[from..from + n] == rest;
    }
  }

  /** The read loop: the values that the lines of a file set. */
  method ReadConfig(types: Types, text: string) returns (m: map<string, Setting>)
    requires IsText(text)
    ensures m == ReadAll(types, text, map[])
  {
    hide Read, CString, ReadAll, FirstLine;
    m := map[];
    var p: nat := 0;
    assert text[0..] == text;
    while p < |text|
      invariant p <= |text| && ReadAll(types, text, map[]) == ReadAll(types, text[p..], m)
      decreases |text| - p
    {
      var n := LineEnd(text, p);
      var a := BufferFor(text[p..p + n]);
      var x := ReadLine(types, a, text[p..p + n]);
      ReadAllStep(types, text, p, n, m);
      m := Put(m, x);
      p := p + n;
    }
    NothingToRead(types, m);
    assert text[p..] == "";
  }

  lemma NothingToRead(types: Types, m: map<string, Setting>)
    ensures ReadAll(types, "", m) == m
  {
  }

  lemma ReadAllStep(types: Types, text: string, p: nat, n: nat, m: map<string, Setting>)
    requires p < |text| && 0 < n <= |text| - p && FirstLine(text[p..]) == text[p..p + n]
    ensures ReadAll(types, text[p..], m) == ReadAll(types, text[p + n..], Put(m, Read(types, text[p..p + n])))
  {
    hide Read, Put, FirstLine;
    assert text[p..][n..] == text[p + n..];
  }
}
