# Verified model of the Kconfig engine, the file hashes and the firmware CRC

This project models, in Dafny, the logic behind OpenWrt's configuration and
image tools, and proves what that logic is relied on for:

* the Kconfig engine in `scripts/config`: three-valued expressions and their
  rewriting, finalisation of the menu tree, the search for recursive
  dependencies, the recursive calculation of values with its radio groups
  (choices), ranges, the symbol table, macro expansion, and the lines of
  configuration files;
* `scripts/mkhash.c`: MD5 and SHA-256, fed in pieces, against RFC 1321 and
  FIPS 180-4;
* the CRC-32 of `tools/firmware-utils/src/add_header.c`, `asustrx.c` and
  `scripts/cfe-partition-tag.py` against its definition bit by bit.

`dafny verify dfyconfig.toml` checks everything.

## How the parts fit together

| file | what it holds |
|---|---|
| `Basics.dfy` | what several modules share |
| `CNumbers.dfy` | strtoll, strtoull, `%lld`, `0x%llx`, and the proof that printing and parsing are inverse |
| `Exprs.dfy`, `ExprOrder.dfy` | symbols, expressions, valuations, the evaluator; what its comparisons mean for numbers, values and texts |
| `ExprEq.dfy`, `ExprTransform.dfy`, `ExprDups.dfy`, `ExprSame.dfy` | the rewriters of `expr.c`; what they call equal and strike out, operand by operand |
| `MenuLinks.dfy`, `MenuDeps.dfy`, `MenuChoices.dfy`, `Menu.dfy` | the linked menu tree, the conditions of its nodes, its final shape and its choice members, `menu_finalize` |
| `Choice.dfy` | radio groups as values: what a calculation and a set do to a choice and its members, over any run |
| `Calc.dfy`, `CalcSteps.dfy`, `CalcGroups.dfy`, `CalcSets.dfy`, `CalcOrder.dfy` | what the value of a symbol is, given those of the symbols that it reads; what a step of the recursive calculation keeps; groups and sets in terms of `Choice.dfy`; values that do not depend on the order |
| `CalcLaws.dfy` | what calculated values mean in terms of the expressions of a definition |
| `CalcRun.dfy`, `CalcCases.dfy` | `sym_calc_value` and what it calls, with remembered values; a group that it leaves without the law |
| `DepCheck.dfy`, `DepEdges.dfy`, `CalcChecked.dfy` | `sym_check_deps`; what counts as a dependency; what a check without errors means for the calculation |
| `Range.dfy`, `Interning.dfy` | text values with ranges, the symbol table |
| `ConfLine.dfy` | escaping, printing and reading configuration lines |
| `Preprocess.dfy` | macro expansion |
| `Words.dfy`, `BlockHash.dfy`, `Sha256.dfy`, `Md5.dfy` | 32-bit words, padding and block folding, the two hashes |
| `WordBits.dfy`, `HashBits.dfy`, `HashConstants.dfy` | the operations and functions of the hashes on single bits; the primes and roots behind the constants of SHA-256 |
| `Crc32.dfy`, `CrcTable.dfy` | CRC-32 by table, computed and written out |

Code that builds a new value (the expression rewriters, the specification of
macro expansion) is a function. Code that changes state is a class or a method
over arrays: `MenuTree` relinks the `list`, `next` and `parent` maps of its
nodes, `Checker` keeps the flags and the stack of the dependency search,
`Calculator` keeps the values, the user's settings and SYMBOL_VALID of all logical
symbols, `TextSymbol` and `SymbolTable` keep the fields of symbols,
`Expander` keeps `exp_count`, the two `Context` classes keep hash states and
buffers, and strings are escaped and unescaped in character arrays that end
with NUL.

Ghost fields of `MenuTree` record what finalisation did: the nodes in the order in
which they were finalised (`log`), the conditions each node got from above
(`given`), the rounds of the last loop that met a choice member (`visits`), and the
choice whose test a node got (`choiceOf`). `FinalizeTree` ties each of them to the
tree, so that none is left to the implementation.

### Meaning of expressions

Claims about meaning hold for every well-formed valuation (`Exprs.WellFormed`):
a boolean is never m, a logical symbol's text is that of its value, a symbol
without a type stands for its name, and only logical symbols and y, m, n differ
from n. `CalcOrder.CalculatedIsWellFormed` shows that calculation delivers such a
valuation, and `Choice.CalculatedValuesFit` the same for one choice.

A quoted constant that reads as 0, 1 or 2 compares equal to n, m or y
(`expr.c:1073-1083`), and then the rule that turns `(a='b') && (a!='c')` into
`a='b'` or n (`expr.c:540-553`) is wrong. `ExprDups.TestJoinIsExact` says when
it is right: exactly if no value of `a` passes both tests against `b` and
`c`, and `ExprDups.JoinAndIsExact` that no other rule for And is ever wrong.
`ExprDups.TestJoinOfZeros` is a case where it fails. Removal of duplicates is
therefore proved for expressions that test no tristate symbol against such a
constant (`Exprs.PlainTests`), and so are the values of finalised conditions
(`MenuDeps.PlainSource`); every other rewriter, and what finalisation does to the
tree, is proved without that condition.

### Values, and the order in which they are asked for

`CalcRun.Calculator` follows the recursion of the source: the condition of a prompt
asks for the values of other symbols, each value is calculated once and remembered,
and a choice stores its own value before it looks at the prompts of its members. Its
contracts are in terms of `CalcSteps.Advanced`: only symbols of lower rank were
calculated, every one of them has the value that its definition gives it
(`RightAt`), and nothing else has changed but the visibility of members. The ranks
are ghost parameters; they say that no symbol reads itself, apart from what is stated
for a choice and its members.

* A choice that is calculated first, and then its members, is a step of
  `Choice.dfy`, with the set `early` of members that were asked for before the selection
  (`CalcRun.Calculator.CalcGroup`). The law of the radio group holds exactly if the
  selected symbol is none of them. No member is one of them if no prompt of a member
  and no default condition leads to a member.
* After a check for recursive dependencies without errors that is so for all choices, and all
  symbols can be calculated in any order: `CalcChecked.CheckAndCalculate` and
  `CalcChecked.CheckedValuesAreUnique`.

### Findings

Where the code does not do what one would expect, the model follows the code,
and the exact condition is proved:

* `ExprDups.JoinAndIsExact`: the rule above.
* `ExprOrder.ConstantsCompareExactly`: an ordered test of a logical symbol against y, m or n goes by the
  names, in which m comes before n. It agrees with the order of the values exactly for `=` and `!=`,
  and otherwise where the two sides are not m and n. `ExprOrder.ModIsNotGreater`: `A>n` is n at A = m.
* `ExprSame.SupersetIsCover`: an item that mentions a symbol, but does not depend on it outright, goes into the
  submenu of the symbol exactly if its condition is an And that has all And-operands of the condition of the
  symbol's prompt (or if there is none). That every operand occurs is not enough where the item's condition is a
  single operand: `ExprSame.OrDoesNotCoverItself`. The law is about conditions of which no two operands can be
  joined. Joining can lose an operand: with tristate symbols, `A && A='m' && (S || Q)` is simplified to
  `A='m' && (S || Q)`, and then lacks the operand `A!=n`.
* `ExprTransform.TransCompareOfNegation`: the comparison inserted for the
  automatic submenus is wrong for a negated symbol exactly when the symbol is m.
* `ExprTransform.TransBoolOfNegation`: below a negation `expr_trans_bool` changes
  whether a condition is n exactly when the tested symbol is m; on the negation
  normal form that `menu_finalize` passes to it, it never does.
* `Choice.StaysYes`: an optional choice that was calculated to y can fall back to
  n when it is calculated again from the same inputs; it stays y exactly if it
  is y without the user or all its visible members were set by the user.
* `Choice.AcceptedMemberIsSelected`: a member whose set to y was accepted is
  selected exactly if it is visible. `Choice.InvisiblePick` is one that is y by
  default although it is invisible: it accepts being set to y, but is not selected.
* `Choice.OneVisibleMemberExactly`: a choice at y has exactly one visible member
  at y unless the user's member is invisible and the first visible default is a
  symbol that is not a member, or the selected member was asked for before the selection.
  `Choice.OutsideDefault` is a choice of the first kind. `CalcCases.AskedTooEarly` is one of the
  second: of its members A, C and B, the last depends on A, and A is selected and fully
  visible but stays n. Such recursive dependencies are only warnings
  (scripts/config/README:20-21); `CalcCases.TrioIsReported` shows that the search finds this one.
* `MenuDeps.UntypedChoicePrompt`: a choice without a type statement has none yet when its parent
  propagates conditions, and so its prompt loses the tests `A!=n` of tristate symbols. If
  the choice becomes tristate, its prompt is then worth m and not y when A is m.
  `MenuDeps.DroppedTestsOnlyAtMod`: nothing changes where no such A is m.
* `Preprocess.SelfCallIsTooDeep`: a variable that calls itself with arguments is no
  self reference for the code, and ends only at the limit for nested expansions
  (`Preprocess.SelfCallExample`: `f = $(f,x)`).
* `Range.ClampedIsWithin`: a range with its bounds out of order is never met
  (`Range.BoundsOutOfOrder`: from 9 to 3, where 7 becomes 9, 3 and 9 again), and
  a negative hexadecimal bound reads back as the greatest number (`Range.NegativeHexBound`).
* `ConfLine.ReadsBackIffOneLine`: a string with a line end is lost.

## Model

| member | source | states |
|---|---|---|
| `CNumbers.DecimalRoundTrip` | scripts/config/symbol.c:128-149 | every `long long` printed with `%lld` parses back to itself, using up the whole text without overflow |
| `CNumbers.HexRoundTrip` | scripts/config/symbol.c:128-149 | the same for non-negative numbers printed with `0x%llx` and parsed in base 16 |
| `Exprs.AllocAnd` | scripts/config/expr.c:52-57 | the conjunction of two possibly missing conditions is worth the minimum of both, a missing one counting as y |
| `Exprs.CompareWithConst` | scripts/config/expr.c:998-1102 | an equality test of a logical symbol against a constant holds exactly at the values the constant denotes, as a number or as a name |
| `Exprs.CompareWithTristate` | scripts/config/expr.c:1060-1102 | a test against y, m or n is a test of the symbol's value |
| `ExprOrder.NumbersCompare` | scripts/config/expr.c:1060-1102 | two symbols that read as numbers, int, hex or constant, stand in each of the six relations as their numbers do, modulo 2^64 if one of them is hex |
| `ExprOrder.LogicalsCompare` | scripts/config/expr.c:1060-1102 | two boolean or tristate symbols stand in each of the six relations as their values do |
| `ExprOrder.ConstantsCompareByName` | scripts/config/expr.c:1060-1102 | a boolean or tristate symbol and y, m or n stand in each of the six relations as their names do |
| `ExprOrder.ConstantsCompareExactly` | scripts/config/expr.c:1060-1102 | that is as their values do if and only if the relation is an equality, or they are not m and n |
| `ExprOrder.ModIsNotGreater` | scripts/config/expr.c:1060-1102 | a valuation in which A is m and `A>n` is n |
| `ExprOrder.StringsCompare` | scripts/config/expr.c:1060-1102 | two string symbols stand in each of the six relations as the first differing character says, a proper beginning coming first |
| `ExprEq.EliminateYnKeepsValue` | scripts/config/expr.c:316-397 | removing y and n operands keeps the value |
| `ExprEq.EliminateYnRemovesConstants` | scripts/config/expr.c:316-397 | afterwards no And or Or has a y or n operand |
| `ExprEq.StripCommonFactors` | scripts/config/expr.c:150-190 | factoring invariant: what is removed from both sides is one common operand, at all levels and in any order |
| `ExprEq.EliminateEqReflectsOrder` | scripts/config/expr.c:221-241 | what is left over after the And phase and the Or phase, in either order, is ordered only if the given expressions are |
| `ExprEq.EqIsSound` | scripts/config/expr.c:252-303 | expressions that `expr_eq` calls equal have equal values under every valuation |
| `ExprEq.EqDepIsSound` | scripts/config/expr.c:259-260 | the same for possibly missing expressions, a missing one counting as y |
| `ExprEq.SupersetTestIsSound` | scripts/config/menu.c:479-490 | if y is left of the second expression, the first is at most the second |
| `ExprSame.StripIsStrike` | scripts/config/expr.c:150-190 | of two levels without repeated operands exactly the operands that occur on the other side are struck out, in any order and nesting |
| `ExprSame.EqIsSame` | scripts/config/expr.c:252-303 | `expr_eq` is sound and complete: on trees without repeated operands it holds if and only if the trees are the same up to the order and nesting of operands |
| `ExprSame.DecidedLevelsAreEqual` | scripts/config/expr.c:165-169 | y and n operands are not struck out, so that two levels with a deciding operand are equal |
| `ExprSame.OperandIsEliminated` | scripts/config/expr.c:221-241 | a single operand against a level, on either side, is removed from both if and only if it occurs there |
| `ExprSame.SupersetIsInclusion` | scripts/config/menu.c:479-490 | y is left of the second expression if and only if it is y, or the first one is an And that has all its And-operands |
| `ExprSame.SettledIsTidy` | scripts/config/expr.c:596-651 | where nothing is left to join no operand is repeated |
| `ExprSame.TransformedTestOf` | scripts/config/menu.c:457-459 | the simplified comparison of a condition with n is that of its operands, And and Or staying as they are |
| `ExprSame.SupersetIsCover` | scripts/config/menu.c:479-490 | comparing the simplified tests tells whether the one condition is an And that has all And-operands of the other one |
| `ExprSame.OccurringIsCovered` | scripts/config/menu.c:470-477 | an And among whose operands those of another condition occur covers it |
| `ExprSame.OrAndRest` | scripts/config/menu.c:474-475 | `(A || Q) && R` covers `R` |
| `ExprSame.OrDoesNotCoverItself` | scripts/config/menu.c:479-490 | a single Or does not cover itself |
| `ExprSame.DependsIsOperand` | scripts/config/expr.c:879-906 | an expression depends on a symbol if and only if an operand of And is the symbol, or tests it for y, for m, or for not n |
| `ExprTransform.TransformKeepsValue` | scripts/config/expr.c:694-849 | normalisation keeps the value under every valuation; it terminates although De Morgan duplicates negations |
| `ExprTransform.TransformNormalises` | scripts/config/expr.c:694-849 | the result negates only symbols other than y, m, n and tests no boolean against y, m or n |
| `ExprTransform.TransformFixesExactlyNormalForms` | scripts/config/expr.c:694-849 | the expressions it leaves alone are exactly those normal forms, and it is idempotent |
| `ExprTransform.TransformKeepsPlainTests` | scripts/config/expr.c:694-849 | it introduces no test against a numeric constant |
| `ExprTransform.RewriteMReadsModules` | scripts/config/menu.c:81-104 | the rewritten expression is the given one read with m meaning "m if modules are enabled" |
| `ExprTransform.TransBoolKeepsNo` | scripts/config/expr.c:402-426 | on negation normal forms the value may fall from y to m but is n in the same cases |
| `ExprTransform.TransBoolDropsTests` | scripts/config/expr.c:402-426 | no test `A!=n` of a tristate symbol is left, and expressions without one stay as they are |
| `ExprTransform.TransBoolKeepsVisibility` | scripts/config/symbol.c:182-198 | the visibility of a symbol that is not tristate is the same with and without the rewriting of its prompts |
| `ExprTransform.TransBoolOfNegation` | scripts/config/expr.c:402-426 | below a negation it keeps whether a condition is n if and only if the tested symbol is not m |
| `ExprTransform.TransBoolUnderNegation` | scripts/config/expr.c:402-426 | and there is a valuation where it does not |
| `ExprTransform.TransCompareIsExact` | scripts/config/expr.c:922-985 | where no negated operand is m, the explicit comparison with n is the comparison of the value with n |
| `ExprTransform.TransCompareWithYes` | scripts/config/expr.c:922-985 | the same for the comparison with y, and with m for symbols and tests |
| `ExprTransform.TransCompareOfNegation` | scripts/config/expr.c:953-954 | for a negated symbol it is right if and only if the symbol is not m |
| `ExprTransform.TransCompareKeepsPlainTests` | scripts/config/expr.c:922-985 | it introduces no test against a numeric constant |
| `ExprTransform.DependsSymbolIsSound` | scripts/config/expr.c:879-906 | an expression accepted as depending on a symbol is n whenever the symbol is, and mentions it |
| `ExprDups.JoinOrKeepsValue` | scripts/config/expr.c:431-493 | two operands joined into one have the value of their Or |
| `ExprDups.TwoTestsAreJoined` | scripts/config/expr.c:449-587 | two equality tests of a tristate symbol are joined with Or, two inequalities and one of each with And, whatever the order |
| `ExprDups.SymbolAndTestAreJoined` | scripts/config/expr.c:507-538 | a symbol and a test of it are joined with And, in either order |
| `ExprDups.JoinAndKeepsValue` | scripts/config/expr.c:495-587 | the same for And, except for opposite tests of a tristate symbol against two constants that one value equals both |
| `ExprDups.JoinAndIsExact` | scripts/config/expr.c:495-587 | for every pair that can be joined, in either order: the value is kept under every valuation if and only if the operands are not such tests |
| `ExprDups.TestJoinIsExact` | scripts/config/expr.c:540-553 | the rule for `a='b' && a!='c'` is right under every valuation if and only if no value of `a` equals both constants |
| `ExprDups.TestJoinOfZeros` | scripts/config/expr.c:540-553 | with the constants 0 and 00 it is wrong for some valuation |
| `ExprDups.EliminateDups1` | scripts/config/expr.c:596-651 | comparing a tree with itself in place, a pass keeps the value and the forms; it counts nothing if and only if no two of the operands can be joined, and then the tree is unchanged; if it counts something the tree has shrunk or will when constants are removed |
| `ExprDups.EliminateDups` | scripts/config/expr.c:664-686 | the loop of passes ends, with the value kept under every valuation, negation normal form kept, and nothing left to join; an expression with nothing to join stays as it is |
| `MenuLinks.AdoptLinks` | scripts/config/menu.c:494-498 | the three assignments turn the chain after a childless node into its children and touch no other node |
| `MenuLinks.FlattenLinks` | scripts/config/menu.c:574-583 | the assignments of flattening turn the children of a node into its following siblings and touch no other node |
| `MenuLinks.FlattenKeepsOrder` | scripts/config/menu.c:549-583 | flattening keeps every node once and in document order |
| `MenuLinks.UniquePreorder` | scripts/config/menu.c:305-612 | a tree that holds every node once lists every node once |
| `MenuDeps.Conjoin` | scripts/config/menu.c:356-360 | rewriting, normalising, conjoining and simplifying gives the minimum of the dependency above and the condition as written, without tests against numeric constants |
| `MenuDeps.PropagateProperty` | scripts/config/menu.c:394-399 | the condition of a property is the minimum of its own and its node's dependency; for a symbol not known to be tristate at that time it may be m instead of y, but is n in the same cases, and has no test for n left |
| `MenuDeps.Propagate` | scripts/config/menu.c:350-416 | one child's dependency and all its property conditions, below any dependency, given the type of its symbol that is known when the parent is finalised |
| `MenuDeps.UntypedChoicePrompt` | scripts/config/menu.c:397-398 | the prompt `s!=n` of a choice without a type statement becomes `s`; if the choice becomes tristate, it is visible at m only where `s` is m, and not at y |
| `MenuDeps.DroppedTestsOnlyAtMod` | scripts/config/expr.c:402-426 | dropping tests keeps the value of a condition where no dropped test is of a symbol at m |
| `MenuDeps.WithChoiceConjoins` | scripts/config/menu.c:529-537 | the extra test for boolean members of tristate choices is one more conjunct of the node and all its properties |
| `MenuDeps.TopsAndBelow` | scripts/config/menu.c:349-431 | children that have their conditions from above, and are then finalised, have the conditions of the original structure all the way down |
| `MenuChoices.TestsAreFirst` | scripts/config/menu.c:506-537 | over any rounds of the last loop: a node has the test of a choice if and only if the first round for its symbol was its own, below a tristate choice, and the symbol is never m; the test is for the choice of that round |
| `MenuChoices.FlatShows` | scripts/config/menu.c:505-584 | flattening leaves at the top of a chain exactly the nodes reached through nodes without a prompt text |
| `MenuChoices.FlatTitled` | scripts/config/menu.c:574-583 | after flattening at all levels every node that still has children has a prompt text |
| `MenuChoices.VisitsAreMeetings` | scripts/config/menu.c:505-508 | the last loop of a choice meets exactly the nodes with a symbol that flattening leaves below it |
| `MenuChoices.ChoicesOfTree` | scripts/config/menu.c:506-548 | the members are the symbols met below choices; only one node of a symbol has a test, of a tristate choice that met it; a symbol met once, and never m, has the test of that choice |
| `MenuChoices.ChildrenOfTree` | scripts/config/menu.c:506-548 | the same for the final tree: the symbol of every child of a choice is a member, and where all choices have a prompt text, a child of a tristate choice whose symbol is never m and belongs to no other node has the test |
| `MenuChoices.AdoptsKeepsOrder` | scripts/config/menu.c:461-500 | adoption at all levels keeps every node once and in document order |
| `Menu.ExplicitTest` | scripts/config/menu.c:457-459 | the simplified comparison with n tells whether the condition differs from n, and is that of each operand where nothing can be joined |
| `Menu.BelongsToSubmenu` | scripts/config/menu.c:465-490 | an item put into the submenu of a symbol mentions the symbol and is visible only together with the symbol or the symbol's prompt; an item is put there if it depends on the symbol outright, or mentions it and its condition is an And that has all And-operands of the condition of the prompt, and, the conditions being simplified, no other item is |
| `Menu.MenuTree.InSubmenu` | scripts/config/menu.c:464-490 | the same in both directions for the item's prompt condition, or its dependency without a prompt |
| `Menu.MenuTree.PropagateDeps` | scripts/config/menu.c:349-416 | exactly the topmost children get conditions, below the node's dependency or the choice symbol; nothing else changes |
| `Menu.MenuTree.FinalizeChildren` | scripts/config/menu.c:430-431 | the children are finalised in turn, each once, in order, under the same parent |
| `Menu.MenuTree.AdoptFollowing` | scripts/config/menu.c:461-495 | the adopted items are a beginning of the following siblings, finalised once each, with the symbol as their new parent; with the conditions they had, each mentions the symbol and is visible only with it or its prompt, those with simplified conditions are due there, and the first item left over is not: neither does it depend on the symbol outright, nor mention it and have all operands of the prompt's condition |
| `Menu.MenuTree.RelinkSubmenu` | scripts/config/menu.c:496-500 | adopted items become the children, the other siblings stay |
| `Menu.MenuTree.AdoptSubmenu` | scripts/config/menu.c:457-500 | the items that belong to the submenu of a symbol become its children, with the same about the final children |
| `Menu.MenuTree.MakeSubmenu` | scripts/config/menu.c:433-503 | automatic submenu creation as a whole: nothing moves below a node without a symbol |
| `Menu.MenuTree.AddMember` | scripts/config/menu.c:506-537 | a child of a choice becomes a member, and one that is never m below a tristate choice gets the extra test, once |
| `Menu.MenuTree.Reparent` | scripts/config/menu.c:575-579 | all topmost nodes of a chain, and no others, get the new parent, and the last of them is found |
| `Menu.MenuTree.FlattenNext` | scripts/config/menu.c:505-584 | one round of the last loop registers a member and flattens a node without a prompt text, and keeps the order, the nodes and the parents |
| `Menu.MenuTree.Flatten` | scripts/config/menu.c:505-584 | the last loop as a whole: the chain is the flattened one, the rounds for members are those of its nodes |
| `Menu.MenuTree.Finalize` | scripts/config/menu.c:305-612 | finalising any node: the adopted beginning of its siblings, the flattened shape, the members and tests of choices below; document order, parents, one finalisation per node, conditions below; nothing outside changes |
| `Menu.FinalizeTree` | scripts/config/menu.c:305-612 | over every menu tree: the preorder listing is unchanged, the nodes are finalised exactly once and in that order, every node's parent is the node whose chain holds it, and, if no condition tests a tristate symbol against a numeric constant, every node has under every valuation the conditions that the original structure prescribes; the tree is that of adoption, in which every adopted item belongs to its submenu, flattened at all levels, so that every parent but the root has a prompt text; and which symbols are members, and which nodes have the test of which choice, is decided by that tree in both directions |
| `DepCheck.CloseCycle` | scripts/config/symbol.c:1230-1233 | meeting a symbol of a group that is being checked exhibits a cycle of groups |
| `DepCheck.OrderedOnNoCycle` | scripts/config/symbol.c:1140-1186 | groups finished in dependency order lie on no cycle, but through names of choices |
| `DepCheck.Checker.CheckDeps` | scripts/config/symbol.c:1225-1257 | a reported symbol means a cycle; flags and stack are as before; without the error mode only a symbol under check is reported |
| `DepCheck.Checker.CheckMember` | scripts/config/symbol.c:1235-1242 | a member is checked with its choice, and finished with it |
| `DepCheck.Checker.CheckChoice` | scripts/config/symbol.c:1188-1223 | the choice is checked while it and its members are marked, then the members are; the flags are as before, and without an error everything that the group mentions was finished before it, choices whose members are being checked apart |
| `DepCheck.Checker.CheckSymDeps` | scripts/config/symbol.c:1140-1186 | without an error everything the symbol depends on was finished before it, choices whose members are being checked apart |
| `DepCheck.Checker.CheckExpr` | scripts/config/symbol.c:1105-1137 | the same for an expression |
| `DepCheck.CheckAll` | scripts/config/parser.y:513-517 | with recursive dependencies as errors, an error means that the graph of dependencies, a choice and its members being one node, has a cycle, and no error that it has none but through names of choices, and that all groups are finished in dependency order; so errors are counted if and only if there is a cycle where choices have no names. Otherwise none is counted; flags and stack are clear afterwards, and the symbols checked are those of the list and others mentioned in dependencies |
| `DepEdges.EdgeIsDependency` | scripts/config/symbol.c:1140-1186 | what is followed from a symbol is what occurs in its dependencies, in the conditions of its prompts, ranges and defaults, and in the values of its defaults unless it is a choice |
| `DepEdges.SelectsMakeNoCycle` | scripts/config/symbol.c:1164-1167 | adding or removing selects, implies and lists of choices among the properties makes no cycle and breaks none |
| `DepEdges.CheckBoth` | scripts/config/symbol.c:1164-1167 | and the check has the same answer |
| `DepEdges.SelectUnderItself` | scripts/config/symbol.c:1164-1167 | `A` with `select B if C`, and `C` with `depends on A`, is no cycle |
| `Preprocess.JoinOfSplit` | scripts/config/preprocess.c:382-396 | splitting a clause at its commas loses nothing |
| `Preprocess.BudgetFalls` | scripts/config/preprocess.c:261-266 | the budget of remaining expansions falls, which ends every expansion, whatever the variables |
| `Preprocess.PlainText` | scripts/config/preprocess.c:495-537 | text without a dollar sign stands for itself |
| `Preprocess.ExpandAppend` | scripts/config/preprocess.c:495-537 | expansion distributes over concatenation at every cut that is not inside a reference |
| `Preprocess.VariableStandsForValue` | scripts/config/preprocess.c:251-277 | a reference gives the value of a simple variable as it is, and of a recursive one expanded |
| `Preprocess.OtherNameStandsForEnvironment` | scripts/config/preprocess.c:415-431 | a name that is no variable stands for the built-in function of that name, or else for what the environment says, or else for nothing |
| `Preprocess.EmptyReference` | scripts/config/preprocess.c:69-70 | for the empty name the environment is not asked |
| `Preprocess.SplitOfJoin` | scripts/config/preprocess.c:382-396 | parts whose commas are inside parentheses, which match, are what their list is split into |
| `Preprocess.CallStandsForValue` | scripts/config/preprocess.c:251-277 | a call `$(f,a1,..,ak)` gives the value of a simple variable as it is, and of a recursive one expanded with the expansions of `a1` to `ak` as arguments, the variable counting once more; above the limit it is an error |
| `Preprocess.OtherCallStandsForNothing` | scripts/config/preprocess.c:415-431 | a call with arguments of a name that is no variable stands for the built-in function, or else for nothing, whatever the environment |
| `Preprocess.SelfCallIsTooDeep` | scripts/config/preprocess.c:260-265 | a recursive variable that calls itself with arguments that expand ends as too deep an expansion, whatever is under way |
| `Preprocess.NumberStandsForArgument` | scripts/config/preprocess.c:357-367 | `$(1)`, `$(2)`, and so on give the arguments |
| `Preprocess.SelfReferenceIsError` | scripts/config/preprocess.c:260-262 | a variable mentioned without arguments during its own expansion is an error |
| `Preprocess.CyclicVariablesAreErrors` | scripts/config/preprocess.c:251-277 | a recursive variable that refers to itself, directly or through any number of others, is an error from the first expansion on |
| `Preprocess.Expander.ExpandFrom` | scripts/config/preprocess.c:495-537 | the scan with moving positions gives the specified expansion and end, and leaves every `exp_count` as it was unless it fails |
| `Preprocess.Expander.ScanClose` | scripts/config/preprocess.c:465-477 | the scan finds the matching parenthesis or the end |
| `Preprocess.Expander.ExpandDollarAt` | scripts/config/preprocess.c:453-488 | the same for what follows a dollar sign |
| `Preprocess.Expander.EvalClauseOf` | scripts/config/preprocess.c:346-439 | the same for a clause: arguments, variables, built-in functions, environment |
| `Preprocess.Expander.SplitClause` | scripts/config/preprocess.c:369-396 | the splitting loop |
| `Preprocess.Expander.ExpandVariableOf` | scripts/config/preprocess.c:251-277 | the same for a variable |
| `Choice.VisibleUnderYes` | scripts/config/symbol.c:182-198 | under a choice at y a member is fully visible or not at all |
| `Choice.CalculationEstablishesRadio` | scripts/config/symbol.c:267-297 | after a calculation, from whatever state, the law - while the choice is y a symbol is selected and of the visible members exactly that one is y, the others n - holds if and only if the selected symbol was not asked for before the selection |
| `Choice.CalculatedValuesFit` | scripts/config/symbol.c:350-394 | no boolean is calculated to m, and nothing without modules |
| `Choice.OneVisibleMemberIsYes` | scripts/config/symbol.c:350-352 | while the law holds at most one visible member is y, and one is if and only if the selected symbol is a member |
| `Choice.OneVisibleMemberExactly` | scripts/config/symbol.c:241-297 | for a calculation that makes the choice y: afterwards exactly one visible member is y if and only if the user's member will be visible, or no default counts, or the first one that counts is a member, and in each case the selected one was not asked for before the selection |
| `Choice.SelectedIsMember` | scripts/config/symbol.c:241-265 | that condition holds if all defaults of the choice are members |
| `Choice.SelectionOrder` | scripts/config/symbol.c:241-297 | selected is the user's member if it is visible, else the target of the first default whose condition and target are visible, else the first visible member, else nothing |
| `Choice.OutsideDefault` | scripts/config/symbol.c:249-256 | a concrete choice at y whose visible member is n, because a default is a symbol from outside |
| `Choice.RunIsRadioExactly` | scripts/config/symbol.c:299-508 | after every run of sets and calculations with changing inputs the law holds if and only if the last calculation selected a symbol that was not asked for before |
| `Choice.RunsKeepRadio` | scripts/config/symbol.c:299-508 | it holds throughout every such run in which no member is asked for before a selection |
| `Choice.StaysYes` | scripts/config/symbol.c:274-283 | a second calculation with the same inputs leaves the choice at y if and only if it is y without the user or all visible members were set |
| `Choice.DroppedChoice` | scripts/config/symbol.c:274-283 | a concrete optional choice that is y after one calculation and no longer after the next |
| `Choice.RunSelectsLastPick` | scripts/config/symbol.c:241-297 | after every run of sets and calculations, with changing inputs and sets of the choice included, a calculation to y selects the last member successfully set to y if that member is visible then, else the default |
| `Choice.AcceptedMemberIsSelected` | scripts/config/symbol.c:474-508 | over every such run in which no other member is set to y, a member whose set to y was accepted is the selected one whenever the choice is calculated to y, if and only if it is visible |
| `Choice.InvisiblePick` | scripts/config/symbol.c:474-508 | a concrete invisible member that is y by default, accepts y and is not selected |
| `Choice.AcceptedSetKeepsYes` | scripts/config/symbol.c:474-508 | after an accepted set of a member to y the choice stays y over every run of member sets and calculations with the same inputs |
| `CalcRun.Calculator.CalcExpr` | scripts/config/expr.c:1030-1102 | all symbols of the expression are calculated, and the result is its value under the values then remembered |
| `CalcRun.Calculator.CalcPrompts` | scripts/config/symbol.c:172-199 | the visibility of any symbol, with the rule for tristate members of a choice at y |
| `CalcRun.Calculator.CalcOwn` | scripts/config/symbol.c:205-233 | with it the direct, reverse and weak reverse dependencies |
| `CalcRun.Calculator.CalcDefault` | scripts/config/symbol.c:78-88 | the first default whose condition is not n, and its value; no later one is asked for |
| `CalcRun.Calculator.CalcOrdinary` | scripts/config/symbol.c:299-411 | a symbol that is neither a choice nor a member gets the value that its definition, the user's value and the symbols it reads give it |
| `CalcRun.Calculator.CalcMember` | scripts/config/symbol.c:299-411 | the same for a member, under the remembered value and selection of its choice |
| `CalcRun.Calculator.CalcMembers` | scripts/config/symbol.c:274-281 | every member has the visibility that its prompts give it under the choice at y, and the result tells whether the user has set all visible ones |
| `CalcRun.Calculator.ChoiceDefault` | scripts/config/symbol.c:241-265 | the first visible default whose condition holds, else the first visible member |
| `CalcRun.Calculator.CalcSelection` | scripts/config/symbol.c:267-297 | the symbol selected, the flag that the user has set the choice, and n if there is nothing to select; nothing else but members' visibilities has changed |
| `CalcRun.Calculator.CalcChoice` | scripts/config/symbol.c:299-411 | the choice symbol: its value from its own visibility and dependencies, and if that is y the selection |
| `CalcRun.Calculator.CalcValue` | scripts/config/symbol.c:299-440 | any symbol is valid afterwards; whatever was calculated has the value that its definition gives it, and what was valid before is untouched but for the visibility of members |
| `CalcRun.Calculator.CalcGroup` | scripts/config/symbol.c:267-411 | a choice and then its members: the group is as `Choice.Calculated` gives it, and the law holds if and only if the selected symbol was not asked for before; only members that the prompts of members and the default conditions lead to can be, those that a prompt mentions are, and so are those that the first default's condition mentions while the user has set no member; with none the law holds |
| `CalcRun.Calculator.CalcEverything` | scripts/config/symbol.c:299-440 | where no symbol depends on itself: after the calculation of all symbols in any order every one has the value that its definition gives it, and every group the law; every value is lawful as `CalcLaws.Lawful` says |
| `CalcRun.Calculator.SetTristate` | scripts/config/symbol.c:474-508 | accepted exactly if the value is current or in range; the flags and values of the symbol, of its choice and of all visible members that a set changes; everything is to be calculated again if the value changes |
| `CalcGroups.GroupRunIs` | scripts/config/symbol.c:267-411 | the cells after such a calculation are those of the radio group calculated with the members asked for too early, which were asked for only if the choice was y |
| `CalcGroups.MentionedAreAsked` | scripts/config/symbol.c:241-281 | members mentioned by prompts of members, or by the first default's condition, are calculated before the selection |
| `CalcGroups.RightGroup` | scripts/config/symbol.c:299-440 | a choice and members that have the values their definitions give them form a calculated group in which none was asked for early |
| `CalcSets.MemberSetIs` | scripts/config/symbol.c:474-508 | a set of a member is that of the radio group, and accepted by it |
| `CalcSets.ChoiceSetIs` | scripts/config/symbol.c:453-508 | the same for the choice symbol |
| `CalcSets.AcceptedValueIs` | scripts/config/symbol.c:453-472 | an ordinary symbol has a value accepted as within range after the next calculation with the same inputs if and only if it is not selected against its dependencies |
| `CalcOrder.ValuesAreUnique` | scripts/config/symbol.c:299-440 | two ways of calculating all symbols from the same settings end with the same cells, if no symbol depends on itself and defaults of choices name members |
| `CalcOrder.CalculatedIsWellFormed` | scripts/config/symbol.c:350-394 | the values calculated form a well-formed valuation, if the given ones do |
| `CalcLaws.RightIsLawful` | scripts/config/symbol.c:172-394 | after a calculation, for every symbol, choice and member, in terms of the expressions of its definition: its visibility is the greatest value of a prompt, and its dependencies are those evaluated, rounded up where it cannot be m; it is n if selected without its dependency, and otherwise the least value it can have from its own (the user's as far as visible, else the first default that counts or what is implied) and its reverse dependency on |
| `CalcLaws.SelectIsLowerBound` | scripts/config/symbol.c:211-216 | where the dependency is not n, the value is at least the reverse dependency, and y for a symbol that cannot be m if that is not n; where the dependency is n, a selected symbol is n |
| `CalcLaws.DependencyAtMod` | scripts/config/symbol.c:202-206 | for a symbol that cannot be m a dependency at m counts as y |
| `CalcLaws.ImplyIsDefault` | scripts/config/symbol.c:221-224 | an implied value is a lower bound where the user has no say, y for a symbol that cannot be m; nothing is implied where the dependency is n; what implies y rules m out |
| `CalcLaws.UserValueCounts` | scripts/config/symbol.c:353-361 | a visible tristate symbol set by the user has that value, as far as it is visible, or that of its reverse dependency if greater |
| `CalcLaws.NothingFromNothing` | scripts/config/symbol.c:350-394 | a symbol differs from n only if it is selected, set by the user, implied or defaulted |
| `CalcCases.AskedTooEarly` | scripts/config/symbol.c:276-280 | the first calculation of a choice with the members A, C and B, where B depends on A: A is selected and fully visible, and all members are n |
| `CalcCases.TrioIsReported` | scripts/config/symbol.c:1188-1223 | the dependencies of that group have a cycle, as the search defines it |
| `CalcChecked.CheckedIsOrdered` | scripts/config/symbol.c:1188-1257 | a search without errors, choices having no names, leaves an order in which every symbol's calculation asks only for symbols before it |
| `CalcChecked.FollowedIsRead` | scripts/config/symbol.c:1140-1186 | the search follows exactly what a calculation may read: dependencies and prompts, conditions of defaults, and values of defaults unless the symbol is a choice |
| `CalcChecked.CheckAndCalculate` | scripts/config/parser.y:513-517 | after a check that counts no error, and it counts some if and only if there is a cycle, the calculation of all symbols in any order gives each its value and each group the law; the check sees selects, implies and lists of choices besides |
| `CalcChecked.CheckedValuesAreUnique` | scripts/config/symbol.c:299-440 | and the values do not depend on the order |
| `Range.StringValid` | scripts/config/symbol.c:533-562 | the scan accepts exactly decimal numbers without superfluous zeros, hexadecimal numbers with or without prefix, and any string |
| `Range.PrintedValue` | scripts/config/symbol.c:145-148 | what a printed bound reads as |
| `Range.ActiveRangeIsFirst` | scripts/config/symbol.c:90-100 | the range that counts is the first one whose condition is not n |
| `Range.BoundReadsBack` | scripts/config/symbol.c:102-116 | a bound is read in the base of its own type, whatever the symbol that it bounds |
| `Range.NoNearerNumber` | scripts/config/symbol.c:138-149 | with the bounds in order, no number of the range is nearer to the value than the bound put in its place |
| `Range.ClampedIsWithin` | scripts/config/symbol.c:118-150 | the value left by validation is in the active range if and only if the bounds are in order and no negative hexadecimal bound was put in place |
| `Range.BoundsOutOfOrder` | scripts/config/symbol.c:137-149 | in the range from 9 to 3 the value 7 becomes 9, which becomes 3, which becomes 9, and no value is ever left within |
| `Range.NegativeHexBound` | scripts/config/symbol.c:145-148 | a hexadecimal value above a range that ends with -1 becomes a text that reads as the greatest number |
| `Range.ClampingTwice` | scripts/config/symbol.c:118-150 | validating an int twice is validating it once if and only if the bounds are in order |
| `Range.AcceptedIsKept` | scripts/config/symbol.c:137-144 | a value in range stays as it is, to the letter |
| `Range.StoredKeepsValue` | scripts/config/symbol.c:650-660 | storing with the added 0x keeps validity and value |
| `Range.StoredIsKept` | scripts/config/symbol.c:576-665 | a stored value is within range if the given one was |
| `Range.TextSymbol.ValidateRange` | scripts/config/symbol.c:118-150 | the value becomes the specified one |
| `Range.TextSymbol.CalcValue` | scripts/config/symbol.c:396-414 | the user's value if visible and set, else the default, validated |
| `Range.TextSymbol.SetString` | scripts/config/symbol.c:618-665 | stores exactly the accepted values |
| `Range.SetAndCalculate` | scripts/config/symbol.c:618-665 | an accepted value survives any number of recalculations with whatever defaults, text and number |
| `Interning.StrHash` | scripts/config/symbol.c:773-780 | the hash in 32-bit arithmetic |
| `Interning.OneSymbolPerName` | scripts/config/symbol.c:796-806 | within a class a name has at most one symbol |
| `Interning.SymbolTable.Walk` | scripts/config/symbol.c:798-805 | the walk along a chain finds what the plain map holds |
| `Interning.SymbolTable.Insert` | scripts/config/symbol.c:811-820 | a new symbol goes to the front of its own bucket; all others stay in theirs |
| `Interning.SymbolTable.Lookup` | scripts/config/symbol.c:782-821 | agrees with the plain map; built-in names give the built-in constants; a missing name always makes a symbol |
| `Interning.SymbolTable.Find` | scripts/config/symbol.c:823-848 | the newest symbol of that name that is not a constant |
| `Interning.LookupAll` | scripts/config/symbol.c:782-821 | over every sequence of lookups, two results are the same symbol if and only if name and class agree, or the name is built in |
| `ConfLine.UnescapedEscape` | scripts/config/symbol.c:850-891 | unescaping undoes escaping for every string, whatever follows |
| `ConfLine.EscapedLength` | scripts/config/symbol.c:857-870 | the size allocated is exactly the size needed |
| `ConfLine.Escape` | scripts/config/symbol.c:850-891 | the buffer, exactly full, holds the escaped string |
| `ConfLine.DropChar` | scripts/config/confdata.c:270 | the memmove drops one character of a text |
| `ConfLine.UnescapeInPlace` | scripts/config/confdata.c:264-276 | the loop over the buffer ends with the unescaped text in place, or fails exactly if there is no closing quote |
| `ConfLine.SetSymVal` | scripts/config/confdata.c:234-293 | what a text sets a symbol of each type to |
| `ConfLine.SettingHasType` | scripts/config/confdata.c:234-293 | whatever a text sets a symbol to is a value that the symbol can have |
| `ConfLine.LineRoundTrip` | scripts/config/confdata.c:594-614 | the line printed for a symbol reads back as its name and value; n is printed as "is not set" |
| `ConfLine.ReadsBackIffOneLine` | scripts/config/confdata.c:594-614 | a string symbol reads back from the first line printed if and only if its value has no line end |
| `ConfLine.WrittenReadsBack` | scripts/config/confdata.c:422-482 | reading back the lines written for any symbols sets exactly their values |
| `ConfLine.ValuesOfItems` | scripts/config/confdata.c:422-482 | with different names every symbol has its own value afterwards, and no other one has changed |
| `ConfLine.ReadLine` | scripts/config/confdata.c:425-482 | the surgery on the line buffer gives what the line says |
| `ConfLine.ReadConfig` | scripts/config/confdata.c:422-482 | the loop over the lines of a file |
| `Words.Choose` | scripts/mkhash.c:450 | z ^ (x & (y ^ z)) is the choice function of both standards |
| `Words.Majority` | scripts/mkhash.c:451 | the form with two Ands and two Ors is the majority function of FIPS 180-4 |
| `WordBits.OperationsByBit` | scripts/mkhash.c:450-487 | the operations on words, bit by bit |
| `BlockHash.FoldAppend` | scripts/mkhash.c:622-658 | folding a block function over a concatenation is folding over its parts |
| `Sha256.FastForms` | scripts/mkhash.c:450-451 | the optimised functions are those of the standard |
| `HashBits.SigmaBits` | scripts/mkhash.c:452-487 | bit by bit, the four functions with rotations and shifts of section 4.1.2 of FIPS 180-4 |
| `HashBits.ChoiceAndMajorityBits` | scripts/mkhash.c:450-451 | bit by bit, the choice and the majority of three words |
| `HashConstants.RoundConstants` | scripts/mkhash.c:462-479 | section 4.2.2 of FIPS 180-4: the constants are the first 32 bits of the fractional parts of the cube roots of the first 64 primes, which are listed and proved to be that |
| `HashConstants.InitialWords` | scripts/mkhash.c:603-618 | section 5.3.3 of FIPS 180-4: the same for the square roots of the first eight |
| `Sha256.RotatingRound` | scripts/mkhash.c:490-502 | a round on state words that stay in place, with indices `(64-i)%8` to `(71-i)%8`, is a round of the standard |
| `Sha256.NextSixteen` | scripts/mkhash.c:504-505 | the next sixteen words of the message schedule |
| `Sha256.Mix` | scripts/mkhash.c:509-551 | rounds and schedule, interleaved every sixteen rounds, are the 64 rounds of the standard |
| `Sha256.Transform` | scripts/mkhash.c:459-563 | for every state and block, the compression of section 6.2.2 of FIPS 180-4 |
| `Sha256.EncodeCount` | scripts/mkhash.c:110-117 | the two words written for the length are its eight bytes, most significant first |
| `Sha256.Context.Update` | scripts/mkhash.c:622-658 | the state absorbs the whole blocks, the buffer holds the rest, the count is that of the bits |
| `Sha256.Context.Pad` | scripts/mkhash.c:574-599 | the state is the fold over the message padded as in section 5.1.1 of FIPS 180-4 |
| `Sha256.Context.Final` | scripts/mkhash.c:665-675 | the digest of everything hashed, leaving a cleared context |
| `Sha256.HashChunks` | scripts/mkhash.c:622-675 | for every way of cutting a message into pieces, the digest is the hash of the message |
| `Md5.FastForms` | scripts/mkhash.c:151-155 | the optimised F, G and the two forms of H are those of RFC 1321 |
| `HashBits.MixerBits` | scripts/mkhash.c:151-155 | bit by bit, the four functions of section 3.4 of RFC 1321 |
| `HashBits.RotlBit` | scripts/mkhash.c:160-163 | the rotation moves bit i to bit i+s |
| `HashBits.WordOfIsLittleEndian` | scripts/mkhash.c:165-186 | the words of a block have their lowest byte first |
| `HashBits.Md5StartsWithBytes` | scripts/mkhash.c:299-308 | the four words at the start are the bytes of section 3.3 of RFC 1321 |
| `Md5.FourSteps` | scripts/mkhash.c:160-163 | four steps in which the words change roles are four steps of the standard |
| `Md5.Transform` | scripts/mkhash.c:189-297 | the 64 steps as written, with their word indices, constants and rotations, are section 3.4 of RFC 1321 |
| `Md5.CountersAdd` | scripts/mkhash.c:316-319 | the masked carry test makes the two counters add modulo 2^61 |
| `Md5.LengthBytes` | scripts/mkhash.c:368-376 | the eight bytes written are the low 64 bits of the length in bits |
| `Md5.Context.Body` | scripts/mkhash.c:189-297 | one or more blocks at a time |
| `Md5.Context.Update` | scripts/mkhash.c:310-343 | counters, state and buffer after any piece |
| `Md5.Context.Pad` | scripts/mkhash.c:350-378 | the state is the fold over the message padded as in sections 3.1 and 3.2 of RFC 1321 |
| `Md5.Context.Final` | scripts/mkhash.c:345-396 | the digest of everything hashed, leaving a cleared context |
| `Md5.HashChunks` | scripts/mkhash.c:299-396 | for every way of cutting a message into pieces, the digest is the hash of the message |
| `Crc32.ShiftsAreLinear` | tools/firmware-utils/src/add_header.c:51-52 | shifting the register is linear over exclusive or |
| `Crc32.TableStepIsSerial` | tools/firmware-utils/src/add_header.c:61-62 | one look into the table is eight bits of the definition |
| `Crc32.InitTable` | tools/firmware-utils/src/add_header.c:43-55 | the nested loops fill the table with eight shifts of each byte |
| `Crc32.CrcOf` | tools/firmware-utils/src/add_header.c:57-64 | for every buffer the CRC of the definition |
| `Crc32.SerialAppend` | tools/firmware-utils/src/asustrx.c:226-232 | the register after a concatenation is the register continued |
| `CrcTable.XorOfDigits` | scripts/cfe-partition-tag.py:95-100 | exclusive or of two words is that of their hexadecimal digits |
| `CrcTable.TableIsRight` | scripts/cfe-partition-tag.py:25-90 | the 256 numbers written out are the table that `init_crc32` computes |
| `CrcTable.Continue` | scripts/cfe-partition-tag.py:95-100 | from any register, the register of the definition after the first bytes |
| `CrcTable.OverChunks` | tools/firmware-utils/src/asustrx.c:225-232 | read chunk by chunk, the register of the whole, and its length with that of the header before it |

## Left out

- ExprDups.EliminateDups: keeps the value only without tests of tristate symbols against constants that read as 0, 1 or 2; the rule that fails there has its exact condition in `ExprDups.TestJoinIsExact`.
- ExprDups.EliminateDups1: nodes of the expression tree are values, and a pointer to a node is the path to it from the root, so that sharing between trees is not modelled; `trans_count` is the number a pass returns.
- Menu.FinalizeTree: does not model how choices and members without a type get theirs: a node has the type known when its parent is finalised, a symbol the final one, which is also that of the symbol inside expressions. Nor the collecting of `dir_dep`, `rev_dep` and `implied` expressions, the list of members in the choice property, and warnings.
- Menu.BelongsToSubmenu: which items are taken is exact for conditions in normal form of which no two operands can be joined (`ExprSame.NothingToJoin`); for others only that items depending on the symbol outright are taken, and that taken items are visible only together with the symbol or its prompt. Finalisation leaves such conditions of booleans (`ExprSame.SettledBooleans`), but the tree does not carry that along.
- Menu.ExplicitTest: exact where no negated operand is m, because `expr_trans_compare` is not exact elsewhere.
- DepCheck.CheckAll: a cycle through the name of a choice, as when a member depends on a symbol that depends on the choice, is reported or not depending on the symbol with which the search meets it, and nothing is stated about it; the printing of a cycle is left out.
- CalcRun.Calculator.CalcValue: numbers, strings and MODULES are inputs that do not change, and every prompt of a member mentions its choice, as finalisation leaves it. The write and change flags and the flag that fixes choice values for random configurations are not modelled. Nothing is stated about symbols that depend on themselves otherwise than through a choice and its members.
- CalcRun.Calculator.CalcGroup: the calculation starts with the choice. If it starts with a member that a prompt of another member mentions, that prompt reads the value from before the calculation, and nothing is stated about it.
- CalcOrder.ValuesAreUnique: a default of a choice that names no member is left out, because `sym_choice_default` reads the visibility of its symbol without calculating it.
- Range.TextSymbol.CalcValue: the text of the default and the bounds are inputs.
- ConfLine.ReadConfig: text without NUL characters; the prefix is `CONFIG_`, not one from the environment; a line too short for a comparison counts as different. Effects on the choice of a member, conversion of values from older files and warnings are not modelled.
- Interning.LookupAll: a symbol is a number, and a chain is the sequence of its symbols.
- Preprocess.Expander.EvalClauseOf: built-in functions and the environment are arbitrary functions, the list of variables is fixed, and more than sixteen parts of a clause are an error; the code's check lets one more part through.
- Sha256.HashChunks: the length in bits is taken modulo 2^64, as the program does; the standard ends there.
- Md5.HashChunks: a single piece is shorter than 2^64 bytes, which is what its size type can say.
- Expressions of the types for lists, ranges and nothing, which occur only inside properties.
- `savedefconfig`, whose own comment names a case it does not handle.
- The front ends, the generated lexer and parser, file handling, memory allocation, help texts and random configurations: no logic of their own, or generated.
