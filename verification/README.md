# The Kconfig engine and the file hashes, modelled and verified in Dafny

This project models two parts of the build system's `scripts` directory and proves what they are for.

**Kconfig** (`scripts/config`). A configuration is a set of symbols worth n, m or y. Their definitions carry
conditions over other symbols, in a logic where `&&` is the minimum, `||` the maximum and `!` is `2 - x`
(`Tristate.dfy`, `Expressions.dfy`). The modules follow the engine from the inside out:

| file | what it models |
|---|---|
| `Expressions.dfy` | expression trees, environments, values; comparisons as the code makes them, numbers inside strings included |
| `ExprEq.dfy` | constant elimination, elimination of common operands, `expr_eq` |
| `ExprEqOrder.dfy` | which expressions `expr_eq` calls equal |
| `ExprTransform.dfy` | `expr_transform` (negation normal form) and `expr_trans_bool` |
| `ExprLevels.dfy`, `ExprDups.dfy` | the joins and the all-pairs walk of `expr_eliminate_dups`; a slot of the tree is a path, so that the walk may hold the same slot twice as the C code does with `&e, &e` |
| `ExprPrint.dfy` | `expr_print`, and a shift-reduce parser for the expression grammar |
| `Symbols.dfy` | symbol definitions and the equation each symbol's value has to satisfy |
| `SymbolMeaning.dfy` | what those equations come to, in terms of the properties of a symbol |
| `UserValues.dfy` | which values the user may set, and what setting one changes |
| `Evaluator.dfy` | `sym_calc_value` with its validity cache, as a class whose methods update the cached fields |
| `CheckDeps.dfy` | the grey/black search for recursive dependencies, choices included, as functions over the marks and as a class that equals them |
| `Checked.dfy` | what the check is for: one solution, found in any order of evaluation |
| `Choices.dfy` | how a choice block that is y picks its member, and what its members are evaluated to |
| `ChoiceMode.dfy` | the value of a choice itself: evaluating it twice, and writing it to a minimal configuration and reading it back |
| `ChoiceMeaning.dfy` | what a choice and its members are worth, and which lines they get, in terms of their properties |
| `Defconfig.dfy` | the writer of minimal configurations, and what is lost by writing one |
| `SavedConfig.dfy` | the writer of whole configurations, and what loading one again gives |
| `MenuDeps.dfy` | what `menu_finalize` does to expressions, and the test for automatic submenus |
| `Submenus.dfy` | exactly which entries go into an automatic submenu |
| `MenuForest.dfy`, `MenuFinalize.dfy` | `menu_finalize` by relinking `next`, `list` and `parent` in place |
| `MenuShape.dfy` | which tree must come out of it: submenus and flattening on values |
| `MenuChoices.dfy` | which symbols become choice values, and the condition they get on top |
| `MenuReverse.dfy` | what the selects and implies come to that are collected at a symbol |
| `MenuMeaning.dfy` | what the finalised conditions mean, and when a symbol has no value without its dependencies |
| `MenuWalk.dfy` | the stackless walk of the configuration writers |
| `MenuSymbols.dfy` | the table of symbols that finalising the tree leaves, and what its solutions are worth |
| `ConfLines.dfy` | the lines of a `.config` file: escaping, in-place unescaping, writing and reading |
| `Preprocess.dfy` | the macro language: references, arguments, variables and their expansion counters |

**Hashes** (`scripts/mkhash.c`). `HashBlocks.dfy` has what MD5 and SHA-256 share: a message cut into blocks, its
padding, bytes of numbers. `Sha256.dfy` and `Md5.dfy` each give the definition of the standard (FIPS 180-4,
RFC 1321), the rounds as the C code writes them, and a class for the context with its buffer and counter.
`Sha256Vector.dfy` and `Md5Vector.dfy` tie the two definitions to the standards from outside: the digest of "abc", with
the words of every round computed in steps, and the round constants of SHA-256 as roots.

## How the claims are put

An environment gives bool symbols the values n and y only and tristate symbols n, m and y; the value of the modules
symbol is a parameter. Where the code meets its purpose only under a condition, the condition is stated exactly, with
an if-and-only-if and an example that shows the exception to be real; the one item for which only the two one-way
conditions are proved says so:

* `(a = b) && (a != c)` is joined to `a = b`. That loses the second test when both constants spell a value of a
  tristate, as `"n"` and `"0"` do, because a numeric constant is compared numerically (`ExprDups.JoinExact`).
* `expr_eq` looks at more than its comment says: of two levels without constants it counts the operands, so that
  `A && A && B` and `A && B && B` differ although each operand of one equals one of the other (`ExprEqOrder.EqExactly`,
  `EqCountsRepetitions`). With constants among the operands it is not even transitive (`EqNotTransitive`).
* The default that the writer of minimal configurations compares with is what a symbol is worth without a user value, if
  and only if the symbol is not selected with unmet dependencies (`Defconfig.DefaultIsUnset`).
* A minimal configuration loses a user value exactly when a symbol is visible and selected as m, its direct dependencies
  are met, its default is y, no symbol that is y implies it, and the user has set it, to whatever value; never when
  modules are off (`Defconfig.DefconfigExact`, `LostExample`).
* A choice that is y comes back from a minimal configuration with the values of all its members if and only if there is a
  line for its pick, or the choice would pick the same and be y without the user (`ChoiceMode.ChoiceDefconfigExact`). A
  tristate choice with a bool member as its default pick comes back as m when modules are on (`ChoiceLostExample`).
* Evaluating a choice takes its user value away when a visible member has none. So evaluating it twice gives the same value
  exactly if that has not happened, or the choice is y without the user (`ChoiceMode.EvaluateTwice`, `LosesUserExample`).
* A saved configuration is loaded as it was unless some tristate is y by default while it can be seen as m only: loaded
  as a user value its y is cut down to m (`SavedConfig.SavedExact`, `SinksExample`).
* Setting a symbol to the value it already has is accepted without clearing the cache. The cache is stale afterwards
  exactly if the symbol is visible as m only and is y for another reason than being selected or implied as y
  (`UserValues.SetCurrentValue`; the definition of `SavedConfig.SinksExample` is such a symbol).
* The dependency check finds exactly the cycles if choices are referred to by their members only
  (`CheckDeps.CheckDecidesChoices`). Otherwise only one direction of each half holds: what passes can be ordered with
  choices below their members (`NoErrorsMeansAcyclic`), and what can be ordered with choices and members as groups passes
  (`AcyclicGroupsPass`). In between, some cycles through choices are found or missed depending on the order of the symbols
  (`CycleThroughChoiceDependsOnOrder`), and some are missed in every order (`CrossedChoicesPass`). All this is about the
  check with `--fatalrecursive`: without it cycles are reported, but none makes the check fail (`NothingRefused`).
* While a choice stays y, exactly one visible member is y if and only if what takes effect first, the user's pick or else
  a default, is a member or there is no such thing (`Choices.ExactlyOneIff`, `StrayExample`). Of all members, hidden ones
  included, exactly one is y if and only if, besides, no hidden member has a default that makes it y (`ExactlyOneOfAll`,
  `HiddenExample`).
* A value that was accepted is read back if and only if the symbol is not selected with unmet dependencies
  (`UserValues.SetThenRead`, `SetThenReadExample`).
* After the menu finalisation a symbol whose direct dependencies are n has no value, whatever the user sets it to, if and
  only if it is selected (which forces it to n) or nothing speaks up at its *loose* definition sites, those that do not
  count towards its dependencies: no prompt there can be seen, and the first default there that can, if any, is n
  (`MenuMeaning.NoValueExactly`). Loose are the sites without a condition of their own or around them
  (`LooseAsWritten`); `SiteWithoutCondition` is an input where it fails. For a symbol without loose sites, or with no
  others, every value that is accepted is read back (`MenuSymbols.SetThenReadFinal`).
* `expr_trans_compare` tests its own reading of an expression, in which ! negates whether something is set
  (`MenuDeps.TransCompareReading`, for every expression). That is whether the expression differs from n if nothing negated
  is m (`TransCompareValue`), for a negated symbol only then (`TransCompareNegation`), and in negation normal form it errs
  to one side only (`NormalReading`). So an entry of an automatic submenu that is read as set needs the symbol in front of
  it to be set or visible (`SubmenuEntriesNeedTheSymbol`); one that can be seen without being read as set does not
  (`SubmenuExample`). Which entries belong to a submenu is known exactly for conditions that test no bool for m, which
  the code warns about (`Submenus.SubmenuExactly`).

Proofs about machine words keep bit-level facts in lemmas of their own and `hide` the word functions elsewhere.

## Model

| member | source | states |
|---|---|---|
| Expressions.CalcFrame | scripts/config/expr.c:1030-1102 | the value of an expression depends on the symbols it reads only |
| Expressions.BuiltinCompare | scripts/config/expr.c:998-1028 | a bool or tristate symbol compares equal to y, m or n exactly when it has that value, although the code compares strings |
| Expressions.DecimalParsed | scripts/config/expr.c:1013-1028 | the decimal digits of a number, with a minus sign for a negative one, are read as that number |
| Expressions.HexParsed | scripts/config/expr.c:1017-1028 | so are hexadecimal digits behind 0x |
| Expressions.OctalParsed | scripts/config/expr.c:1021-1028 | where the base is not given, a leading zero makes a number octal |
| Expressions.SpaceAndSign | scripts/config/expr.c:1013-1028 | space in front of a number and a plus sign do not matter |
| Expressions.BeyondRange | scripts/config/expr.c:1013-1028 | a number beyond 64 bits is taken for a text |
| Expressions.NoNumber | scripts/config/expr.c:1026-1027 | so is what does not end in a digit |
| Expressions.IntegerCompare | scripts/config/expr.c:1068-1097 | int symbols that spell 64-bit numbers satisfy each of the six relations exactly if the numbers do |
| Expressions.HexCompare | scripts/config/expr.c:1078-1097 | hexadecimal symbols likewise, as unsigned numbers |
| Expressions.MixedCompare | scripts/config/expr.c:1078-1083 | a hexadecimal symbol and a signed number are compared as unsigned numbers of 64 bits |
| Expressions.TextCompare | scripts/config/expr.c:1073-1097 | everything else is equal exactly if the characters are |
| Expressions.StrCmpMeaning | scripts/config/expr.c:1078-1079 | and is ordered by the first character that differs; a string that ends there comes first |
| ExprEq.ElimYNReduces | scripts/config/expr.c:316-397 | constant elimination leaves no constant operand, strictly shrinks any tree with a unit operand and leaves other trees alone |
| ExprEq.ElimYNValue | scripts/config/expr.c:316-397 | constant elimination keeps the value in every environment |
| ExprEq.EqSound | scripts/config/expr.c:252-303 | expressions that `expr_eq` calls equal have equal values in every environment |
| ExprEq.EqReflexive | scripts/config/expr.c:252-303 | `expr_eq` calls every expression equal to itself, whatever constants and repetitions it holds |
| ExprEq.ElimEqReflectsOrder | scripts/config/expr.c:150-250 | removing common operands from two expressions reflects the order of their values |
| ExprEq.ElimEqSuperset | scripts/config/expr.c:221-250 | if the second argument is reduced to y, the first was at most the second in every environment: the superset test of the submenus |
| ExprEqOrder.EqExactly | scripts/config/expr.c:252-303 | two levels without constants are equal if and only if every operand occurs as often in one as in the other, up to equality: order and grouping do not matter |
| ExprEqOrder.EqEquivalence | scripts/config/expr.c:252-303 | without constants `expr_eq` is reflexive, symmetric and transitive |
| ExprEqOrder.EqReordered | scripts/config/expr.c:246-303 | operands may change places and be grouped in another way |
| ExprEqOrder.EqReplaced | scripts/config/expr.c:246-303 | equals may be put for equals |
| ExprEqOrder.SupersetExactly | scripts/config/expr.c:221-250 | eliminating common operands leaves y of the second expression if and only if the first is a conjunction that has all conjuncts of the second, each as often |
| ExprEqOrder.EqNotTransitive | scripts/config/expr.c:252-303 | with constants among the operands `expr_eq` is not transitive: an example for any two symbols |
| ExprEqOrder.EqCountsRepetitions | scripts/config/expr.c:246-303 | repeated operands are counted, contrary to the comment above `expr_eq` |
| ExprTransform.DeMorganLowers | scripts/config/expr.c:794-812 | De Morgan adds a node but lowers the termination measure |
| ExprTransform.TransformCorrect | scripts/config/expr.c:694-849 | `expr_transform` keeps the value everywhere, returns negation normal form, and is idempotent |
| ExprTransform.TransBoolVisible | scripts/config/expr.c:402-426 | on normal forms `expr_trans_bool` never raises a value and keeps whether it is n |
| ExprTransform.TransBoolNeedsNormal | scripts/config/expr.c:402-426 | without the normal form it does change that: an example |
| ExprTransform.TransBoolExact | scripts/config/expr.c:402-426 | `expr_trans_bool` leaves no test of a tristate for being different from n, changes nothing else, and keeps every value that involves no m |
| ExprLevels.PutPairValue | scripts/config/expr.c:626-645 | storing a joined leaf in one slot of a level and its unit in another keeps the value of the whole level |
| ExprDups.JoinOrValue | scripts/config/expr.c:431-493 | every join of operands of a disjunction has the value of the disjunction |
| ExprDups.JoinAndValue | scripts/config/expr.c:495-587 | every join of operands of a conjunction has the value of the conjunction, clashing tests aside |
| ExprDups.JoinExact | scripts/config/expr.c:431-587 | a join keeps the value in every environment if and only if its operands are not a pair of clashing tests |
| ExprDups.ClashLosesTest | scripts/config/expr.c:540-553 | at a value that both constants spell, the join has lost the second test |
| ExprDups.JoinClashExample | scripts/config/expr.c:540-553 | A="n" && A!="0" is such a pair |
| ExprDups.WalkCount | scripts/config/expr.c:596-651 | a walk that counts nothing changes nothing; one that counts leaves a unit operand for the constant elimination to remove |
| ExprDups.WalkValue | scripts/config/expr.c:596-651 | the all-pairs walk keeps the value, with both arguments free to be the same slot |
| ExprDups.WalkZero | scripts/config/expr.c:596-651 | a walk that counts nothing has compared every pair of leaves and found none to join |
| ExprDups.JoinedExactly | scripts/config/expr.c:431-587 | operands are joined if and only if they are equal or overlap as one of the rules for their operator says, in either order |
| ExprDups.DupsTwice | scripts/config/expr.c:664-686 | a condition that is stated twice is stated once afterwards |
| ExprDups.EliminateDups | scripts/config/expr.c:664-686 | the loop ends; afterwards no level has two operands that are equal or overlap under any of the rules, and the value is the same everywhere |
| ExprDups.DupsCorrect | scripts/config/expr.c:664-686 | the same about the function the loop computes, and that it is idempotent |
| ExprPrint.ActionLowers | scripts/config/parser.tab.c:1893-1957 | every action of the parser is a step towards its end |
| ExprPrint.Parse | scripts/config/parser.tab.c:1893-1957 | the parser loop with its stack computes the run of shift and reduce actions |
| ExprPrint.ReassociateValue | scripts/config/parser.tab.c:1947-1957 | associating rows of the same operator to the left keeps the value |
| ExprPrint.RunOp | scripts/config/expr.c:1194-1203 | printed rows of && and or, with only the parentheses that `expr_compare_type` asks for, are parsed as such rows in any context |
| ExprPrint.PrintParse | scripts/config/expr.c:1138-1228 | parsing what was printed gives the tree up to re-association, with the same value everywhere |
| ExprPrint.PrintParseOpt | scripts/config/expr.c:1138-1145 | the same for a condition that may be missing: it prints as y |
| ExprPrint.PrintReassociate | scripts/config/expr.c:1138-1228 | the tree that comes back prints as the same tokens |
| ExprPrint.PrintParts | scripts/config/expr.c:1104-1228 | exactly the operands of && that are or, and the operators behind !, are printed in parentheses |
| ExprPrint.OrThenAnd | scripts/config/parser.tab.c:1893-1957 | && binds tighter than or |
| ExprPrint.AndThenOr | scripts/config/parser.tab.c:1893-1957 | whichever comes first |
| ExprPrint.OrInParentheses | scripts/config/parser.tab.c:1893-1957 | unless there are parentheses |
| ExprPrint.NotThenOperator | scripts/config/parser.tab.c:1893-1957 | ! binds tighter than both |
| ExprPrint.NotThenComparison | scripts/config/parser.tab.c:1893-1957 | and comparisons tighter than ! |
| ExprPrint.LeftToRight | scripts/config/parser.tab.c:1947-1957 | rows of one operator associate to the left |
| ExprPrint.ParseKeepsTokens | scripts/config/parser.tab.c:1893-1957 | for any input that is accepted, the tree holds exactly its tokens in order, without the parentheses |
| ExprPrint.ParseBalanced | scripts/config/parser.tab.c:1893-1957 | and its parentheses are balanced |
| Symbols.EquationFrame | scripts/config/symbol.c:172-233 | assignments that agree on what a symbol depends on give its equation the same value |
| Symbols.UniqueSolution | scripts/config/symbol.c:299-440 | on acyclic definitions every choice of user values determines exactly one assignment |
| SymbolMeaning.ValueMeaning | scripts/config/symbol.c:172-389 | what a bool or tristate symbol is worth, from its properties alone: its visibility is the best of its prompts; its value comes from the user, or else from the first default that counts and from what implies it, and is then selected, forced to n or made y |
| SymbolMeaning.DefaultValue | scripts/config/symbol.c:354-389 | with nothing else that counts it is worth its first default whose condition is not n, cut down to that condition, and n without one |
| SymbolMeaning.ActiveIsFirst | scripts/config/symbol.c:78-88 | the default that is found is the first whose condition holds |
| SymbolMeaning.WriteMeaning | scripts/config/symbol.c:337-375 | exactly the symbols that can be seen, are selected or implied, or have a default that counts are marked for writing; every other one is n |
| UserValues.OnlyDependentsChange | scripts/config/symbol.c:474-508 | a new user value changes nothing that does not depend on the symbol, directly or not |
| UserValues.SetThenRead | scripts/config/symbol.c:453-508 | a value within range that is set is the value read back if and only if the symbol is not selected with unmet dependencies; the symbols that do not depend on it keep theirs |
| UserValues.RangeExact | scripts/config/symbol.c:453-472 | a value is within range if and only if the symbol takes it when set to it, among the values up to its visibility, provided it can be seen as more than it is selected as |
| UserValues.SetThenReadExample | scripts/config/symbol.c:453-508 | a symbol that can be set to y and is n |
| UserValues.SetCurrentValue | scripts/config/symbol.c:474-508 | when the cache fits after setting the current value: if and only if |
| UserValues.NoValueWithoutDependencies | scripts/config/symbol.c:354-386 | a symbol whose prompts and defaults are guarded by its direct dependencies is n while these are n, whatever selects, implies or sets it, and no value is within range |
| UserValues.ValuesWithoutDependencies | scripts/config/symbol.c:354-386 | while the direct dependencies of a symbol are n, no user value gives it a value if and only if it is selected, or it can neither be seen nor has a default that is not n |
| UserValues.SetThenReadGuarded | scripts/config/symbol.c:453-508 | for such a symbol every accepted value is read back |
| Evaluator.Config.constructor | scripts/config/symbol.c:442-451 | a new cache with nothing valid |
| Evaluator.Config.CalcValue | scripts/config/symbol.c:299-440 | evaluation ends on every table, cyclic or not, and on acyclic tables every valid symbol holds what its equation says; `SymbolMeaning.ValueMeaning` says what that is |
| Evaluator.Config.CalcVisibility | scripts/config/symbol.c:172-233 | visibility, direct, reverse and implied dependencies get the values of the equation |
| Evaluator.Config.GetDefault | scripts/config/symbol.c:78-88 | the first default whose condition holds |
| Evaluator.Config.CalcExpr | scripts/config/expr.c:1030-1102 | evaluation of an expression on demand gives its value in the solution |
| Evaluator.Config.Read | scripts/config/symbol.c:299-440 | a value that is asked for is that of the solution, and the cache stays coherent |
| Evaluator.Config.ClearAllValid | scripts/config/symbol.c:442-451 | nothing is valid any more |
| Evaluator.Config.SetTristate | scripts/config/symbol.c:474-508 | what is accepted, what it stores, and that a changed value invalidates the cache |
| Evaluator.Config.SetThenReadBack | scripts/config/symbol.c:474-508 | setting through the cache and reading again |
| CheckDeps.NoErrorsMeansAcyclic | scripts/config/symbol.c:1105-1257 | if the check reports nothing for any symbol, the dependencies can be ordered, with a choice below its members and the members side by side |
| CheckDeps.AcyclicGroupsPass | scripts/config/symbol.c:1105-1257 | if choices with their members can be ordered as groups, the check reports nothing |
| CheckDeps.CheckDecides | scripts/config/symbol.c:1105-1257 | without choices it reports nothing if and only if there is no cycle |
| CheckDeps.CheckDecidesChoices | scripts/config/symbol.c:1188-1223 | with choices that only their members refer to, likewise for cycles through choices |
| CheckDeps.CycleThroughChoiceDependsOnOrder | scripts/config/symbol.c:1188-1257 | a cycle through a choice that another symbol refers to is missed or found depending on the order of the symbols |
| CheckDeps.CrossedChoicesPass | scripts/config/symbol.c:1188-1257 | two choices with a member each, where each member depends on the other choice: a cycle that goes unreported in every order of the four symbols |
| CheckDeps.NothingRefused | scripts/config/symbol.c:1225-1257 | unless recursive dependencies are fatal, no table is refused, whatever cycles it has: the symbol that closes a cycle swallows the error |
| CheckDeps.Checker.constructor | scripts/config/symbol.c:1225-1257 | no symbol is marked |
| CheckDeps.Checker.CheckDeps | scripts/config/symbol.c:1225-1257 | the method that sets the CHECK and CHECKED flags in place computes the result and the marks of the search |
| CheckDeps.Checker.CheckSymDeps | scripts/config/symbol.c:1140-1186 | the same for the properties of a symbol |
| CheckDeps.Checker.CheckChoiceDeps | scripts/config/symbol.c:1188-1223 | the same for a choice with its members |
| CheckDeps.Checker.CheckTable | scripts/config/parser.tab.c:2268-2271 | the loop after parsing counts the errors; if there is none, the dependencies can be ordered |
| Checked.CheckedTableHasOneSolution | scripts/config/parser.tab.c:2267-2271 | a table that passes the check has exactly one solution |
| Checked.CheckAndEvaluate | scripts/config/parser.tab.c:2267-2271 | checking, then asking for values in any order with repetitions, gives the values of that solution |
| Choices.VisibleIsYes | scripts/config/symbol.c:184-204 | while a choice is y its members are visible as y or not at all |
| Choices.ExactlyOneIff | scripts/config/symbol.c:241-386 | while a choice stays y, the evaluation gives exactly one visible member y, whatever the user has set them to, if and only if no stray symbol takes effect first |
| Choices.PickIsMember | scripts/config/symbol.c:241-297 | a choice finds something to pick if a member is visible, and picks something that is not a member if and only if a stray symbol takes effect first |
| Choices.FirstDefaultStray | scripts/config/symbol.c:247-255 | which default counts: the first one whose condition holds and whose symbol is visible |
| ChoiceMeaning.VisibleMeaning | scripts/config/symbol.c:172-198 | a member is as visible as the best of its prompts, one of a tristate that is m not counting while the choice is y; what cannot be m is y instead |
| ChoiceMeaning.PickMeaning | scripts/config/symbol.c:241-297 | the user's pick if it is visible, or else the first default that can take effect, or else the first visible member: no earlier one qualifies |
| ChoiceMeaning.MemberMeaning | scripts/config/symbol.c:347-386 | what a member is worth in each case: picked or not, by its user value, by its first default that counts |
| ChoiceMeaning.OwnIsFirst | scripts/config/symbol.c:366-372 | that default is the first one whose condition holds, cut down to it |
| Choices.ExactlyOneMember | scripts/config/symbol.c:350-386 | in that case it is the member that the choice has picked |
| Choices.ExactlyOneOfAll | scripts/config/symbol.c:350-386 | exactly one of all members is then y if and only if no hidden member has a default that makes it y |
| Choices.HiddenExample | scripts/config/symbol.c:350-386 | a hidden member that is y beside the one picked |
| Choices.StrayExample | scripts/config/symbol.c:241-297 | a block whose default is not one of its members: none of them is y |
| Choices.StrayPick | scripts/config/symbol.c:241-297 | a visible pick that is not a member leaves no visible member y |
| Choices.ChoiceBelowYes | scripts/config/symbol.c:350-386 | while a choice is m its members are independent: each is what the user has set it to, cut down to m; while it is n they are hidden |
| Choices.ChoiceBlock.CalcVisibility | scripts/config/symbol.c:184-204 | the visibility of a member |
| Choices.ChoiceBlock.ChoiceDefault | scripts/config/symbol.c:241-265 | the first default that is visible, or else the first visible member |
| Choices.ChoiceBlock.CalcChoice | scripts/config/symbol.c:267-297 | the whole new state of a choice: visibilities, whether it counts as set, the member picked; it stays y if a member is visible, and holds a member if and only if no stray symbol takes effect first |
| Choices.ChoiceBlock.CalcMember | scripts/config/symbol.c:344-386 | the value of a member: the pick while it is visible as y, the user value while it is visible as m, its default otherwise |
| Choices.ChoiceBlock.MemberDefault | scripts/config/symbol.c:78-88 | the first default of a member whose condition holds, as far as the condition goes |
| Choices.ChoiceBlock.EvaluateAll | scripts/config/symbol.c:267-386 | evaluating a choice and then its members, in any order and repeatedly: while it stays y, exactly one visible member is y if and only if no stray symbol takes effect first, and then it is the one the choice holds |
| Choices.ChoiceBlock.PickMember | scripts/config/symbol.c:489-501 | the user picks a member: all visible members count as set |
| Choices.ChoiceBlock.PickThenRead | scripts/config/symbol.c:489-501 | a visible member that is picked is evaluated to y afterwards, every other visible member to n |
| ChoiceMode.ForcedMode | scripts/config/symbol.c:354-389 | when a choice is y without a user value |
| ChoiceMeaning.ModeMeaning | scripts/config/symbol.c:354-386 | the value of a choice is the better of what selects it and of its user value cut down to its visibility, unless it is forced to n or made y |
| ChoiceMode.Evaluate | scripts/config/symbol.c:267-412 | the value of a choice, and what evaluating it does to its members' visibilities and to its own user value |
| ChoiceMode.EvaluateTwice | scripts/config/symbol.c:267-412 | evaluating a choice again gives the same value if and only if the first evaluation has not taken away a user value that it needs |
| ChoiceMode.LosesUserExample | scripts/config/symbol.c:274-282 | a choice that is y and then m |
| ChoiceMode.GivenBack | scripts/config/confdata.c:491-508 | the lines of a choice that is y give it back the member picked, and the value y, exactly if that member has a line |
| ChoiceMode.ChoiceDefconfigExact | scripts/config/confdata.c:768-807 | reading the minimal configuration of a choice that is y gives it and all its members the same values if and only if its pick is remembered |
| ChoiceMode.ChoiceKept | scripts/config/confdata.c:787-804 | it is, for members without defaults, if the choice is optional or y without the user |
| ChoiceMode.ChoiceLostExample | scripts/config/confdata.c:787-804 | a tristate choice whose default pick is a bool member comes back as m |
| ChoiceMode.WriteGroup | scripts/config/confdata.c:768-807 | the loop of the writer, over the members of a choice |
| ChoiceMode.ReadGroup | scripts/config/confdata.c:491-508 | the loop of the reader, over lines of members |
| ChoiceMeaning.LinesOfChoice | scripts/config/confdata.c:787-804 | of the members of a choice that is y, without defaults of their own, only the pick gets a line, and not even that if it is a bool the choice would pick anyway and the choice is not optional |
| ChoiceMeaning.LineMeaning | scripts/config/confdata.c:775-806 | a line says what its member is worth, and never what its default says |
| ChoiceMeaning.WrittenLines | scripts/config/confdata.c:768-807 | there is a line for each member that needs one, and no other |
| ChoiceMeaning.ReadMeaning | scripts/config/confdata.c:491-509 | every member is set to its last line, the pick is the last member set to y, the choice is worth the greatest value; it counts as set unless an m came behind a y |
| Defconfig.DefconfigExact | scripts/config/confdata.c:754-825 | reading a minimal configuration back gives every symbol the same value if and only if no symbol is in the one losing situation |
| Defconfig.DefconfigWithoutModules | scripts/config/confdata.c:754-825 | with modules off nothing is lost |
| Defconfig.LostExample | scripts/config/symbol.c:674-742 | the losing situation is real, for any value the user has set |
| Defconfig.DefaultIsUnset | scripts/config/symbol.c:674-742 | the default of a symbol is what it is worth without a user value, if and only if it is not selected with unmet dependencies |
| Defconfig.KeptMeaning | scripts/config/confdata.c:775-785 | a value is kept exactly if it is not that default and can be changed |
| Defconfig.StringDefault | scripts/config/symbol.c:674-742 | the default that a value is compared with, through the cache: what the symbol is worth without a user value, unless it is selected with unmet dependencies |
| Defconfig.WriteDefconfig | scripts/config/confdata.c:754-825 | the walk over the menu nodes writes exactly the minimal user values, each symbol once however many nodes it has: one line, with its value, for each symbol with a node that differs from its default and can be changed, in the order of the nodes |
| SavedConfig.SavedExact | scripts/config/confdata.c:871-897 | loading a saved configuration gives every symbol the same value if and only if no tristate is y although it can be seen as m only and is not selected or implied as y |
| SavedConfig.UserValuesStay | scripts/config/confdata.c:871-897 | nothing changes if every visible symbol has a user value |
| SavedConfig.LineMeaning | scripts/config/symbol.c:337-375 | a symbol has a line if and only if it can be seen, is selected or implied, or has a default whose condition is not n; the line holds its value, and whatever is not n has one |
| SavedConfig.SinksExample | scripts/config/symbol.c:361-377 | the exception is real |
| SavedConfig.SaveConfig | scripts/config/confdata.c:871-915 | the walk writes one line, with its value, for every symbol with a node that can be seen, is selected or implied, or has a default that counts, in the order of the nodes, and no other line |
| MenuDeps.InheritValue | scripts/config/menu.c:359-363 | an inherited condition is worth the condition above together with the entry's own one, m in it being n without modules, and nothing in it is stated twice |
| MenuDeps.RewriteMValue | scripts/config/menu.c:77-104 | rewriting m makes it n without modules and changes nothing with them |
| MenuDeps.InheritPropExact | scripts/config/menu.c:399-405 | the condition of a property of a tristate, or of no symbol, is worth exactly both conditions; of any other symbol it is so wherever nothing is m, and tests no tristate for being different from n |
| MenuDeps.InheritPropVisible | scripts/config/menu.c:399-406 | a property is hidden exactly when its own condition or the one above is n, although `expr_trans_bool` rewrites it |
| MenuDeps.TransCompareValue | scripts/config/expr.c:922-982 | `expr_trans_compare` with n tells whether an expression is n, if nothing that is negated is m |
| MenuDeps.TransCompareNegation | scripts/config/expr.c:953-954 | for a negated symbol it does so if and only if the symbol is not m |
| MenuDeps.TransCompareReading | scripts/config/expr.c:922-982 | what the rewritten expression tests, for every expression and environment: each symbol is read as set or not, and ! as the negation of that reading |
| MenuDeps.NormalReading | scripts/config/expr.c:922-982 | if only symbols are negated, what is read as set is not n |
| MenuDeps.TidyPushed | scripts/config/menu.c:359-363 | the conditions that the finalisation leaves are of that kind |
| MenuDeps.SubmenuReading | scripts/config/menu.c:455-491 | an entry of a submenu is read as set only if the symbol is not n or the symbol's own prompt is read as set, for all clash-free conditions |
| MenuDeps.SubmenuEntries | scripts/config/menu.c:459-491 | only entries that mention the symbol belong to its submenu; all that ask for it as a conjunct do; and behind a prompt without a condition, all that mention it |
| Submenus.SubmenuExactly | scripts/config/menu.c:455-491 | an entry belongs to a submenu if and only if its condition mentions the symbol and, besides, has a conjunct that asks for it or has every conjunct of the condition of the symbol's prompt, both read as tests for n and with nothing stated twice |
| Submenus.FootingFree | scripts/config/menu.c:456-480 | for conditions that test no bool for m these readings hold no constants and state nothing twice |
| MenuDeps.ConjunctAsks | scripts/config/expr.c:879-906 | a condition depends on a symbol exactly if one of its conjuncts asks for it |
| MenuDeps.MentionedIn | scripts/config/expr.c:851-877 | and contains it exactly if its value may be read |
| MenuDeps.SubmenuEntriesNeedTheSymbol | scripts/config/menu.c:459-491 | an entry of a submenu that is read as set, or that can be seen with nothing negated worth m, cannot be seen while the symbol is n, or not while the symbol's own prompt is hidden |
| MenuDeps.SubmenuExample | scripts/config/menu.c:459-491 | an entry that can be seen without being read as set, while the symbol and its prompt are n |
| MenuForest.PreorderDistinct | scripts/config/menu.c:305-612 | the preorder of a tree without repetitions visits every node once |
| MenuForest.RepUnique | scripts/config/menu.c:305-612 | the pointers determine the tree they stand for |
| MenuForest.SegRelink | scripts/config/menu.c:497-501 | pointing the last entry of a list elsewhere moves the end of the list and nothing else |
| MenuChoices.JoinAllConsistent | scripts/config/menu.c:505-545 | however entries join choices, the list of a choice holds exactly its values, none twice, and every value was found at a node of its own symbol |
| MenuChoices.JoinAllListed | scripts/config/menu.c:505-545 | when the loop is over, every symbol in the list of a choice is a choice value |
| MenuChoices.JoinAllOrdered | scripts/config/menu.c:538-543 | a choice gets the symbols of its entries that are not choice values yet, in their order; other lists stay |
| MenuChoices.FilledFlattened | scripts/config/menu.c:505-584 | flattening leaves nothing but choice values in the lists of choices |
| MenuChoices.GatedValue | scripts/config/menu.c:528-537 | the condition that a choice value gets on top makes it n unless the choice is y, and changes nothing if it is |
| MenuChoices.GateExactly | scripts/config/menu.c:522-537 | exactly the values that are not tristate, of tristate choices, get it, at the node where they were found |
| MenuChoices.GateSites | scripts/config/menu.c:506-537 | only a value of the choice gets it, and at no more than one node |
| MenuFinalize.MenuTree.constructor | scripts/config/parser.tab.c:2252-2267 | the tree as it was parsed: nothing finalised, no symbol depending on anything |
| MenuFinalize.MenuTree.InheritChildren | scripts/config/menu.c:337-421 | all children inherit the condition of a menu or an if, or the choice itself, their properties too, and selects and implies are collected at their targets (`MenuReverse` says what they are worth) |
| MenuFinalize.MenuTree.SpliceParents | scripts/config/menu.c:574-580 | every child of a flattened entry gets the new parent |
| MenuFinalize.MenuTree.Splice | scripts/config/menu.c:574-583 | the children of a flattened entry become the entries behind it, in order |
| MenuFinalize.MenuTree.JoinEntry | scripts/config/menu.c:506-545 | an entry of a choice becomes a choice value unless it is one already |
| MenuFinalize.MenuTree.Flatten | scripts/config/menu.c:505-584 | the loop turns the entries into the flattened ones: the preorder is kept, no entry without a prompt keeps children, and all of them have joined the choice, in order |
| MenuFinalize.MenuTree.Require | scripts/config/menu.c:598-611 | a prompt of a symbol that is not optional selects it as m |
| MenuReverse.ReverseMeaning | scripts/config/menu.c:411-419 | the reverse dependencies of a symbol are worth the best, over all selects of it, of the selecting symbol and the condition of the select together, and of what its own prompts require; what implies it likewise; n if there are none |
| MenuReverse.CollectedWorth | scripts/config/menu.c:411-419 | the same about what has been collected at any time |
| MenuReverse.RequirementWorth | scripts/config/menu.c:598-611 | a prompt of a symbol that is not optional adds its condition, cut down to m |
| MenuShape.SubmenuIsLongest | scripts/config/menu.c:459-501 | a submenu is the one run of entries that all pass the test and that ends at the end of the list or at an entry that does not |
| MenuShape.EntryBelongs | scripts/config/menu.c:459-468 | the condition that counts is that of the prompt, or without one that of the entry: what belongs mentions the symbol, and what asks for it belongs |
| MenuShape.DrawsNext | scripts/config/menu.c:454-501 | an entry written as a block keeps its first child; any other one draws in the entry behind it exactly if it has a symbol and that entry belongs to it |
| MenuShape.FlattenedMeaning | scripts/config/menu.c:574-583 | flattening leaves exactly the entries of the list and of blocks without a prompt in it; those without a prompt lose their children, all others keep them |
| MenuShape.UnflattenedFrame | scripts/config/menu.c:459-491 | which entries are drawn depends on the conditions of the list and of what has been finalised only |
| MenuFinalize.MenuTree.BuildSubmenu | scripts/config/menu.c:454-501 | exactly that run is finalised and becomes the list of the symbol in front of it; nothing is lost |
| MenuFinalize.MenuTree.Finalize | scripts/config/menu.c:305-612 | one call finalises an entry, its children and what it draws into its submenu, each exactly once, fills the choices among them, and touches no other node |
| MenuFinalize.MenuTree.FinalizeRoot | scripts/config/parser.tab.c:2267 | the whole tree, choices included: the preorder is unchanged, each node is finalised exactly once, the tree has exactly the specified submenus and flattened entries, every parent pointer names the node whose list holds the entry, no entry without a prompt keeps children, every condition is inherited from the enclosing blocks as they were written, the list of a choice holds choice values only, and exactly the prompts of symbols that are not optional require their symbols |
| MenuMeaning.HandedMeaning | scripts/config/menu.c:337-363 | a finalised condition is worth the node's own condition and those of all blocks around it, up to the innermost choice, which counts with its value |
| MenuMeaning.PropertyMeaning | scripts/config/menu.c:383-406 | a property is hidden exactly when its own condition or that of a block around it is n; one of a tristate is worth exactly all of them together, one of another symbol tests no tristate for being different from n |
| MenuMeaning.ChoiceBounds | scripts/config/menu.c:337-343 | the mode of a choice bounds the visibility of everything in its block, ifs included; what is not tristate in a tristate choice is hidden unless the choice is y |
| MenuMeaning.DirectValue | scripts/config/menu.c:503 | the direct dependencies are met exactly when the condition of some site is, not counting sites without one |
| MenuMeaning.DirectMax | scripts/config/menu.c:503 | the direct dependencies are worth the best condition of a site |
| MenuMeaning.LooseAsWritten | scripts/config/menu.c:349-503 | which sites do not count, in terms of the conditions as they were written |
| MenuMeaning.NoValueExactly | scripts/config/menu.c:349-503 | while its direct dependencies are n, a finalised symbol has no value under any user value if and only if it is selected, or at its loose sites no prompt can be seen and the first default that can is n, judging by the conditions as they were written |
| MenuMeaning.NoValueAfterFinalization | scripts/config/menu.c:349-503 | so it never has one if none of its sites, or all of them, are loose, and its prompts and defaults are then guarded by its dependencies |
| MenuMeaning.SiteWithoutCondition | scripts/config/menu.c:503 | a site without a condition beside one with a condition breaks that |
| MenuSymbols.PlacesExact | scripts/config/menu.c:366-392 | the properties of a symbol are those of its definition sites, all of them |
| MenuSymbols.PlacesOrdered | scripts/config/menu.c:366-392 | they come in the order of the nodes, which decides between defaults |
| MenuSymbols.PropertyOfSymbol | scripts/config/menu.c:366-392 | the k-th property of a symbol is that of its k-th place; a value that is not tristate, of a tristate choice, is hidden there unless the choice is y |
| MenuSymbols.LastProperty | scripts/config/menu.c:538 | a choice value has one property more, which names its choice |
| MenuSymbols.TableReverse | scripts/config/menu.c:411-419 | in the finalised table the reverse dependencies are worth what the finalised properties ask |
| MenuSymbols.RolesFit | scripts/config/menu.c:538-543 | choices and choice values name each other, as the dependency check needs it, if and only if no choice has become a choice value |
| MenuSymbols.SolutionSafe | scripts/config/symbol.c:354-386 | in every solution of the finalised table a symbol that is neither a choice nor a choice value is n while its direct dependencies are, if it is selected, has no loose site, or nothing there speaks up |
| MenuSymbols.SetThenReadFinal | scripts/config/symbol.c:453-508 | for such a symbol without loose sites, or with no others, every accepted value is read back, and what does not depend on it keeps its value |
| MenuSymbols.FinalizeSymbols | scripts/config/parser.tab.c:2267 | finalising a parsed tree leaves the table of symbols for which that holds, with reverse dependencies that are worth the best of what selects, implies or requires each symbol |
| MenuWalk.EventsPreorder | scripts/config/confdata.c:871-915 | entries are entered in preorder |
| MenuWalk.EventsLeave | scripts/config/confdata.c:903-914 | the blocks are left from the inside out |
| MenuWalk.BlockInOneGo | scripts/config/confdata.c:897-914 | everything of a block is written between entering it and its "end of" |
| MenuWalk.Walk | scripts/config/confdata.c:871-915 | the walk without a stack ends, enters every entry in preorder and writes "end of" after the last child of each block |
| MenuWalk.FinalizeAndWalk | scripts/config/confdata.c:808-822 | after finalisation the walk enters every entry once, in the order of the Kconfig files |
| ConfLines.Escape | scripts/config/symbol.c:850-891 | the quoted string, and that it fills the allocated buffer exactly |
| ConfLines.UnescapeEscape | scripts/config/confdata.c:261-275 | a quoted string is read as the string that was written, whatever follows it |
| ConfLines.MoveLeft | scripts/config/confdata.c:269 | moving the rest of a string one to the left, terminator included |
| ConfLines.UnescapeInPlace | scripts/config/confdata.c:261-275 | unescaping where the string stands leaves the unescaped string there; it fails exactly without a closing quote |
| ConfLines.LineRoundTrip | scripts/config/confdata.c:593-614 | every saved line gives back the name and value that were saved |
| ConfLines.LinesStep | scripts/config/confdata.c:316-341 | a file is cut where its lines end |
| ConfLines.FileRoundTrip | scripts/config/confdata.c:422-482 | reading a saved file, with every symbol looked up by the name that was read, gives each name the value it was last saved with |
| ConfLines.LatestAll | scripts/config/confdata.c:422-482 | if no name is saved twice, that is every value that was saved |
| ConfLines.LineFormats | scripts/config/confdata.c:593-614 | how the lines look, letter by letter |
| ConfLines.ForeignLines | scripts/config/confdata.c:422-489 | a carriage return at the end of a line is dropped; lines of other kinds are passed over |
| ConfLines.ForeignValues | scripts/config/confdata.c:234-290 | what is done with values that the writer does not write, for each type |
| Preprocess.CloseMeaning | scripts/config/preprocess.c:471-479 | the closing parenthesis found is the first one at which the depth drops below that of the opening one |
| Preprocess.JoinSplit | scripts/config/preprocess.c:384-399 | splitting a clause at its commas loses no character |
| Preprocess.SplitCount | scripts/config/preprocess.c:384-399 | a clause has one part more than commas outside parentheses |
| Preprocess.BudgetFalls | scripts/config/preprocess.c:260-266 | raising a counter that passed the checks lowers what is left for further expansions |
| Preprocess.PlainText | scripts/config/preprocess.c:495-537 | text without a dollar sign stands for itself |
| Preprocess.ExpandAppend | scripts/config/preprocess.c:495-537 | expansion works piece by piece |
| Preprocess.CountersOnlyGuard | scripts/config/preprocess.c:251-277 | an expansion that succeeds while others are active has the value it has on its own: the counters never influence a value |
| Preprocess.SelfReference | scripts/config/preprocess.c:260-262 | a recursive variable that reaches a reference to itself fails, and the error names it |
| Preprocess.ArgumentLaw | scripts/config/preprocess.c:357-366 | $(n) stands for the n-th argument |
| Preprocess.ClauseCalled | scripts/config/preprocess.c:384-414 | a reference calls its first word with the others, expanded, as arguments |
| Preprocess.PlainClause | scripts/config/preprocess.c:384-411 | words without special characters, joined with commas, are such a reference |
| Preprocess.SplitJoin | scripts/config/preprocess.c:384-399 | splitting joined words gives the words back |
| Preprocess.VariableLaw | scripts/config/preprocess.c:413-416 | a variable comes first: a recursive one stands for the expansion of its value with the arguments of the reference, a simple one for its value |
| Preprocess.BuiltinLaw | scripts/config/preprocess.c:418-421 | without one, a built-in function comes next: what each stands for |
| Preprocess.ArityLaw | scripts/config/preprocess.c:202-224 | the errors for too few and too many arguments of a built-in function |
| Preprocess.EnvironmentLaw | scripts/config/preprocess.c:423-430 | and last, without arguments, the environment variable; everything else stands for nothing |
| Preprocess.GuardLaw | scripts/config/preprocess.c:260-265 | when a reference to a variable is refused as recursive or too deep |
| Preprocess.TooManyLaw | scripts/config/preprocess.c:384-389 | the error for more arguments than there is room for |
| Preprocess.CallExample | scripts/config/preprocess.c:346-439 | $(f,a,b) with f = $(1)-$(2) stands for a-b |
| Preprocess.TokenEnds | scripts/config/preprocess.c:495-537 | a token ends in front of the first character that cannot belong to one |
| Preprocess.TokenCharacter | scripts/config/preprocess.c:559-563 | the characters of a token, one by one |
| Preprocess.Preprocessor.constructor | scripts/config/preprocess.c:300-303 | no expansion is active |
| Preprocess.Preprocessor.ExpandUntil | scripts/config/preprocess.c:495-537 | the loop ends, returns the expansion and the position behind it, and restores the counters unless there is an error |
| Preprocess.Preprocessor.ExpandDollar | scripts/config/preprocess.c:453-488 | the position is just behind the closing parenthesis; the error for a missing one |
| Preprocess.Preprocessor.EvalClause | scripts/config/preprocess.c:346-439 | an argument, a variable, a built-in function or an environment variable, in this order (`Preprocess.ArgumentLaw` to `EnvironmentLaw` say what each gives) |
| Preprocess.Preprocessor.SplitClause | scripts/config/preprocess.c:384-399 | the parts between the commas outside parentheses, and the error for too many |
| Preprocess.Preprocessor.ExpandParts | scripts/config/preprocess.c:407-411 | name and arguments are expanded in order; the first error counts |
| Preprocess.Preprocessor.ExpandVariableAt | scripts/config/preprocess.c:251-277 | the counter is raised for the time of the expansion and restored |
| HashBlocks.BlocksAppend | scripts/mkhash.c:622-658 | appending to a message only concerns its tail |
| HashBlocks.PaddedShortest | scripts/mkhash.c:574-600 | the padding completes a block and is the shortest one that does |
| HashBlocks.PaddedBlocks | scripts/mkhash.c:574-600 | the one or two blocks the padding adds |
| HashBlocks.FoldConcat | scripts/mkhash.c:622-658 | compressing two messages one after the other is compressing their concatenation |
| HashBlocks.OctetsValue | scripts/mkhash.c:110-117 | eight bytes hold a 64-bit number |
| Sha256.EncodeDecode | scripts/mkhash.c:98-134 | decoding and encoding a word gives the bytes back |
| Sha256.DecodeEncode | scripts/mkhash.c:98-134 | encoding and decoding gives the word back |
| Sha256.FastCh | scripts/mkhash.c:450 | the short form of Ch is that of the standard |
| Sha256.FastMaj | scripts/mkhash.c:451 | the short form of Maj is that of the standard |
| Sha256.FastRoundIsRound | scripts/mkhash.c:490-493 | the round macro computes the register shift of section 6.2.2 of FIPS 180-4 |
| Sha256.ViewStep | scripts/mkhash.c:496-501 | with rotating indices only two slots are stored to and every register moves on by one name |
| Sha256.RoundRotating | scripts/mkhash.c:490-501 | a round in place, seen through the rotating indices, is a round of the standard |
| Sha256.ExtendSchedule | scripts/mkhash.c:504-506 | the schedule, extended between the rounds, is that of the standard |
| Sha256.Transform | scripts/mkhash.c:459-563 | the state becomes that of the standard's compression function |
| Sha256.Encode64Value | scripts/mkhash.c:110-117 | the length field holds the length |
| Sha256.BufferedBytes | scripts/mkhash.c:628-629 | the number of buffered bytes follows from the bit counter even after it has wrapped around |
| Sha256.Context.constructor | scripts/mkhash.c:602-618 | the empty message |
| Sha256.Context.Update | scripts/mkhash.c:621-658 | the bytes are added to the message |
| Sha256.Context.Pad | scripts/mkhash.c:573-600 | the state becomes the hash of the padded message |
| Sha256.Context.Final | scripts/mkhash.c:664-675 | the digest of the message, and a cleared context |
| Sha256.HashPieces | scripts/mkhash.c:715-728 | however a message is cut into pieces, empty ones included, the digest is that of the whole |
| Sha256Vector.ConstantsAreRoots | scripts/mkhash.c:461-479 | the round constants are the first 32 bits of the fractions of the cube roots of the first 64 primes, and the initial values those of the square roots of the first eight |
| Sha256Vector.AbcDigest | scripts/mkhash.c:715-728 | the digest of "abc" is the one published with the standard |
| Md5.StepIsOperation | scripts/mkhash.c:160-163 | the STEP macro is an operation of section 3.4 of RFC 1321 |
| Md5.FourSteps | scripts/mkhash.c:211-281 | after four operations the registers are back in their places |
| Md5.Round1 | scripts/mkhash.c:211-227 | sixteen steps with their literal constants, words and shifts are the first round of the standard |
| Md5.Round2 | scripts/mkhash.c:229-245 | the second round |
| Md5.Round3 | scripts/mkhash.c:247-263 | the third round, with its two forms of H |
| Md5.Round4 | scripts/mkhash.c:265-281 | the fourth round |
| Md5.CompressBlock | scripts/mkhash.c:206-286 | one block is compressed as the standard says |
| Md5.CounterCarry | scripts/mkhash.c:316-319 | the 29-bit low half shows a carry by having become smaller; both halves stay right for any size |
| Md5.CounterBits | scripts/mkhash.c:366-374 | the two halves are the bit length modulo 2^64 |
| Md5.LengthBytesEncode | scripts/mkhash.c:366-374 | the eight bytes stored are that length, lowest byte first |
| Md5.Encode64Value | scripts/mkhash.c:366-374 | these bytes determine the number |
| Md5.Context.constructor | scripts/mkhash.c:299-308 | the empty message |
| Md5.Context.Body | scripts/mkhash.c:189-297 | one or more complete blocks |
| Md5.Context.Count | scripts/mkhash.c:316-319 | the counter after more bytes |
| Md5.Context.Update | scripts/mkhash.c:311-343 | the bytes are added to the message |
| Md5.Context.Pad | scripts/mkhash.c:346-376 | the registers become the hash of the padded message |
| Md5.Context.End | scripts/mkhash.c:346-396 | the digest of the message, and a cleared context |
| Md5.HashPieces | scripts/mkhash.c:700-713 | however a message is cut into pieces, the digest is that of the whole |
| Md5Vector.AbcDigest | scripts/mkhash.c:700-713 | the digest of "abc" is the one of section A.5 of RFC 1321 |

## Left out

- Expression trees are values. The rewriters of `expr.c` return new trees here; that they free and reuse nodes, and the global `trans_count` as a shared variable, are not captured. The walk of `expr_eliminate_dups` works on slots, so that its two arguments may be the same slot.
- ExprDups.EliminateDups: promises the same value only for expressions without clashing tests, because for others it is false; `ExprDups.JoinExact` says exactly when.
- Int, hex and string symbols: they appear in comparisons with arbitrary values, but their evaluation, ranges and defaults are left out.
- The modules symbol is fixed during an evaluation. The code itself notes that changing it is handled by evaluating everything again.
- Evaluator.Config.CalcValue: covers bool and tristate symbols outside choices. Choices are treated in `Choices` and `ChoiceMode`, outside the cache, and in `CheckDeps`. Evaluating a choice changes its user value, so what it is evaluated to may depend on how often it is (`ChoiceMode.EvaluateTwice`).
- Choices.ChoiceBlock.CalcChoice: the conditions of prompts and defaults are evaluated in a given environment rather than through the cache.
- MenuFinalize.MenuTree.Finalize: takes the types of symbols as given: that a choice without a type gets that of its first typed value, and values without one that of the choice (`menu.c:315-335`), is left out.
- MenuFinalize.MenuTree.JoinEntry: keeps the condition `choice = y` beside the condition of the node (`MenuChoices.Gated`) instead of storing it there; that the code never looks at a stored one again is a precondition of the methods that read conditions.
- MenuSymbols.SolutionSafe: speaks of symbols that are neither choices nor choice values, and of whole solutions for tables without choices; for such symbols of other trees `MenuMeaning.NoValueExactly` says the same about any environment.
- Warnings that `menu_finalize` and `sym_check_prop` print, and the help texts of menus.
- MenuDeps.TransCompareValue: models `expr_trans_compare` only for comparison with n, the one use in `menu_finalize`.
- Defconfig.WriteDefconfig: leaves out choices and their values; what is written of a choice and read back is the subject of `ChoiceMode`, one choice at a time.
- The message that `sym_check_deps` prints for a cycle, and the stack it keeps for that message.
- ExprPrint.PrintParse: is about tokens; a name stands for the symbol it is looked up as. That a quoted constant prints without its quotes, choices without a name, and the range and list forms are left out, and so are the tables of the generated parser.
- ConfLines.UnescapeInPlace: stops with an error when a backslash is the last character of the string, where the C code steps over the terminator.
- The line reader works on values; only the unescaping is modelled in the buffer. Choices, `auto.conf` and the counting of changes are left out of `conf_read_simple`.
- Definitions of variables (`variable_add`) and the list of environment variables that were used; the output of `$(info ...)` and `$(warning-if ...)`. The shell, the environment, the file name and the line number are parameters.
- Preprocess.Preprocessor.SplitClause: keeps the parts in a sequence. With exactly sixteen commas outside parentheses the C code stores the seventeenth part one place behind the end of its array of sixteen (`preprocess.c:384-399`), where the model has seventeen parts.
- The recursion depth of the C stack in macro expansion is not modelled.
- Sha256.Context.Update: counts bits modulo 2^64 as the code does; FIPS 180-4 has no digest for longer messages, so `Sha256.Digest` means the standard's one only for messages of less than 2^64 bits.
- The sixteen uses of the round macro and of the schedule macro are loops here. Counters of the hashes are numbers with explicit wrap-around; the words are 32-bit vectors.
- The origin of the constants of MD5, which are sines: they are a table.
- Hexadecimal output, files, and option handling of `mkhash.c`.
- The front ends, regular-expression search, random configurations, `all*config`, writing of headers and of `auto.conf`.
