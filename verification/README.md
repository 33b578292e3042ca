# Verified models of the configuration system and the boot firmware

A Dafny model of the parts of this repository that keep state over long runs or rewrite structures, with proofs of what they promise:

- `Kconfig*` models Kconfiglib (`arm-trusted-firmware/Kconfiglib/kconfiglib.py`), the library that evaluates Kconfig files: symbol and choice values, their caches, loading and saving, dependency loops, expressions, and the menu tree.
- `Fwu*` models the firmware update service of the first boot stage as a transition system that both security worlds drive.
- `Exception*` models the stack of exception priorities of the EL3 runtime and the interrupt priority mask.
- `HandoffList` and `RuntimeServices` model the hand-off list of BL2 and the dispatch of secure monitor calls.
- `Gf2`, `Crc*` and `CameoTag` model the image header that has to satisfy two checksums at once.

`dafny verify dfyconfig.toml` checks all of it.

## How the model is built

**Evaluation.** A *facet* is one property of a symbol or choice that Kconfiglib caches: visibility, tristate value, string value, assignable values, selection. `KconfigEval.Scope` evaluates one facet from the facets in an environment and gives `None` if it needs one that is not there. `KconfigReads.Reads` lists what a facet may look at. `KconfigScratch.Scratch` evaluates with nothing cached, along a ranking of the facets. A cache is *justified* if each entry is what one step yields from the other entries; a justified cache holds nothing but values from scratch. This one notion carries the cache, the choices, the minimal configuration and the assignable values. `KconfigRanking.CheckedIsRanked` derives the ranking from the loop check, for configurations with choices as well.

**Rules.** `KconfigValues` says what the values are, for all of them at once (`Complete`), without following the steps of evaluation: the first default whose condition is not n, the largest prompt condition, the first visible member. `KconfigMenuPlaces.Places` says in one pass over the parsed tree under which node each node is shown. `KconfigGrammar` gives the grammar of expressions as trees. `CrcRemainder.CheckValue` is the definition of a CRC as a remainder of polynomials over GF(2). The code is proved against these.

**Objects.** `KconfigCache.Kconfig` caches and invalidates, `KconfigMenuTree.MenuTree` relinks nodes through their `list`, `next` and `parent` fields, `FwuService.Service`, `ExceptionPe.PeData` and `RuntimeServices.Dispatcher` update their tables in place. Each method is tied to a function of the old state; the theorems are about those functions.

**Stopping.** A failed assertion, `panic()` or the platform's error handler is the outcome `Halts` (`Halted`, `stopped`). The theorems about runs speak of every run that is not stopped, and for each call that can stop there is an exact condition for it.

**Files.** Configuration files and `auto.conf` are text. They are read with universal newlines (`KconfigText.SplitLines`), and for configuration files with trailing whitespace stripped. A value is *torn* if its line does not keep it.

**Blocks.** In the loop check a choice and its symbols form one block (`KconfigBlocks.Block`), because the selection of the choice needs all of them and all of them need the selection.

**Parameters.** Python's `int()`, `str()` and `hex()` are the functions `num` and `show` of a configuration. Platform hooks, authentication, mapped memory and the running interrupt priority are arguments of the calls, chosen freely. Asserts are taken to be enabled.

## What holds only under a condition

- **Minimal configurations.** Saving a minimal configuration to a file and loading the file restores every value if and only if no symbol is lost and no value is torn (`KconfigSaveLoad.FileReloads`). A symbol is lost if it is a tristate that is visible as m, selected as m, y by its defaults and held at m by the user; it is not saved, because its visibility does not exceed its selects. A value is torn if it is a written string with a line terminator, or a written int or hex text with a line terminator or trailing whitespace. `KconfigWitness.LostHappens` and `KconfigWitness.TornHappens` give configurations, `KconfigWitness.BreaksHappen` two such values.
- **Incremental builds.** The symbols that `sync_deps` touches are the right ones, whatever the new values are, if and only if no value in the old `auto.conf` has a line terminator (`KconfigSync.SyncExact`).
- **Assignable values.** The documentation of `assignable` says that its values would be respected and that others would not. That holds for every visible symbol outside choices if and only if it is not visible as m, selected as m and implied as y: then m is offered, and the value is y whatever is assigned. It holds for visible members of a choice in y mode. It holds for a visible member of a choice in m mode if and only if the member is not selected, nor implied as y. `KconfigWitness.StuckHappens` and `KconfigWitness.MiddleMemberHappens` give configurations.
- **Dependency loops.** Every loop that is reported is a loop of blocks. As long as no choice is on a loop, a loop is reported if and only if there is one, and if none is reported the configuration can be evaluated (`KconfigBlocks.LoopCheckExact`, `KconfigRanking.CheckedIsRanked`). A loop through a choice can be missed: entered from another member, entered through its own prompt condition, or through the mode of the choice (`KconfigMissed`). `KconfigWitness.MissedLoopHappens` gives a well-formed configuration that passes the check and has no evaluation order.
- **Grouping of expressions.** What is parsed back from a printed expression is grouped to the right, but for a plain m that the parser rewrites to m && MODULES. There is no exception if and only if no such m stands before the last operand of an AND chain (`KconfigExprText.RegroupExact`, `KconfigExprText.EarlyMHappens`).
- **Deactivating a priority.** The comment in `ehf.c` and the component's documentation say that the mask goes back to what it was before the activation. The code sets it to the priority that is deactivated, unless that was the last one. So the mask comes back if and only if no other priority is active, and below another one a priority can be activated only once. `ExceptionPriorities.NestedPairHappens` gives a run from the start.
- **Holding off the normal world.** While a mask is stashed, the mask of the secure world stays at or below the highest non-secure priority. A step from such a state keeps it there if and only if it does not deactivate a priority, beneath which another one is active, through an alias above that level (`ExceptionPriorities.StepHidden`). `ExceptionPriorities.AliasUnhides` gives a run.
- **Dependencies as a bound.** A symbol of a finalized tree that nothing selects does not exceed its direct dependencies, except that it can be y where they are m: exactly if it is not n and is a bool or implied as y (`KconfigValues.DirectBounds`).
- **Lines that could be left out.** A minimal configuration names exactly the visible bools, tristates and strings whose value would change without their user value, unless their selects reach their visibility. For ints and hexes it can name one whose value would not change: exactly if that value is a default that had to be brought into its range (`KconfigMinimal.NumberWritten`).
- **Implicit submenus.** The comment on `_expr_depends_on` lists the conditions that count as depending on a symbol; because of operator precedence the code also counts `sym != y`. An item with a condition that depends on a symbol is invisible while the symbol is n, if the condition asks for more than that (`KconfigMenuDeps.OffHides`); `KconfigMenuDeps.NotYesShows` shows that it is visible otherwise.
- **Resuming an image.** Resetting an interrupted image leaves it recorded as the last executed one, and resuming it then trips an assertion. `FwuContents.ResumeHalts` gives the exact condition, `FwuWitness.ResumeAfterResetHalts` a run from the start.
- **Overlap check.** It stops the system over an image that is listed but still in RESET (after a failed pre-load hook) and over images of a single byte, because its assertion is strict. `FwuWitness.PreLoadFailureHalts` and `FwuWitness.OneByteImageHalts` give runs from the start.

## Model

| member | source | states |
|---|---|---|
| `KconfigReads.EvalTransfers` | arm-trusted-firmware/Kconfiglib/kconfiglib.py:4287-4505 | the value of a facet is determined by the facets in its read set, its own user value and the modes of the choices read, and by nothing else |
| `KconfigReads.ReadsAreDependencies` | arm-trusted-firmware/Kconfiglib/kconfiglib.py:3466-3549 | every item whose facets are read is one that the dependency graph built for invalidation leads back from |
| `KconfigScratch.JustifiedIsScratch` | arm-trusted-firmware/Kconfiglib/kconfiglib.py:4859-4894 | an environment in which every entry follows from the others in one step contains only values that evaluation without any cache yields |
| `KconfigScratch.ScratchDefined` | arm-trusted-firmware/Kconfiglib/kconfiglib.py:4287-4505 | evaluation from scratch yields a value of the right kind for every facet that an item has |
| `KconfigCache.InvalidationJustifies` | arm-trusted-firmware/Kconfiglib/kconfiglib.py:4865-4894 | dropping items together with everything cached that depends on them leaves only right values, even if the user values of the dropped items change |
| `KconfigCache.PromptlessJustifies` | arm-trusted-firmware/Kconfiglib/kconfiglib.py:4896-4916 | a change of the user value of a symbol without prompt needs no invalidation |
| `KconfigCache.Kconfig.Visibility` | arm-trusted-firmware/Kconfiglib/kconfiglib.py:6286-6313 | returns and caches the visibility, adds only right entries to the cache |
| `KconfigCache.Kconfig.TriValue` | arm-trusted-firmware/Kconfiglib/kconfiglib.py:4428-4505 | returns and caches the tristate value, adds only right entries to the cache |
| `KconfigCache.Kconfig.StrValue` | arm-trusted-firmware/Kconfiglib/kconfiglib.py:4287-4425 | returns and caches the string value with active range and defaults, adds only right entries to the cache |
| `KconfigCache.Kconfig.Assignable` | arm-trusted-firmware/Kconfiglib/kconfiglib.py:4508-4514 | returns and caches the assignable values of a symbol or choice |
| `KconfigCache.Kconfig.Selection` | arm-trusted-firmware/Kconfiglib/kconfiglib.py:5424-5453 | returns and caches the selection of a choice |
| `KconfigCache.Kconfig.ExprValue` | arm-trusted-firmware/Kconfiglib/kconfiglib.py:5988-6042 | evaluates an expression with short circuits through the cached properties |
| `KconfigCache.Kconfig.RecInvalidate` | arm-trusted-firmware/Kconfiglib/kconfiglib.py:4865-4894 | terminates although choices and their symbols depend on each other, and leaves nothing cached of the item or of what depends on it, although it stops at items without cached visibility |
| `KconfigCache.Kconfig.SetSymValue` | arm-trusted-firmware/Kconfiglib/kconfiglib.py:4558-4645 | accepts exactly the values valid for the type, and leaves only right values in the cache |
| `KconfigCache.Kconfig.UnsetSymValue` | arm-trusted-firmware/Kconfiglib/kconfiglib.py:4647-4654 | drops the user value and leaves only right values in the cache |
| `KconfigCache.Kconfig.SetChoiceValue` | arm-trusted-firmware/Kconfiglib/kconfiglib.py:5244-5283 | accepts exactly the modes valid for the type, and leaves only right values in the cache |
| `KconfigCache.Kconfig.UnsetChoiceValue` | arm-trusted-firmware/Kconfiglib/kconfiglib.py:5285-5292 | drops mode and selection and leaves only right values in the cache |
| `KconfigCache.Kconfig.Run` | arm-trusted-firmware/Kconfiglib/kconfiglib.py:4558-4654 | cache coherence over every run: whatever is assigned, unset and read in whatever order, every value read is the one that evaluation without caches gives at that point |
| `KconfigValues.ScratchComplete` | arm-trusted-firmware/Kconfiglib/kconfiglib.py:4287-4505 | evaluation from scratch gives every item its values, and each follows from the others; the rules below hold of all such values |
| `KconfigValues.TriLaw` | arm-trusted-firmware/Kconfiglib/kconfiglib.py:4448-4492 | a bool or tristate outside choices: the user value as far as it is visible, or else the first default with a condition that is not n, limited by that condition and raised by implies if the direct dependencies are not n; at least what selects demand; y for m if it is a bool or implied as y |
| `KconfigValues.DefaultDecides` | arm-trusted-firmware/Kconfiglib/kconfiglib.py:4461-4492 | from scratch, invisible or without user value, neither selected nor implied: the value is the minimum of the first active default and its condition, raised from m to y exactly for bools, and n without an active default |
| `KconfigValues.VisLaw` | arm-trusted-firmware/Kconfiglib/kconfiglib.py:6286-6313 | visibility is the largest prompt condition, y for m unless the current type is tristate; a member that its choice hides is invisible |
| `KconfigValues.StringLaw` | arm-trusted-firmware/Kconfiglib/kconfiglib.py:4287-4425 | the text of a bool or tristate is its value; a string is the user value if it is visible, or else the text of its first active default |
| `KconfigValues.NumberLaw` | arm-trusted-firmware/Kconfiglib/kconfiglib.py:4300-4405 | an int or hex is the user value if it is visible and within the active range, or else its default brought into the range |
| `KconfigValues.CompareLaw` | arm-trusted-firmware/Kconfiglib/kconfiglib.py:6016-6042 | all six relations: numbers are compared as numbers unless both sides are strings, everything else by code points |
| `KconfigValues.ExprLaw` | arm-trusted-firmware/Kconfiglib/kconfiglib.py:5988-6042 | conjunction is the minimum, disjunction the maximum and negation swaps n and y, whatever is skipped by short circuits; only logical symbols have values other than n |
| `KconfigValues.DirectBounds` | arm-trusted-firmware/Kconfiglib/kconfiglib.py:4428-4492 | for symbols collected from a finalized tree: without selects the value does not exceed the direct dependencies, with the exact exception |
| `KconfigValues.OfferedLaw` | arm-trusted-firmware/Kconfiglib/kconfiglib.py:4813-4857 | the assignable values are in ascending order, and there are none exactly if the item is invisible |
| `KconfigValues.AcceptLaw` | arm-trusted-firmware/Kconfiglib/kconfiglib.py:4558-4645 | `set_value` accepts exactly the values that fit the type, which for a bool excludes m and for a hex negative numbers, and otherwise changes nothing |
| `KconfigChoice.FullJustified` | arm-trusted-firmware/Kconfiglib/kconfiglib.py:4287-4505 | the values from scratch solve all the equations of evaluation at once |
| `KconfigChoice.ChoiceExclusive` | arm-trusted-firmware/Kconfiglib/kconfiglib.py:5190-5207 | in every cache a run can reach: in n mode all members are n, in m mode none is y, in y mode exactly one is y and the others n if some member is visible; a visible user selection is the one chosen |
| `KconfigChoice.ChoiceExclusiveFromScratch` | arm-trusted-firmware/Kconfiglib/kconfiglib.py:5424-5453 | the same for evaluation from scratch, for every user assignment |
| `KconfigValues.ModeLaw` | arm-trusted-firmware/Kconfiglib/kconfiglib.py:5190-5207 | the mode of a choice is the user mode, but not n unless it is optional, as far as it is visible; y for m if the choice is a bool |
| `KconfigValues.SelectionLaw` | arm-trusted-firmware/Kconfiglib/kconfiglib.py:5424-5453 | in y mode the user selection if it is visible, or else the first default with an active condition and a visible symbol, or else the first visible member; no selection in other modes |
| `KconfigValues.MemberLaw` | arm-trusted-firmware/Kconfiglib/kconfiglib.py:4494-4505 | a member visible as y is y exactly if it is selected; one visible as m is m exactly if the user gave it a value other than n |
| `KconfigValues.UnsetChoiceLaw` | arm-trusted-firmware/Kconfiglib/kconfiglib.py:5285-5292 | from scratch: after `unset_value` the mode and the selection are those of the defaults |
| `KconfigAssignable.Unaffected` | arm-trusted-firmware/Kconfiglib/kconfiglib.py:3466-3549 | an assignment leaves alone every facet of lower rank than those that look at the assigned value |
| `KconfigAssignable.SymbolRespected` | arm-trusted-firmware/Kconfiglib/kconfiglib.py:4813-4857 | for a visible symbol outside choices, a value is assignable exactly if the symbol has it after the assignment, unless the symbol is stuck; then m is offered and the value is y |
| `KconfigAssignable.MemberRespected` | arm-trusted-firmware/Kconfiglib/kconfiglib.py:4813-4834 | a visible member of a choice in y mode offers y only, and after y is assigned to it, it is y and every other member n |
| `KconfigAssignable.MiddleMemberAssigned` | arm-trusted-firmware/Kconfiglib/kconfiglib.py:4494-4505 | a visible member of a choice in m mode becomes n if n is assigned and m otherwise; the values it offers follow from its selects and implies instead |
| `KconfigAssignable.MiddleMemberRespected` | arm-trusted-firmware/Kconfiglib/kconfiglib.py:4846-4857 | in m mode, the values offered to a visible member are those it has after the assignment, if and only if it is not selected, nor implied as y |
| `KconfigAssignable.ModeRespected` | arm-trusted-firmware/Kconfiglib/kconfiglib.py:5405-5422 | for a visible choice, a mode is assignable exactly if the choice has it after the assignment |
| `KconfigWitness.StuckHappens` | arm-trusted-firmware/Kconfiglib/kconfiglib.py:4045-4057 | a configuration in which m is offered and assigning m gives y |
| `KconfigWitness.LostHappens` | arm-trusted-firmware/Kconfiglib/kconfiglib.py:1658-1693 | a configuration whose values are not restored from its minimal configuration |
| `KconfigWitness.TornHappens` | arm-trusted-firmware/Kconfiglib/kconfiglib.py:1269-1345 | with any value that its line does not keep, a configuration of one string, int or hex symbol is not restored from its file |
| `KconfigWitness.MiddleMemberHappens` | arm-trusted-firmware/Kconfiglib/kconfiglib.py:4846-4857 | a well-formed configuration with a choice and an evaluation order, in which a member is offered y alone and y makes it m |
| `KconfigWitness.MissedLoopHappens` | arm-trusted-firmware/Kconfiglib/kconfiglib.py:6634-6666 | a well-formed configuration with its graph, in which the check from all symbols finds nothing and no ranking of the facets exists |
| `KconfigLaws.RangeHolds` | arm-trusted-firmware/Kconfiglib/kconfiglib.py:4305-4402 | an int or hex symbol stays within its active range unless that is empty, whether its value comes from the user or from a default |
| `KconfigLaws.InvisibleIgnored` | arm-trusted-firmware/Kconfiglib/kconfiglib.py:4287-4505 | assigning to an invisible symbol of any type changes no value of any symbol or choice; for a symbol in a choice this holds for all values but y, which also selects it |
| `KconfigMinConfig.TextReloads` | arm-trusted-firmware/Kconfiglib/kconfiglib.py:4287-4425 | a string, int or hex symbol keeps its text when its user value is replaced by what the minimal configuration holds, clamping included |
| `KconfigMinConfig.TriReloads` | arm-trusted-firmware/Kconfiglib/kconfiglib.py:4428-4505 | a bool or tristate outside choices keeps its value, exactly if it is not lost |
| `KconfigMinConfig.ReloadSolves` | arm-trusted-firmware/Kconfiglib/kconfiglib.py:1695-1730 | the solution for the user's values also solves the equations for the reloaded values, exactly if no symbol is lost |
| `KconfigMinConfig.MinConfigReload` | arm-trusted-firmware/Kconfiglib/kconfiglib.py:1658-1730 | without choices, clearing all user values and loading the minimal configuration restores every value of every symbol, if and only if no symbol is lost |
| `KconfigMinConfig.BoolsAreNeverLost` | arm-trusted-firmware/Kconfiglib/kconfiglib.py:1695-1730 | without tristates no symbol is lost |
| `KconfigMinimal.LogicalWritten` | arm-trusted-firmware/Kconfiglib/kconfiglib.py:1705-1715 | from scratch: a bool or tristate outside choices is written exactly if it is visible beyond its selects and would have another value without its user value |
| `KconfigMinimal.StringWritten` | arm-trusted-firmware/Kconfiglib/kconfiglib.py:4946-4951 | from scratch: a string is written exactly if it is visible and would have another value without its user value |
| `KconfigMinimal.NumberWritten` | arm-trusted-firmware/Kconfiglib/kconfiglib.py:4946-4951 | from scratch: what is written of ints and hexes, their value without a user value, and the exact condition for a line that could be left out |
| `KconfigText.AssignmentBack` | arm-trusted-firmware/Kconfiglib/kconfiglib.py:981-983 | the assignment that is written for a name and a right side is matched with that name and right side |
| `KconfigText.UnsettingBack` | arm-trusted-firmware/Kconfiglib/kconfiglib.py:982-983 | the comment that is written for a symbol that is n is matched with its name, and is no assignment |
| `KconfigText.AssignmentExact` | arm-trusted-firmware/Kconfiglib/kconfiglib.py:981 | the lines that are assignments are exactly those with the prefix, a name without an equals sign, the equals sign and anything behind it |
| `KconfigText.UnsettingExact` | arm-trusted-firmware/Kconfiglib/kconfiglib.py:982-983 | the lines that unset a symbol are exactly those that start with the comment for a name without spaces |
| `KconfigText.LineEnds` | arm-trusted-firmware/Kconfiglib/kconfiglib.py:1269-1271 | a carriage return ends a line as a line feed does, both together end one line, and the last line needs no end |
| `KconfigSaveLoad.EntryBack` | arm-trusted-firmware/Kconfiglib/kconfiglib.py:1269-1345 | the line written for a symbol, stripped, matched, looked up and unescaped, assigns to that symbol the value it had, unless the value is torn |
| `KconfigSaveLoad.LogicalLine` | arm-trusted-firmware/Kconfiglib/kconfiglib.py:1281-1295 | any assignment to a bool or tristate: the first character decides, and everything else is ignored, m for a bool included |
| `KconfigSaveLoad.UnsetLine` | arm-trusted-firmware/Kconfiglib/kconfiglib.py:1324-1347 | a comment that a symbol is not set makes bools and tristates n and is ignored for others |
| `KconfigSaveLoad.TextLine` | arm-trusted-firmware/Kconfiglib/kconfiglib.py:1313-1322 | a string takes the literal at the start of the right side, an int or hex only a number that is valid for it |
| `KconfigSaveLoad.StrangerLine` | arm-trusted-firmware/Kconfiglib/kconfiglib.py:1274-1279 | lines for names that no symbol has are ignored |
| `KconfigSaveLoad.BlankIgnored` | arm-trusted-firmware/Kconfiglib/kconfiglib.py:1269-1271 | whitespace at the end of any line does not matter |
| `KconfigSaveLoad.ReloadsText` | arm-trusted-firmware/Kconfiglib/kconfiglib.py:1247-1366 | splitting and parsing the text of the file yields exactly the user values that the reload theorem speaks of, if no value is torn |
| `KconfigSaveLoad.TornIsLost` | arm-trusted-firmware/Kconfiglib/kconfiglib.py:1269-1271 | a torn value is not restored, whatever else the file assigns |
| `KconfigSaveLoad.FileReloads` | arm-trusted-firmware/Kconfiglib/kconfiglib.py:1658-1730 | without choices, writing the minimal configuration as text and loading that text into a cleared configuration restores every value of every symbol, if and only if no symbol is lost and no value is torn |
| `KconfigSaveLoad.MinConfigContents` | arm-trusted-firmware/Kconfiglib/kconfiglib.py:1695-1730 | the text with the lines of exactly the symbols that can be changed and whose value differs from their default, commented out, quoted and escaped as their type asks for |
| `KconfigSaveLoad.LoadConfig` | arm-trusted-firmware/Kconfiglib/kconfiglib.py:1247-1366 | for every text: afterwards the user values are those of the accepted lines and no others |
| `KconfigSaveLoad.SaveThenLoad` | arm-trusted-firmware/Kconfiglib/kconfiglib.py:1658-1730 | saving and loading back on a live evaluator keeps every value, if and only if no symbol is lost and no value is torn |
| `KconfigLoops.VisitSound` | arm-trusted-firmware/Kconfiglib/kconfiglib.py:6559-6632 | below one item, whatever the search reports is a chain of dependencies that leads back to an item on the stack, or a complete loop |
| `KconfigLoops.LoopCheck` | arm-trusted-firmware/Kconfiglib/kconfiglib.py:6559-6676 | a reported loop has distinct items, each depending on the next and the last on the first; if nothing is reported, there is no loop among the dependents of symbols |
| `KconfigBlocks.RaisedIsBlockLoop` | arm-trusted-firmware/Kconfiglib/kconfiglib.py:6559-6676 | a reported loop is a loop of blocks: a symbol and its choice alone are never reported |
| `KconfigBlocks.LoopCheckExact` | arm-trusted-firmware/Kconfiglib/kconfiglib.py:6559-6676 | if no choice depends on itself or its symbols, a loop is reported exactly if there is a loop of blocks |
| `KconfigBlocks.CheckItem` | arm-trusted-firmware/Kconfiglib/kconfiglib.py:6559-6666 | the search with colours in place gives the result and the colours of the recursive definition |
| `KconfigBlocks.CheckConfiguration` | arm-trusted-firmware/Kconfiglib/kconfiglib.py:6668-6676 | the check from all symbols reports only loops of blocks, misses none among the dependents of symbols, and none at all if no choice is on a loop |
| `KconfigRanking.ReadsClassified` | arm-trusted-firmware/Kconfiglib/kconfiglib.py:3466-3549 | every read is of the item itself, within its choice, of something the item mentions, or of MODULES for a tristate |
| `KconfigRanking.CheckedIsRanked` | arm-trusted-firmware/Kconfiglib/kconfiglib.py:6559-6632 | a configuration, with choices or without, in which no choice is on a loop and the check finds nothing can be evaluated: its facets can be ranked |
| `KconfigMissed.CrossedIsMissed` | arm-trusted-firmware/Kconfiglib/kconfiglib.py:6634-6666 | in a family of graphs with a choice that is entered from another of its symbols, the choice is on a loop and the check reports nothing |
| `KconfigMissed.EnteredIsMissed` | arm-trusted-firmware/Kconfiglib/kconfiglib.py:6634-6666 | the same in a family in which the choice is entered through its own condition, so that no symbol is skipped |
| `KconfigMissed.MutualIsMissed` | arm-trusted-firmware/Kconfiglib/kconfiglib.py:6634-6666 | the same in a family in which a symbol and the mode of a choice depend on each other |
| `KconfigMissed.CrossedHasNoOrder` | arm-trusted-firmware/Kconfiglib/kconfiglib.py:6634-6666 | if the visibility of a symbol of a choice needs, over a chain of reads of any length, the value of a symbol of that choice, the facets cannot be ranked |
| `KconfigPropagate.ShortCircuitsAgree` | arm-trusted-firmware/Kconfiglib/kconfiglib.py:5988-6042 | short-circuit evaluation gives the value of the expression under any completion of what is known |
| `KconfigPropagate.MakeAnd` | arm-trusted-firmware/Kconfiglib/kconfiglib.py:2863-2875 | the simplified conjunction has the minimum of the operands' values under every valuation |
| `KconfigPropagate.MakeOr` | arm-trusted-firmware/Kconfiglib/kconfiglib.py:2877-2889 | the simplified disjunction has the maximum of the operands' values under every valuation |
| `KconfigPropagate.FinalizeMeans` | arm-trusted-firmware/Kconfiglib/kconfiglib.py:3607-3687 | at every depth and under every valuation, a finalized prompt is the minimum of its own condition, its own dependencies, those of the enclosing menus and ifs up to the nearest choice, whose mode stands for the rest, and every enclosing `visible if`; all other properties are limited by the same dependencies |
| `KconfigPropagate.ParsedMeans` | arm-trusted-firmware/Kconfiglib/kconfiglib.py:3556-3720 | for every parsed tree, item and valuation: direct dependencies are the maximum over all definitions of the item of what the nesting of the menus says, reverse and weak reverse dependencies the maximum over all parsed selects and implies limited by it, and defaults and ranges those of all definitions in order, limited likewise; for choices as well |
| `KconfigPropagate.Finalizer.FinalizeNode` | arm-trusted-firmware/Kconfiglib/kconfiglib.py:3556-3634 | finalizes the tree and collects the properties, symbols before the nodes below them and choices after |
| `KconfigPropagate.Finalizer.FinalizeTop` | arm-trusted-firmware/Kconfiglib/kconfiglib.py:3556-3720 | after the whole tree is finalized, the collected properties of every item mean what the parsed tree says, under every valuation |
| `KconfigPropagate.FinalizedIsPropagated` | arm-trusted-firmware/Kconfiglib/kconfiglib.py:3637-3687 | every configuration built from a finalized tree has the property that the reload theorem needs: a prompt that is not n implies direct dependencies that are not n |
| `KconfigPropagate.ChoiceMembersWithin` | arm-trusted-firmware/Kconfiglib/kconfiglib.py:3637-3687 | everything inside a choice, at any depth up to an inner choice, is finalized with the choice among its conjuncts, as exclusivity needs |
| `KconfigExprText.PrintParse` | arm-trusted-firmware/Kconfiglib/kconfiglib.py:3376-3460 | parsing the printed form of any choice-free expression consumes all of it and yields the expression with its AND and OR chains grouped to the right |
| `KconfigExprText.RegroupIsGrouped` | arm-trusted-firmware/Kconfiglib/kconfiglib.py:3376-3424 | at every depth of the parsed form no OR has an OR on its left and no AND an AND, except for a plain m rewritten to m && MODULES |
| `KconfigExprText.RegroupExact` | arm-trusted-firmware/Kconfiglib/kconfiglib.py:3426-3440 | there is no exception, if and only if no m is to be rewritten before the last operand of an AND chain |
| `KconfigExprText.EarlyMHappens` | arm-trusted-firmware/Kconfiglib/kconfiglib.py:3426-3440 | `m && m` comes back with an AND on the left if m is rewritten |
| `KconfigExprText.RegroupMeans` | arm-trusted-firmware/Kconfiglib/kconfiglib.py:3426-3460 | the parsed form has the same value under every valuation, with a plain m limited by MODULES exactly if the parser was asked to |
| `KconfigExprText.RegroupSplits` | arm-trusted-firmware/Kconfiglib/kconfiglib.py:6131-6173 | splitting the parsed form at AND or at OR gives the same operands in the same order |
| `KconfigExprText.RegroupPrints` | arm-trusted-firmware/Kconfiglib/kconfiglib.py:6060-6101 | the parsed form prints as the text it was parsed from |
| `KconfigGrammar.ParserExact` | arm-trusted-firmware/Kconfiglib/kconfiglib.py:3376-3454 | the parser accepts a line of tokens, as a given expression, exactly if the grammar generates the line from a tree that stands for the expression |
| `KconfigExprText.Parser.Expression` | arm-trusted-firmware/Kconfiglib/kconfiglib.py:3376-3415 | the parser with its cursor returns what the grammar gives for the remaining tokens, and stops where it does; on malformed input it fails exactly if the grammar does |
| `KconfigExprText.Parser.Conjunction` | arm-trusted-firmware/Kconfiglib/kconfiglib.py:3417-3424 | the same for conjunctions |
| `KconfigExprText.Parser.Factor` | arm-trusted-firmware/Kconfiglib/kconfiglib.py:3426-3460 | the same for operands, comparisons, negations and parentheses |
| `KconfigMenu.FinalizeKeeps` | arm-trusted-firmware/Kconfiglib/kconfiglib.py:3581-3624 | implicit submenus, flattening and the removal of ifs keep all other nodes in preorder |
| `KconfigMenu.FinalizeClears` | arm-trusted-firmware/Kconfiglib/kconfiglib.py:6505-6528 | no if node is left below a finalized node |
| `KconfigMenu.FinalTree` | arm-trusted-firmware/Kconfiglib/kconfiglib.py:3556-3634 | the preorder of the final tree is that of the parsed tree without its if nodes |
| `KconfigMenuPlaces.TreePlaces` | arm-trusted-firmware/Kconfiglib/kconfiglib.py:3582-3624 | the whole final tree, independent of the recursion: every node but the ifs, in definition order, has the parent that the rule gives it, namely where the nearest node before it that takes it is shown |
| `KconfigMenuPlaces.SubmenuPlaces` | arm-trusted-firmware/Kconfiglib/kconfiglib.py:3582-3600 | the same for the implicit submenu of a symbol, with the siblings that stay on its level |
| `KconfigMenuPlaces.SubmenuShape` | arm-trusted-firmware/Kconfiglib/kconfiglib.py:3588-3600 | the next sibling of a symbol afterwards does not depend on it; each sibling that left the level depends on it or on a symbol that left before; before flattening all children depend on it; without a dependent next sibling nothing changes |
| `KconfigMenuDeps.OffHides` | arm-trusted-firmware/Kconfiglib/kconfiglib.py:6439-6473 | a condition that depends on a symbol is n while the symbol is n, unless all it asks is that the symbol is not y |
| `KconfigMenuDeps.NotYesShows` | arm-trusted-firmware/Kconfiglib/kconfiglib.py:6458-6460 | the exception: `sym != y` counts as a dependency and holds while the symbol is n |
| `KconfigMenuTree.MenuTree.FlattenLevel` | arm-trusted-firmware/Kconfiglib/kconfiglib.py:6476-6502 | relinks a level so that the fields hold the flattened forest with right parents, and touches no other node |
| `KconfigMenuTree.MenuTree.RemoveIfNodes` | arm-trusted-firmware/Kconfiglib/kconfiglib.py:6505-6528 | relinks the children of a node so that the if nodes are skipped, and touches no other node |
| `KconfigMenuTree.MenuTree.TakeDependents` | arm-trusted-firmware/Kconfiglib/kconfiglib.py:3585-3602 | the siblings that depend on a symbol are finalized and tilted into its submenu, all of them and no other |
| `KconfigMenuTree.MenuTree.FinalizeNode` | arm-trusted-firmware/Kconfiglib/kconfiglib.py:3556-3624 | in place, the links hold the tree of the definition on values; for a symbol the parent fields are those of the rule for submenus, and the next sibling does not depend on it |
| `KconfigMenuTree.MenuTree.NodeIter` | arm-trusted-firmware/Kconfiglib/kconfiglib.py:1907-1956 | the walk along child, sibling and parent links visits every node once, in preorder, and ends |
| `KconfigMenuTree.MenuTree.FinalizeTree` | arm-trusted-firmware/Kconfiglib/kconfiglib.py:1907-1956 | after the tree has been rearranged, the walk visits exactly the parsed nodes that are not ifs, in definition order; every `parent` field is the one that the rule for submenus gives |
| `KconfigStrings.StringRoundTrip` | arm-trusted-firmware/Kconfiglib/kconfiglib.py:6176-6194 | for every string: escaping in two passes and quoting, the literal match ends at its own closing quote whatever follows, and unescaping gives the string back |
| `KconfigSync.LoadsWritten` | arm-trusted-firmware/Kconfiglib/kconfiglib.py:1841-1882 | reading the text of auto.conf gives back, for every symbol, the value that was written, if the values stay on their lines |
| `KconfigSync.SyncFlags` | arm-trusted-firmware/Kconfiglib/kconfiglib.py:1800-1832 | if auto.conf was written from the previous configuration and its values stay on their lines, a symbol is flagged exactly if its written value has changed, and so is every symbol whose line in autoconf.h appears, disappears or changes |
| `KconfigSync.SyncExact` | arm-trusted-firmware/Kconfiglib/kconfiglib.py:1841-1905 | the flags are right for all new values, if and only if no written old value has a line terminator |
| `KconfigSync.LoadOldVals` | arm-trusted-firmware/Kconfiglib/kconfiglib.py:1841-1882 | reads the old values and the names that no longer exist |
| `KconfigSync.GoneExact` | arm-trusted-firmware/Kconfiglib/kconfiglib.py:1860-1882 | the vanished names are exactly those that some line assigns to and no symbol has |
| `KconfigSync.SyncDeps` | arm-trusted-firmware/Kconfiglib/kconfiglib.py:1800-1839 | touches exactly the flagged symbols and the names that no longer exist |
| `FwuInvariant.ClearChecked` | arm-trusted-firmware/bl1/bl1_fwu.c:164-222 | the overlap check passes exactly if it passes for every slot |
| `FwuInvariant.ClearApart` | arm-trusted-firmware/bl1/bl1_fwu.c:164-222 | an image that passes the check is disjoint from every secure image in use |
| `FwuInvariant.CopyBooked` | arm-trusted-firmware/bl1/bl1_fwu.c:227-365 | a copy keeps the bookkeeping: no image listed twice, images in use listed, a copy under way neither empty nor complete, the secure world running exactly while the last executed image is EXECUTED |
| `FwuInvariant.AuthBooked` | arm-trusted-firmware/bl1/bl1_fwu.c:370-501 | an authentication keeps the bookkeeping, in place or not, by whichever world |
| `FwuInvariant.ExecuteBooked` | arm-trusted-firmware/bl1/bl1_fwu.c:506-549 | an execution returns and keeps the bookkeeping |
| `FwuInvariant.ResumeBooked` | arm-trusted-firmware/bl1/bl1_fwu.c:555-617 | a resume keeps the bookkeeping |
| `FwuInvariant.DoneBooked` | arm-trusted-firmware/bl1/bl1_fwu.c:622-674 | the secure world can always end: its image is found in the slots, and the bookkeeping is kept |
| `FwuInvariant.ResetBooked` | arm-trusted-firmware/bl1/bl1_fwu.c:695-748 | a reset keeps the bookkeeping |
| `FwuInvariant.RunBooked` | arm-trusted-firmware/bl1/bl1_fwu.c:58-100 | the bookkeeping holds in every run, whatever is called in whatever order |
| `FwuInvariant.CopyInv` | arm-trusted-firmware/bl1/bl1_fwu.c:227-365 | a copy keeps the invariant: the bookkeeping, images that fit, and disjoint memory of all secure images in use |
| `FwuInvariant.AuthInv` | arm-trusted-firmware/bl1/bl1_fwu.c:370-501 | an authentication keeps the invariant, unless the secure world authenticates a secure image in place |
| `FwuInvariant.RunningInv` | arm-trusted-firmware/bl1/bl1_fwu.c:506-674 | executing, resuming and ending an image keep the invariant |
| `FwuInvariant.ResetInv` | arm-trusted-firmware/bl1/bl1_fwu.c:695-748 | a reset keeps the invariant |
| `FwuContents.RunSafe` | arm-trusted-firmware/bl1/bl1_fwu.c:227-365 | in every run, for any interleaving over any number of images: the invariant holds, and the memory of every secure image that is being copied, copied or authenticated is the concatenation of the blocks supplied for it, clipped to its size |
| `FwuContents.ExecutesAuthentic` | arm-trusted-firmware/bl1/bl1_fwu.c:506-549 | when a secure image starts to run, its memory holds in full what was supplied for it, and that is what passed authentication |
| `FwuContents.CopyHalts` | arm-trusted-firmware/bl1/bl1_fwu.c:271-307 | a copy stops the system exactly in the overlap check of a first block; the assertions about a copy under way never fail |
| `FwuContents.CheckBreaks` | arm-trusted-firmware/bl1/bl1_fwu.c:184-210 | the overlap check stops the system exactly over the first slot that is not clear, if its image is in RESET or does not end above its base |
| `FwuCopy.CopyOutcome` | arm-trusted-firmware/bl1/bl1_fwu.c:227-365 | the exact condition for each answer of a copy: success, no memory, not permitted, or stopping; a copy under way goes on exactly if its source is addressable and mapped |
| `FwuCopy.CopyAdvances` | arm-trusted-firmware/bl1/bl1_fwu.c:309-365 | what a successful copy does: the bytes that move, clipped to what is lacking, the count, the state, the slot, and nothing else |
| `FwuCopy.RefusalKeeps` | arm-trusted-firmware/bl1/bl1_fwu.c:227-352 | a refused copy leaves memory and all other images as they were |
| `FwuCopy.BlocksComplete` | arm-trusted-firmware/bl1/bl1_fwu.c:227-365 | any split of an image into blocks, supplied one after the other: once the first is accepted the run ends in COPIED, the memory of the image is the concatenation of the blocks, and nothing else has changed |
| `FwuContents.AuthHalts` | arm-trusted-firmware/bl1/bl1_fwu.c:370-501 | an authentication stops the system exactly if the image in the branch that is reached is authentic and the post-load hook fails |
| `FwuLife.AuthOutcome` | arm-trusted-firmware/bl1/bl1_fwu.c:370-501 | the exact condition for each answer of an authentication |
| `FwuLife.AuthSucceeds` | arm-trusted-firmware/bl1/bl1_fwu.c:476-500 | an authentic image is listed and its contents are untouched |
| `FwuLife.AuthFails` | arm-trusted-firmware/bl1/bl1_fwu.c:448-474 | an image that is not authentic is not listed, and what was copied of it is zeroed, nothing else |
| `FwuContents.ResumeHalts` | arm-trusted-firmware/bl1/bl1_fwu.c:555-591 | the secure world can always yield; a resume by the normal world stops the system exactly if the last executed image is not interrupted |
| `FwuLife.ResumeSwitches` | arm-trusted-firmware/bl1/bl1_fwu.c:555-617 | the secure world yields, and resuming it brings the same state back |
| `FwuLife.LifeCycle` | arm-trusted-firmware/bl1/bl1_fwu.c:227-674 | an image comes in block by block, is authenticated, runs, yields and is resumed any number of times, and ends: all calls succeed, its slot is free again, its memory holds what was supplied, and nothing else has changed |
| `FwuContents.ResetHalts` | arm-trusted-firmware/bl1/bl1_fwu.c:695-748 | the EXECUTED branch is never reached for a secure image, and the slot of an image in use is always found |
| `FwuContents.ResetClears` | arm-trusted-firmware/bl1/bl1_fwu.c:719-739 | a reset zeroes all that was copied, a failed authentication the whole image, and both free the slot |
| `FwuContents.RunNoneStalled` | arm-trusted-firmware/bl1/bl1_fwu.c:334-352 | in every run without failing pre-load hooks only images in use are listed |
| `FwuWitness.ResumeAfterResetHalts` | arm-trusted-firmware/bl1/bl1_fwu.c:695-748 | from every initial state: copied, authenticated, executed, interrupted, reset and resumed, any executable image stops the system |
| `FwuWitness.PreLoadFailureHalts` | arm-trusted-firmware/bl1/bl1_fwu.c:334-352 | from every initial state: after a failed pre-load hook, the first copy of any other image stops the system |
| `FwuWitness.OneByteImageHalts` | arm-trusted-firmware/bl1/bl1_fwu.c:184-210 | from every initial state: after an image of one byte, the first copy of any other image stops the system |
| `FwuService.Service.AddLoadedId` | arm-trusted-firmware/bl1/bl1_fwu.c:120-139 | the first free slot gets the image, unless it is listed already or no slot is free |
| `FwuService.Service.RemoveLoadedId` | arm-trusted-firmware/bl1/bl1_fwu.c:145-158 | the first slot of the image is freed, if it has one |
| `FwuService.Service.CheckImage` | arm-trusted-firmware/bl1/bl1_fwu.c:164-222 | the loop over the slots gives the verdict of the first slot that is not clear |
| `FwuService.Service.ImageCopy` | arm-trusted-firmware/bl1/bl1_fwu.c:227-365 | return code and whole new state of a copy, or the system stops |
| `FwuService.Service.ImageAuth` | arm-trusted-firmware/bl1/bl1_fwu.c:370-501 | return code and whole new state of an authentication, or the system stops |
| `FwuService.Service.ImageReset` | arm-trusted-firmware/bl1/bl1_fwu.c:695-748 | return code and whole new state of a reset, or the system stops |
| `FwuService.Service.Serve` | arm-trusted-firmware/bl1/bl1_fwu.c:58-100 | a whole run of calls in place: if it is not stopped, the final state satisfies the invariant and all images hold what they were given |
| `ExceptionPriorities.IndexIs` | arm-trusted-firmware/bl31/ehf.c:54-63 | a priority lies in the unit of its index, and its alias with bit 7 set has the same index |
| `ExceptionPriorities.UnitIs` | arm-trusted-firmware/include/bl31/ehf.h:24-25 | the indices of a platform are exactly those of the priority bits in use |
| `ExceptionPriorities.TopIsLowest` | arm-trusted-firmware/bl31/ehf.c:80-87 | the lowest set bit is the top of the stack, and clearing it pops the stack |
| `ExceptionPriorities.EncodeFits` | arm-trusted-firmware/bl31/ehf.c:465-477 | the bits of every stack fit the 32-bit word |
| `ExceptionPriorities.ActivateKeeps` | arm-trusted-firmware/bl31/ehf.c:99-154 | for every priority: an activation that is not stopped pushes a higher one, sets the mask to it, below the old mask, and keeps the base mask |
| `ExceptionPriorities.ActivateHalts` | arm-trusted-firmware/bl31/ehf.c:99-142 | the exact condition for stopping an activation |
| `ExceptionPriorities.DeactivateHalts` | arm-trusted-firmware/bl31/ehf.c:166-228 | the exact condition for stopping; a secure priority that is deactivated as it was activated is never stopped over the mask |
| `ExceptionPriorities.DeactivateKeeps` | arm-trusted-firmware/bl31/ehf.c:166-228 | a deactivation pops the top and keeps the base mask |
| `ExceptionPriorities.ExitKeeps` | arm-trusted-firmware/bl31/ehf.c:241-271 | leaving the normal world loses nothing: the original mask can be recovered |
| `ExceptionPriorities.ExitHides` | arm-trusted-firmware/bl31/ehf.c:241-271 | leaving the normal world with nothing active and a non-secure running priority raises the mask to the highest non-secure priority and stashes the old one, otherwise nothing changes; the exact condition for stopping |
| `ExceptionPriorities.StepHidden` | arm-trusted-firmware/bl31/ehf.c:99-369 | the exact condition under which a step keeps the mask at or below the highest non-secure priority while another one is stashed |
| `ExceptionPriorities.RunHidden` | arm-trusted-firmware/bl31/ehf.c:99-369 | the same over every run without such a deactivation |
| `ExceptionPriorities.ExitedRunHidden` | arm-trusted-firmware/bl31/ehf.c:241-271 | from leaving the normal world until the stashed mask is restored, the mask stays at or below the highest non-secure priority |
| `ExceptionPriorities.AliasUnhides` | arm-trusted-firmware/bl31/ehf.c:198-218 | a run in which a deactivation through an alias uncovers the normal world |
| `ExceptionPriorities.EnterKeeps` | arm-trusted-firmware/bl31/ehf.c:284-323 | entering the normal world never finds a foreign mask; with nothing active and a mask stashed it is restored, otherwise nothing changes |
| `ExceptionPriorities.AllowKeeps` | arm-trusted-firmware/bl31/ehf.c:336-369 | allowing preemption restores the original mask, and is stopped exactly without a stashed mask or under activations |
| `ExceptionPriorities.RunLifo` | arm-trusted-firmware/bl31/ehf.c:99-228 | every run that is not stopped, with any priorities, is last-in-first-out: the bits do what a plain stack does, a stashed mask implies that the base mask is the highest non-secure one, and the original mask of the normal world is conserved; with secure priorities the mask is never above the top priority |
| `ExceptionPriorities.RunRestores` | arm-trusted-firmware/bl31/ehf.c:241-369 | once everything is deactivated and nothing is stashed, the mask from the start is back |
| `ExceptionPriorities.PairRestores` | arm-trusted-firmware/bl31/ehf.c:198-218 | activating and deactivating restores everything but the mask, and the mask exactly if no other priority is active |
| `ExceptionPriorities.SecondActivationHalts` | arm-trusted-firmware/bl31/ehf.c:128-142 | activating the same priority again is stopped exactly if another priority is active |
| `ExceptionPriorities.NestedPairHappens` | arm-trusted-firmware/bl31/ehf.c:198-218 | a run from the start in which the mask does not come back after a nested activation, and the next one is stopped |
| `ExceptionPe.PeData.ActivatePriority` | arm-trusted-firmware/bl31/ehf.c:99-154 | in place: the new state, a pushed stack, and the original mask kept |
| `ExceptionPe.PeData.DeactivatePriority` | arm-trusted-firmware/bl31/ehf.c:166-228 | in place: the exact condition for stopping, a popped stack, and the original mask kept |
| `ExceptionPe.PeData.ExitedNormal` | arm-trusted-firmware/bl31/ehf.c:241-271 | in place: mask and stash as in `ExitHides`, with its exact condition for stopping |
| `ExceptionPe.PeData.EnteringNormal` | arm-trusted-firmware/bl31/ehf.c:284-323 | in place: never stopped, and the normal world finds its mask |
| `ExceptionPe.PeData.AllowPreemption` | arm-trusted-firmware/bl31/ehf.c:336-369 | in place: the exact condition for stopping, and the original mask restored |
| `HandoffList.ChainDistinct` | arm-trusted-firmware/common/desc_image_load.c:163-203 | a hand-off chain that ends has no image twice |
| `HandoffList.ChainUnique` | arm-trusted-firmware/common/desc_image_load.c:146-203 | there is at most one chain |
| `HandoffList.NodeIndex` | arm-trusted-firmware/common/desc_image_load.c:55-66 | the first descriptor of an image |
| `HandoffList.LinkNode` | arm-trusted-firmware/common/desc_image_load.c:167-188 | links one more image, or an assertion fails and there is no chain |
| `HandoffList.BuildList` | arm-trusted-firmware/common/desc_image_load.c:132-209 | from null links: the list begins at the first first-executable image, visits distinct executable images along the hand-off identifiers, ends at one without a next, and the links lead along it and nowhere else; an assertion fails exactly if there is no such chain, so every cycle trips one |
| `RuntimeServices.EntryIsLast` | arm-trusted-firmware/common/runtime_svc.c:394-403 | the table entry for a call is the last initialised service whose range covers it, or 255 if there is none |
| `RuntimeServices.FieldsOf` | arm-trusted-firmware/common/runtime_svc.c:39-58 | owning entity and call type are bits 29 to 24 and bit 31 of an identifier, whatever the other bits are |
| `RuntimeServices.Dispatcher.Init` | arm-trusted-firmware/common/runtime_svc.c:340-405 | fills the table, and stops exactly if there are too many services or one is not valid |
| `RuntimeServices.Dispatcher.FindHandler` | arm-trusted-firmware/common/runtime_svc.c:39-58 | for every function identifier: unknown exactly if no initialised service covers it, also without any services; otherwise the last one that does |
| `Crc32.SuffixCancels` | immortalwrt/scripts/cameo-tag.py:79-84 | for every byte string, appending its inverted CRC-32, least significant byte first, makes the CRC-32 all ones |
| `CrcRemainder.CrcIsRemainder` | immortalwrt/scripts/cameo-tag.py:79-80 | for every byte string, the CRC is the one number whose inverted bits, reflected, are the remainder over GF(2) of the reflected message with 32 initial ones, times x^32, by the generator with the exponents 32, 26, 23, 22, 16, 12, 11, 10, 8, 7, 5, 4, 2, 1, 0 |
| `CrcCheck.CheckValueIs` | immortalwrt/scripts/cameo-tag.py:79-80 | the CRC of the digits 1 to 9 is 0xCBF43926 |
| `CameoTag.TaggedChecks` | immortalwrt/scripts/cameo-tag.py:82-94 | for every 64-byte header: the stored CRC is that of the header with its CRC field zeroed, the stored CAMEO sum is that of all bytes before it, and apart from the name nothing else has changed |
| `CameoTag.SumAdds` | immortalwrt/scripts/cameo-tag.py:69-76 | the CAMEO sum of a concatenation is the sum of both, and of one byte that byte |
| `CameoTag.ChecksumHeader` | immortalwrt/scripts/cameo-tag.py:82-94 | the buffer is overwritten in place with that header |

## Left out

- `_write_to_conf` of symbols, `option env`, `option defconfig_list`, warnings and the interactive front ends of Kconfiglib.
- Macro expansion, tokenizing and the parsing of statements: expressions are parsed from tokens, menu trees are taken as parsed.
- The two halves of `_finalize_node` are modelled apart: the propagation of conditions on values (`KconfigPropagate`, update of nodes in place not captured), the relinking in place (`KconfigMenuTree`, with `_auto_menu_dep` as an arbitrary relation; what it means is in `KconfigMenuDeps`).
- `unique_syms` of `node_iter`.
- KconfigMinConfig.MinConfigReload: configurations with choices are not covered, nor are they by `TriReloads`, `ReloadSolves` and `FileReloads`, because the loader infers the mode of a choice from its members.
- KconfigMinimal.LogicalWritten: members of choices are not covered, and neither is the rule that skips a symbol selected by default.
- KconfigRanking.CheckedIsRanked: MODULES and what it depends on must not depend on tristates; whether the check finds a given loop through a choice depends on the order of the search, so that there are families of missed loops instead of an exact condition.
- KconfigSaveLoad.FileReloads: names have no whitespace and no '=', and printed numbers no whitespace; files start without a header, and `CONFIG_` is the prefix.
- KconfigSync.SyncFlags: `_write_to_conf` is a parameter.
- FwuContents.RunSafe: in-place authentication of a secure image by the secure world is not covered for extents and contents, because it leaves the number of copied bytes from an earlier image and the image need not be at its base; the bookkeeping (`FwuInvariant.RunBooked`) and all conditions for stopping cover it.
- Between calls the normal world writes outside the memory set aside for secure images, and a running secure image in its own memory or outside; secure images are set aside below the end of the address space.
- FwuCopy.BlocksComplete: the blocks lie outside the memory set aside for the image; overlapping `memcpy` is undefined.
- Copying within the service reads the whole block before it writes it; cache maintenance, register contexts and the end of the update process are not modelled.
- ExceptionPriorities.RunLifo: only this code writes the mask; interrupt acknowledgement, the handlers and the erratum workaround are not modelled.
- The bits of active priorities are natural numbers with bitwise operations defined bit by bit, and so is the CRC register.
- The tag for the second half of the kernel image in `cameo-tag.py`, and all file handling.
- The list of loadable images and the configuration arguments in `desc_image_load.c`; the exception paths in `runtime_svc.c`.
