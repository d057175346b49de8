# Verified models of the Kconfig engine and of the AT-over-SPI protocol

Three parts of the SDK are modelled here, each in the form its source has.

**The Kconfig engine** (`cmake/Kconfig/kconfiglib.py`).
`Expressions`, `Config` and `Evaluation` give values their meaning: a valuation solves a
configuration when every symbol and choice has the visibility, value and selection that its rule
gives, and for acyclic configurations exactly one valuation does, the one plain recursion computes.
`Numbers` and `Meaning` say what these values are without the rules: by positions in the lists of
defaults, ranges and symbols, by the numbers that texts denote, and by cases.
`Engine.Kconf` is the code with its caches; `Caching`, `Forcing` and `Invalidation` show that what it
returns is always that valuation, even though invalidation stops at anything without a cached
visibility. A cached value is sound when it is *forced*: every valuation that agrees with the cache
on the items it has an edge from gives it that value. This also covers values that were calculated
with short-circuiting and therefore never looked at some of their operands.
`Assignments`, `ConfigText`, `ConfigFile`, `RoundTrip`, `SavedConfig` and `Session` treat `.config`
files: loading into a configuration in use, writing, and exactly when a written file brings the
configuration back. `Choices`, `Frame` and `SyncDeps` hold choice exclusivity, what setting one symbol
can change (and with it the exactness of `assignable`), and the soundness of incremental builds.
`Examples` has small configurations that meet all assumptions and fail the conditions.
`LoopSearch` is the search for dependency loops, and `DepLoop` relates it to what can be evaluated.
`ExprSyntax` is the expression printer and parser, `Macro` the preprocessor, and `MacroMeaning` what
expansions are in terms of the structure of a text. `MenuTree`, `MenuLinks`,
`MenuDeps`, `MenuChoices` and `MenuFinalise` are the finalising of the menu tree: what becomes of its
shape, its links, the dependencies and the choices. `MenuConfig` shows that a configuration taken from
a finalised tree has the properties the rest relies on. `Layout` is about lists that are put together
from parts.

**The AT-over-SPI link** (`component/at_cmd/at_intf_spi.c`). `SpiOutput` and the receive side of
`TtMode` are state machines whose steps are single calls on the shared ring, queue, semaphore and
timer, interleaved in every possible way. `SpiFrame` is the frame format and its checksum, and
`RingBuffer` the array under the ring.

**AT commands** (`component/at_cmd/atcmd_service.c`). `AtParams` is the in-place parameter parser,
and `TtMode` the blocking reader of transparent transmission.

## Where the code does less than it says

Where a promise holds only under a condition, one lemma says exactly when it holds and another gives a
case in which it does not.

- `write_min_config` promises that the complete configuration can be derived from the file
  (kconfiglib.py:1664-1668). A tristate with visibility m that is selected to m is left out although
  its default is y, and comes back as y (`Examples.MinConfigLosesTristate`). Without tristates the
  promise holds exactly unless an optional choice is in y mode with nothing to select
  (`SavedConfig.MinConfigRoundTrip`, `Examples.SavedConfigLosesMode`); with them, exactly under
  `RoundTrip.Reproducible`.
- A full `.config` brings the configuration back exactly when every mode that the user chose shows in
  some symbol and no default gave y to a symbol that can only be set to m
  (`SavedConfig.FullConfigRoundTrip`, `Examples.FullConfigLosesTristate`).
- Loading over an existing configuration keeps a stale user selection when the file only assigns m to
  the symbols of a choice (`Assignments.ReplacingLoadIsFreshLoad`, `Assignments.StaleSelectionExample`).
- `assignable` offers m for a symbol with visibility m that is selected to m and implied to y, but
  setting m gives y (`Frame.AssignableIsExact`, `Examples.AssignableExample`).
- `_expr_depends_on` also counts `sym != y` as a dependency on `sym`, by operator precedence
  (kconfiglib.py:6458-6460). It counts the documented forms and this one, and no others
  (`MenuTree.DependsOnIff`). The documented forms hide an entry while the symbol is n
  (`MenuTree.RequiredSymbolHides`); this one shows it just then (`MenuTree.NotYDoesNotHide`). So an
  entry of an implicit menu can be shown without its parent only because of `sym != y`
  (`MenuTree.AbsorbedIsHidden`).
- The search for dependency loops is exact without choices, but reading MODULES is not a dependency. A
  configuration that passes can be evaluated if and only if MODULES is not calculated from a tristate
  (`DepLoop.CheckConfiguration`, `Examples.LoopThroughModules`).
- With choices, whatever is reported is a loop, and a loop that is not reported goes from a symbol up to
  its choice, and not only from the symbol through which the choice was entered
  (`LoopSearch.CheckAll`). A choice that is first entered through what it depends on is not
  left through its symbols again, so that such loops do pass (`Examples.LoopThroughChoice`).
- An SPI output longer than the ring fills it and waits without telling anyone
  (`SpiOutput.OversizedOutputStalls`). The SPI task can come to wait for room in the queue that only it
  empties, or for room that a packet of the ring's size never gets in transparent transmission. From
  these states nothing is sent again, and from all others everything still can be
  (`SpiOutput.CanDeliverIffNotStuck`, `SpiOutput.DeadlockIsReachable`,
  `SpiOutput.OversizedPacketIsReachable`).
- Ending a transparent-transmission session resets neither the stop counter nor the stop timer, so the
  next one can be stopped by fewer than three stop characters (`TtMode.StopsWhenAskedIff`,
  `TtMode.StaleStartStopsEarly`, `TtMode.CounterOutlivesSession`). A packet of exactly the ring's size
  passes the length test and never fits (`TtMode.StoredIffShorterThanRing`).
- The checksum of received frames is only looked at in builds with `CHECKSUM_EN`, which is off
  (at_intf_spi.c:17); without it damage to a payload passes (`SpiFrame.UncheckedDamagePasses`). With it,
  damage to one byte can change what is received without notice exactly if it is one of the two length
  bytes (`SpiFrame.DamageIsSeenIff`, `SpiFrame.LengthDamageCanGoUnseen`).
- 22 parameters are parsed, but the command handler then refuses the count of 23
  (`AtParams.DispatchedIffJoined`).

## Model

| member | source | states |
|---|---|---|
| Expressions.ValueDependsOnMentions | cmake/Kconfig/kconfiglib.py:5988-6042 | two environments that agree on the symbols and choices an expression mentions give it the same value |
| Expressions.MakeAnd | cmake/Kconfig/kconfiglib.py:2863-2875 | the simplified conjunction has the minimum of the two values in every environment |
| Expressions.MakeOr | cmake/Kconfig/kconfiglib.py:2877-2889 | the simplified disjunction has the maximum of the two values in every environment |
| Expressions.GuardBoundsValue | cmake/Kconfig/kconfiglib.py:3637-3651 | a condition into which a choice was propagated never exceeds the mode of the choice |
| Numbers.ParseIntMeaning | cmake/Kconfig/kconfiglib.py:6353-6358 | a string reads as a number if and only if it is one: an optional sign, an optional prefix where the base allows one, and digits whose sum of digit times power it is |
| Numbers.FormatReads | cmake/Kconfig/kconfiglib.py:4391-4393 | the text written for a number reads as that number, in plain form |
| Numbers.StrCmpMeaning | cmake/Kconfig/kconfiglib.py:6361-6364 | texts are ordered by the first position at which they differ |
| Numbers.ComparisonOfNumbers | cmake/Kconfig/kconfiglib.py:6014-6042 | each of the six relations between operands that read as numbers is y if the numbers stand in it and n otherwise |
| Numbers.ComparisonOfTexts | cmake/Kconfig/kconfiglib.py:6014-6042 | for two string symbols, and where an operand is no number, each relation follows the order of the texts |
| Numbers.ConnectivesMeaning | cmake/Kconfig/kconfiglib.py:5998-6013 | a conjunction is as high as both sides, a disjunction as one of them, and a negation y, m or n as its operand is n, m or y |
| Evaluation.EvaluateSolves | cmake/Kconfig/kconfiglib.py:4287-4502 | plain recursion along the dependency order satisfies the rules of all visibilities, values and selections at once |
| Evaluation.SolutionIsEvaluation | cmake/Kconfig/kconfiglib.py:4287-4502 | the rules have exactly one solution in an acyclic configuration: the one plain recursion computes |
| Meaning.ModeMeaning | cmake/Kconfig/kconfiglib.py:5190-5207 | a choice is in n mode if and only if it is hidden, or optional and not wanted; in y mode if and only if the user wants that of one visible as y, or m is not possible |
| Meaning.ChoiceVisibilityMeaning | cmake/Kconfig/kconfiglib.py:6286-6313 | a choice is visible as its best prompt says, and as y instead of m if m is not possible |
| Meaning.SymbolVisibilityMeaning | cmake/Kconfig/kconfiglib.py:6286-6313 | the same for a symbol outside choices |
| Meaning.MemberVisibilityMeaning | cmake/Kconfig/kconfiglib.py:6286-6313 | a symbol of a choice is hidden as well if only y mode would show it, or only m mode |
| Meaning.SelectionMeaning | cmake/Kconfig/kconfiglib.py:5424-5453 | a symbol is selected if and only if the choice is in y mode and the user picked it and it is visible, or no visible one was picked and it is that of the first default with a true condition and a visible symbol, or without such a default the first visible one |
| Meaning.UserSelectionIsY | cmake/Kconfig/kconfiglib.py:5433-5435 | the visible symbol that the user picked in y mode is selected and y, and the others are n |
| Meaning.MemberMeaning | cmake/Kconfig/kconfiglib.py:4494-4502 | y is the selected symbol visible as y, m those visible as m that the user set |
| Meaning.TriMeaning | cmake/Kconfig/kconfiglib.py:4453-4492 | a bool or tristate outside choices is as high as the user, else the default with the least index whose condition is true or an imply with met dependencies, and a select raise it; m counts as y where it must; it is written if and only if it is visible or raised |
| Meaning.UnmetImplyIsIgnored | cmake/Kconfig/kconfiglib.py:4472-4477 | a symbol without active default or select is n while its direct dependencies are n, whatever implies it |
| Meaning.StringMeaning | cmake/Kconfig/kconfiglib.py:4404-4414 | a string has the user's text if it is visible, else that of the first default with a true condition, else none; and when it is written |
| Meaning.ConstantDefault | cmake/Kconfig/kconfiglib.py:4404-4414 | a string whose first active default is a constant has exactly that text |
| Meaning.UserNumberMeaning | cmake/Kconfig/kconfiglib.py:4341-4357 | a visible number of the user in the active range is kept as written |
| Meaning.DefaultNumberMeaning | cmake/Kconfig/kconfiglib.py:4359-4402 | otherwise the default's text is kept if it is in range, and else the value reads as the bound it violates |
| Meaning.OtherTexts | cmake/Kconfig/kconfiglib.py:4294-4304 | a bool or tristate reads n, m or y, and an undefined symbol as its name |
| Meaning.AcceptedValues | cmake/Kconfig/kconfiglib.py:4613-4619 | which values set_value accepts, by type |
| Caching.CoherentUpTo | cmake/Kconfig/kconfiglib.py:4287-4524 | by induction along the dependency order, every sound cache agrees with the solution |
| Caching.CacheIsCoherent | cmake/Kconfig/kconfiglib.py:4287-4524 | every cached visibility, value, write flag, selection and assignable set of a sound cache equals uncached evaluation |
| Caching.GrowCache | cmake/Kconfig/kconfiglib.py:4428-4505 | a cache stays sound when what is added is forced by what is already there |
| Invalidation.DropIsSound | cmake/Kconfig/kconfiglib.py:4859-4916 | after a change of user values, dropping any set that is closed along edges to items with a cached visibility, and that covers the change, leaves a sound cache: the argument why pruned invalidation is safe |
| Engine.Kconf.constructor | cmake/Kconfig/kconfiglib.py:4772-4811 | a new configuration without user values and with empty caches is valid |
| Engine.Kconf.ExprValue | cmake/Kconfig/kconfiglib.py:5988-6042 | the value calculated through the caches, with short-circuiting, is forced for the expression |
| Engine.Kconf.SymVisibility | cmake/Kconfig/kconfiglib.py:6286-6313 | the visibility of a symbol, bounded by its choice and promoted for bools, is forced |
| Engine.Kconf.ChoiceVisibility | cmake/Kconfig/kconfiglib.py:6286-6313 | the visibility of a choice is forced |
| Engine.Kconf.Visibility | cmake/Kconfig/kconfiglib.py:4517-4524 | calculates at most once, keeps all that was cached, and leaves the cache sound |
| Engine.Kconf.PlainTri | cmake/Kconfig/kconfiglib.py:4453-4492 | value and write flag of a symbol outside choices from user value, default, select and imply are forced |
| Engine.Kconf.ChoiceTri | cmake/Kconfig/kconfiglib.py:4494-4502 | value and write flag of a choice symbol from mode and selection are forced |
| Engine.Kconf.TriValue | cmake/Kconfig/kconfiglib.py:4428-4505 | the cached tristate value; the cache stays sound and only grows |
| Engine.Kconf.NumValue | cmake/Kconfig/kconfiglib.py:4310-4391 | value of an int or hex symbol from user value, active range, default and clamping |
| Engine.Kconf.TextValue | cmake/Kconfig/kconfiglib.py:4287-4426 | value and write flag of an int, hex or string symbol are forced |
| Engine.Kconf.StrValue | cmake/Kconfig/kconfiglib.py:4287-4426 | the cached string value; the cache stays sound and only grows |
| Engine.Kconf.CalculateSelection | cmake/Kconfig/kconfiglib.py:5424-5453 | the selection of a choice is forced |
| Engine.Kconf.Selection | cmake/Kconfig/kconfiglib.py:5236-5242 | the cached selection; the cache stays sound and only grows |
| Engine.Kconf.Assignable | cmake/Kconfig/kconfiglib.py:4508-4515 | the cached assignable set; the cache stays sound |
| Engine.Kconf.RecInvalidate | cmake/Kconfig/kconfiglib.py:4865-4894 | terminates although symbols and choices depend on each other, because the number of cached visibilities falls, and drops a set closed along edges to visible items |
| Engine.Kconf.InvalidateIfHasPrompt | cmake/Kconfig/kconfiglib.py:4896-4916 | the caches are sound for the new user value, also where nothing is invalidated for lack of a prompt |
| Engine.Kconf.SetSymValue | cmake/Kconfig/kconfiglib.py:4558-4645 | the new user state and result of set_value, and sound caches |
| Engine.Kconf.UnsetSymValue | cmake/Kconfig/kconfiglib.py:4647-4654 | the user value is gone and the caches are sound |
| Engine.Kconf.SetChoiceMode | cmake/Kconfig/kconfiglib.py:5244-5283 | the new mode and result of set_value on a choice, and sound caches |
| Engine.Kconf.UnsetChoiceValue | cmake/Kconfig/kconfiglib.py:5285-5292 | mode and user selection are gone and the caches are sound |
| Session.ReadString | cmake/Kconfig/kconfiglib.py:4287-4426 | whatever was set, unset and read before, str_value and the write flag are those of plain recursion |
| Session.ReadTristate | cmake/Kconfig/kconfiglib.py:4428-4505 | tri_value is that of plain recursion |
| Session.ReadVisibility | cmake/Kconfig/kconfiglib.py:4517-4524 | visibility is that of plain recursion |
| Session.ReadSelection | cmake/Kconfig/kconfiglib.py:5236-5242 | selection is that of plain recursion |
| Session.ReadAssignable | cmake/Kconfig/kconfiglib.py:4508-4515 | assignable is what plain recursion gives |
| Session.PickSymbol | cmake/Kconfig/kconfiglib.py:4634-4645 | setting a symbol of a choice to y and reading it back gives y, with the others n, if it is then visible with its choice in y mode, and so it is if it was before |
| Session.ConfigString | cmake/Kconfig/kconfiglib.py:4526-4549 | the line a symbol contributes, from values of plain recursion |
| Session.WriteConfig | cmake/Kconfig/kconfiglib.py:1583-1656 | the assignment lines, each symbol once, at its first node |
| Session.VisitsInOrder | cmake/Kconfig/kconfiglib.py:1583-1656 | every symbol is written once, where it comes first |
| Session.ReadStrDefault | cmake/Kconfig/kconfiglib.py:4918-4951 | the default value as the minimal configuration judges it |
| Session.IsInMinConfig | cmake/Kconfig/kconfiglib.py:1705-1728 | exactly the symbols that pass the three tests are kept |
| Session.WriteMinConfig | cmake/Kconfig/kconfiglib.py:1695-1730 | the lines of a minimal configuration |
| Session.LoadLine | cmake/Kconfig/kconfiglib.py:1269-1352 | one line has the effect of ApplyLine on user values, modes and marks, and the caches stay sound |
| Session.LoadConfig | cmake/Kconfig/kconfiglib.py:1247-1366 | loading line by line and unsetting the rest one by one gives LoadReplacing, and the caches stay sound |
| Session.SaveAndLoad | cmake/Kconfig/kconfiglib.py:1583-1656 | writing one configuration and loading it into another in any state brings all values, selections and modes back exactly if modes are shown and no default exceeds an m visibility |
| Session.SaveMinAndLoad | cmake/Kconfig/kconfiglib.py:1658-1730 | writing a minimal configuration and loading it into another configuration in any state brings everything back exactly if what was left out can be told from the rest; without tristates, exactly unless an optional choice is in y mode with nothing to select |
| Choices.MemberVisibility | cmake/Kconfig/kconfiglib.py:6286-6313 | the symbols of a choice are invisible in n mode, at most m in m mode and never m in y mode |
| Choices.SelectionIsVisibleMember | cmake/Kconfig/kconfiglib.py:5424-5453 | a selection is a visible symbol of the choice, and in y mode there is one whenever a symbol is visible |
| Choices.ChoiceIsExclusive | cmake/Kconfig/kconfiglib.py:5190-5207 | in y mode with a visible symbol exactly one symbol is y and the others n; in m mode none is y; in n mode all are n |
| Frame.SettingChangesOnlyDependents | cmake/Kconfig/kconfiglib.py:3466-3549 | setting a symbol changes no visibility, value or selection outside its transitive dependents |
| Frame.SettingGives | cmake/Kconfig/kconfiglib.py:4453-4492 | the value that a visible symbol has after being set, in terms of the configuration before |
| Frame.AssignableIsExact | cmake/Kconfig/kconfiglib.py:4813-4857 | a value is assignable if and only if setting it gives it, except with visibility m, select m and imply y |
| Frame.AssignableExceptionIsReal | cmake/Kconfig/kconfiglib.py:4813-4857 | in that case m is offered and setting it gives another value |
| Frame.PickingGives | cmake/Kconfig/kconfiglib.py:4634-4641 | picking a visible symbol of a choice in y mode selects it and makes it y and the others n |
| Frame.MemberAssignable | cmake/Kconfig/kconfiglib.py:4813-4857 | in y mode y is offered for a symbol of a choice and setting it gives it; in m mode what is offered is exactly what setting gives, unless the symbol is selected or implied |
| Frame.ModeAssignableIsExact | cmake/Kconfig/kconfiglib.py:5405-5422 | a mode is assignable to a visible choice if and only if setting it makes it the mode |
| ConfigText.UnescapeEscape | cmake/Kconfig/kconfiglib.py:6176-6194 | unescape undoes escape |
| ConfigText.LiteralRoundTrip | cmake/Kconfig/kconfiglib.py:7158-7160 | the string pattern matches exactly the escaped text of a quoted string, whatever it contains |
| ConfigText.LiteralMeaning | cmake/Kconfig/kconfiglib.py:7158-7160 | a text starts with a literal of these contents if and only if it is a quote, characters by themselves or behind backslashes, and a quote; unescaping drops just those backslashes |
| Assignments.ReplacingEffects | cmake/Kconfig/kconfiglib.py:1247-1366 | what a replacing load leaves of every user value, mode and selection |
| Assignments.ReplacingLoadIsFreshLoad | cmake/Kconfig/kconfiglib.py:1247-1366 | a replacing load equals clearing everything and loading, if and only if no choice keeps a stale selection |
| Assignments.BoolChoicesLoadFresh | cmake/Kconfig/kconfiglib.py:1247-1366 | without tristate choices the two are always equal |
| Assignments.StaleSelectionExample | cmake/Kconfig/kconfiglib.py:4634-4641 | a tristate choice and a file with one m line for which they differ |
| ConfigFile.LineAssignsValue | cmake/Kconfig/kconfiglib.py:4526-4549 | loading the line that was written for a symbol assigns the value it had |
| ConfigFile.LinesInOrder | cmake/Kconfig/kconfiglib.py:1583-1656 | a file has exactly the lines of the kept symbols that have one, in the order of the symbols |
| Assignments.IgnoredLines | cmake/Kconfig/kconfiglib.py:1269-1341 | which lines are ignored, and that they change nothing |
| ConfigFile.ReplacingLoad | cmake/Kconfig/kconfiglib.py:1247-1366 | the user values, modes and selections after loading a written file into any state |
| RoundTrip.LoadingReproduces | cmake/Kconfig/kconfiglib.py:1247-1366 | loading the lines kept of a configuration, whichever are kept, brings all values, selections and modes back if and only if it is reproducible |
| SavedConfig.FullConfigRoundTrip | cmake/Kconfig/kconfiglib.py:1583-1656 | for the full file: if and only if modes are shown and no default exceeds an m visibility |
| SavedConfig.BoolFullConfigRoundTrip | cmake/Kconfig/kconfiglib.py:1583-1656 | without tristates: if and only if no optional choice is in y mode with nothing to select |
| SavedConfig.MinIsReproducible | cmake/Kconfig/kconfiglib.py:1695-1730 | every symbol left out of a minimal configuration without tristates gets its value from defaults, selects or its choice |
| SavedConfig.MinConfigRoundTrip | cmake/Kconfig/kconfiglib.py:1658-1730 | a minimal configuration without tristates brings the whole configuration back, under the same exact condition |
| SavedConfig.MinConfigIsMinimal | cmake/Kconfig/kconfiglib.py:1705-1728 | without tristates every line of a minimal configuration is needed: without it no other lines bring the configuration back, except for a number clamped by default |
| Examples.MinConfigLosesTristate | cmake/Kconfig/kconfiglib.py:1664-1668 | a configuration that meets every assumption, with tristates, and that its minimal configuration does not bring back |
| Examples.FullConfigLosesTristate | cmake/Kconfig/kconfiglib.py:4526-4549 | one that its full .config does not bring back, because a default exceeds an m visibility |
| Examples.SavedConfigLosesMode | cmake/Kconfig/kconfiglib.py:5190-5207 | one without tristates that neither file brings back, because of an optional choice with nothing to select |
| Examples.AssignableExample | cmake/Kconfig/kconfiglib.py:4813-4857 | one in which m is assignable and setting it gives y |
| Examples.LoopThroughModules | cmake/Kconfig/kconfiglib.py:4274-4284 | one without a cycle that cannot be evaluated, because MODULES is calculated from a tristate |
| Examples.LoopThroughChoice | cmake/Kconfig/kconfiglib.py:6613-6617 | one with a loop through a choice that the search passes and that cannot be evaluated |
| SyncDeps.LoadOldValues | cmake/Kconfig/kconfiglib.py:1841-1882 | the old values are those of the last well-formed line of each known symbol, and exactly the names that no longer exist are touched |
| SyncDeps.AutoConfRoundTrip | cmake/Kconfig/kconfiglib.py:1884-1905 | reading auto.conf back gives the value of exactly the symbols that were written |
| SyncDeps.SyncDeps | cmake/Kconfig/kconfiglib.py:1794-1839 | touches exactly the symbols whose value differs from the old one, counting n as absent, and the names that no longer exist |
| SyncDeps.TouchedIffChanged | cmake/Kconfig/kconfiglib.py:1794-1905 | across two runs a symbol is touched if and only if what sources can see of it changed |
| SyncDeps.ChangedHeaderIsTouched | cmake/Kconfig/kconfiglib.py:1460-1501 | every symbol whose text in the generated header changed is touched |
| SyncDeps.HeaderMeaning | cmake/Kconfig/kconfiglib.py:1460-1501 | the header defines exactly what sources can see: y as 1, m as 1 under its module name, a string as its literal, a number as itself and a hex number with its prefix |
| SyncDeps.RemovedIsTouched | cmake/Kconfig/kconfiglib.py:1876-1882 | a name that no longer exists is touched if and only if sources could see it in the run before |
| LoopSearch.Checker.CheckSym | cmake/Kconfig/kconfiglib.py:6559-6632 | the search from a symbol colours, finishes and reports what its recursive definition says, and terminates although symbols and choices lead to each other |
| LoopSearch.Checker.CheckChoice | cmake/Kconfig/kconfiglib.py:6634-6666 | the same from a choice, past the symbol it was entered through |
| LoopSearch.SymIsSound | cmake/Kconfig/kconfiglib.py:6559-6632 | what a search returns on the way back is a chain that ends in a symbol being searched from; a loop that is raised is one, without repetition and more than a choice and its symbol |
| LoopSearch.ChoiceIsSound | cmake/Kconfig/kconfiglib.py:6634-6666 | the same for a choice, so that the two flags exclude every false loop |
| LoopSearch.SymIsOrdered | cmake/Kconfig/kconfiglib.py:6559-6632 | a symbol is finished after everything that depends on it |
| LoopSearch.CheckAll | cmake/Kconfig/kconfiglib.py:1117-1120 | searching from all symbols raises a loop, or every loop there is goes from a symbol up to a choice that was finished later; it does not only do so from the first symbol of all |
| DepLoop.NoCycle | cmake/Kconfig/kconfiglib.py:6559-6632 | the order in which symbols without choices are finished excludes every cycle |
| DepLoop.EvaluableHasModulesFirst | cmake/Kconfig/kconfiglib.py:4274-4284 | in every configuration that can be evaluated, nothing from which MODULES is calculated is a tristate |
| DepLoop.EvaluableHasNoLoop | cmake/Kconfig/kconfiglib.py:3466-3525 | no configuration that can be evaluated has a cycle of dependencies |
| DepLoop.CheckConfiguration | cmake/Kconfig/kconfiglib.py:6559-6632 | without choices, a loop is reported if and only if there is one, and evaluation is well-founded if and only if none is reported and MODULES is not calculated from a tristate |
| ExprSyntax.Parser.Expression | cmake/Kconfig/kconfiglib.py:3376-3415 | parses from the current token what the grammar says and leaves the rest |
| ExprSyntax.Parser.Conjunction | cmake/Kconfig/kconfiglib.py:3417-3424 | the same for conjunctions |
| ExprSyntax.Parser.Factor | cmake/Kconfig/kconfiglib.py:3426-3460 | the same for operands, negations, relations and parentheses |
| ExprSyntax.NormalKeepsMeaning | cmake/Kconfig/kconfiglib.py:3376-3460 | the right-associated form has the value of the expression, or of its rewriting |
| ExprSyntax.RewritingTwice | cmake/Kconfig/kconfiglib.py:3436-3446 | rewriting m to m && MODULES again changes no value |
| ExprSyntax.PrintThenParse | cmake/Kconfig/kconfiglib.py:6060-6101 | parsing a printed expression gives its right-associated form, which has the same value everywhere |
| ExprSyntax.PrintThenParseCondition | cmake/Kconfig/kconfiglib.py:6335-6340 | the same for a condition, in which m is rewritten again |
| ExprSyntax.AndBindsTighter | cmake/Kconfig/kconfiglib.py:3376-3424 | a conjunction needs no parentheses on either side of a disjunction |
| Macro.Expander.ExpandWhole | cmake/Kconfig/kconfiglib.py:2660-2673 | terminates for every table of variables; the string spliced in place is the text with every macro replaced once, left to right, and the counters are restored |
| Macro.Expander.ExpandMacro | cmake/Kconfig/kconfiglib.py:2742-2802 | the result is the text before, the expansion, and a proper suffix of the text after it, with the index behind the expansion, so expanded text is never scanned again |
| Macro.Expander.FunctionValue | cmake/Kconfig/kconfiglib.py:2804-2857 | a variable in use, one called too deeply, or a function with a wrong number of arguments is an error; otherwise the value, with the counters restored |
| Macro.BudgetFalls | cmake/Kconfig/kconfiglib.py:2814-2827 | expanding a variable uses up part of a finite budget |
| Macro.WholeRefines | cmake/Kconfig/kconfiglib.py:2814-2827 | fewer expansions in progress never change a result, they only turn errors into results |
| Macro.ExpansionIsContextFree | cmake/Kconfig/kconfiglib.py:2660-2673 | an expansion that succeeds inside others has the value it has on its own |
| MacroMeaning.ExpansionMeaning | cmake/Kconfig/kconfiglib.py:2660-2673 | expanding a text of plain characters and nested macros keeps the characters and replaces each macro by the value of its expanded arguments, split at the commas outside parentheses |
| MacroMeaning.ArgumentMeaning | cmake/Kconfig/kconfiglib.py:2780-2786 | a macro stands for an argument if and only if it is its number, counted from the function's name or from the end |
| MacroMeaning.ValueMeaning | cmake/Kconfig/kconfiglib.py:2804-2857 | otherwise for a variable, a function or an environment variable, in this order, or for nothing; and the errors |
| MacroMeaning.CallingGivesArgument | cmake/Kconfig/kconfiglib.py:2780-2786 | calling a function whose text is $(n) gives the n-th argument |
| MenuTree.FlattenKeeps | cmake/Kconfig/kconfiglib.py:6476-6502 | flattening keeps the definition order of all nodes |
| MenuTree.TidyKeeps | cmake/Kconfig/kconfiglib.py:6505-6528 | a level that was flattened and cleared has no if nodes left and all other nodes in order |
| MenuTree.TidyShows | cmake/Kconfig/kconfiglib.py:6476-6502 | on a finished level only menus that are shown have children, and they have those they had |
| MenuTree.FinalHeadKeeps | cmake/Kconfig/kconfiglib.py:3581-3619 | finalising a node, with the implicit menu it takes from its level, keeps the order |
| MenuTree.FinalisingKeepsOrder | cmake/Kconfig/kconfiglib.py:3556-3635 | the finalised tree has no if nodes and lists all other nodes in definition order |
| MenuTree.FinalHeadIds | cmake/Kconfig/kconfiglib.py:3581-3635 | no node is duplicated or invented |
| MenuTree.DependsOnIff | cmake/Kconfig/kconfiglib.py:6439-6464 | a condition counts as a dependency on a symbol if and only if one of its conjuncts has a documented form or is sym != y |
| MenuTree.RequiredSymbolHides | cmake/Kconfig/kconfiglib.py:6439-6464 | a condition with a documented form is n while the symbol is n |
| MenuTree.NotYDoesNotHide | cmake/Kconfig/kconfiglib.py:6458-6460 | sym != y counts and is y exactly while the symbol is not y |
| MenuTree.AbsorbedDepend | cmake/Kconfig/kconfiglib.py:3587-3605 | exactly the nodes that follow without a gap and depend on the symbol are moved below it |
| MenuTree.AbsorbedIsHidden | cmake/Kconfig/kconfiglib.py:6467-6473 | an entry moved below a symbol is hidden while the symbol is n, unless sym != y moved it there |
| MenuDeps.DepMeaning | cmake/Kconfig/kconfiglib.py:3637-3655 | a node's dependency is the minimum of its own and all enclosing ones, up to the innermost enclosing choice, for which its mode stands |
| MenuDeps.PromptMeaning | cmake/Kconfig/kconfiglib.py:3656-3663 | a prompt is limited by the node's dependency, and for symbols and choices by all enclosing visible ifs |
| MenuDeps.PropertyMeaning | cmake/Kconfig/kconfiglib.py:3664-3687 | defaults, ranges, selects and implies keep their order and targets and are limited by the node's dependency |
| MenuDeps.ChoiceGuards | cmake/Kconfig/kconfiglib.py:3640-3651 | everything inside a choice, through any number of ifs, is bounded by the mode of the choice |
| MenuDeps.RevDepMeaning | cmake/Kconfig/kconfiglib.py:3708-3720 | a reverse dependency is the maximum over all selects, or implies, of min(selector, condition) |
| MenuDeps.DirectDepMeaning | cmake/Kconfig/kconfiglib.py:3701-3702 | a symbol's direct dependency is the maximum of the dependencies of its definitions |
| MenuDeps.PropertiesInOrder | cmake/Kconfig/kconfiglib.py:3689-3720 | a symbol has the defaults, ranges, selects and implies of its definitions and no others, one definition after the other |
| Layout.EarlierFirst | cmake/Kconfig/kconfiglib.py:3694-3697 | what an earlier definition has comes before what a later one has, and each keeps its own order |
| Layout.ComesFrom | cmake/Kconfig/kconfiglib.py:3694-3697 | everything in the list comes from some definition |
| MenuDeps.HandedInherits | cmake/Kconfig/kconfiglib.py:3637-3687 | dependencies can be handed down in every tree |
| MenuDeps.InheritsInOneWay | cmake/Kconfig/kconfiglib.py:3637-3687 | and in one way only |
| MenuFinalise.MenuNodes.FlattenLevel | cmake/Kconfig/kconfiglib.py:6476-6502 | rewriting the links in place gives the flattened level, with parent links right and nothing else touched |
| MenuFinalise.MenuNodes.RemoveIfNodes | cmake/Kconfig/kconfiglib.py:6505-6528 | rewriting the links in place gives the level without if nodes |
| MenuFinalise.MenuNodes.PropagateDeps | cmake/Kconfig/kconfiglib.py:3637-3687 | every child inherits once and nothing deeper changes |
| MenuFinalise.MenuNodes.AddPropsToSym | cmake/Kconfig/kconfiglib.py:3689-3720 | the properties of a node are added to its symbol and its targets |
| MenuFinalise.MenuNodes.AbsorbNext | cmake/Kconfig/kconfiglib.py:3587-3605 | nodes are finalised, tilted up below the symbol and given it as parent, and all of them depend on it |
| MenuFinalise.MenuNodes.FinaliseChoice | cmake/Kconfig/kconfiglib.py:6531-6556 | the choice takes over defaults and dependency of its node and the symbols on the level below it, and finds or lends types |
| MenuFinalise.MenuNodes.FinaliseChildren | cmake/Kconfig/kconfiglib.py:3615-3619 | all children are finalised in order, those absorbed on the way included |
| MenuFinalise.MenuNodes.FinaliseNode | cmake/Kconfig/kconfiglib.py:3556-3635 | links, contents, symbols and choices after finalising one node, with the rest of its level still pending |
| MenuFinalise.MenuNodes.FinaliseTree | cmake/Kconfig/kconfiglib.py:3556-3635 | each node is finalised exactly once, in definition order; links and parents are those of the finalised tree; all dependencies are handed down; symbols and choices hold the properties in the order of the visits |
| MenuFinalise.MenuNodes.NodeIter | cmake/Kconfig/kconfiglib.py:1907-1956 | the iterative walk over the links visits the tree in recursive preorder |
| MenuChoices.TypesAreLent | cmake/Kconfig/kconfiglib.py:6546-6556 | a choice without a type gets that of its first symbol that has one, lends it to those that have none, and no known type changes |
| MenuChoices.HeadGuards | cmake/Kconfig/kconfiglib.py:3637-3651 | whatever is on the finished level below a choice, implicit menus and flattening included, is bounded by its mode |
| MenuChoices.ChoiceInOrder | cmake/Kconfig/kconfiglib.py:3626-3635 | a choice has the defaults of its nodes and the symbols on their levels and no others, one node after the other |
| MenuConfig.ChosenLinks | cmake/Kconfig/kconfiglib.py:6531-6545 | a symbol belongs to a choice, both ways, if and only if it was on the level of one of its nodes |
| MenuConfig.FinalisedConfiguration | cmake/Kconfig/kconfiglib.py:3556-3635 | a configuration taken from a finalised tree without warnings has linked choices, guarded choice symbols, and prompts that respect dependencies |
| MenuConfig.FinalisedMeaning | cmake/Kconfig/kconfiglib.py:3556-3687 | the dependency of every node of the tree, the condition of its prompt and those of its selects and implies, in terms of what was written in the enclosing nodes |
| MenuConfig.FinalisedProperties | cmake/Kconfig/kconfiglib.py:3637-3720 | a configuration taken from a finalised tree has the defaults and ranges that were written for a symbol and no others, in the order of the tree, each limited by the dependency of its definition |
| MenuConfig.FinalisedReverse | cmake/Kconfig/kconfiglib.py:3689-3720 | a reverse dependency is the largest of min(selector, condition) over all selects, or implies, of the tree |
| SpiOutput.BytesConserved | component/at_cmd/at_intf_spi.c:145-202 | in every interleaving the frames, the ring and the rest of the current output are exactly the accepted bytes in order, and every frame fits |
| SpiOutput.OversizedOutputStalls | component/at_cmd/at_intf_spi.c:492-502 | an output that exceeds the ring leaves bytes in it that nobody will fetch |
| SpiOutput.NoLostWakeupIffOutputsFit | component/at_cmd/at_intf_spi.c:475-517 | in every interleaving a non-empty ring has a queued request, an armed or firing timer, or an actor that will still notify, if and only if no output may exceed the ring |
| SpiOutput.DriverLimit | component/at_cmd/at_intf_spi.c:529-533 | with the driver's ring of 32 * 1024 bytes the limit is 32767 bytes per output |
| SpiOutput.RestMeansDelivered | component/at_cmd/at_intf_spi.c:475-517 | whenever the link is at rest everything accepted has been sent |
| SpiOutput.NextFrameIsFull | component/at_cmd/at_intf_spi.c:283-292 | in every run the next frame after the SPI task took a request is full or takes all that was in the ring then |
| SpiOutput.FullFramesAreServed | component/at_cmd/at_intf_spi.c:475-517 | in every interleaving a full frame that has been written has a request or someone about to queue one, and does not wait for the timer |
| SpiOutput.OwnStepsComeToRest | component/at_cmd/at_intf_spi.c:283-330 | the actors, left alone, bring the link to rest from every state that is not deadlocked and in which a packet in hand has room |
| SpiOutput.DeadlockIsReachable | component/at_cmd/at_intf_spi.c:190-202 | a run in which the SPI task comes to wait for its own queue |
| SpiOutput.OversizedPacketStays | component/at_cmd/at_intf_spi.c:248-257 | once the SPI task holds a packet of the ring's size or more, no run sends anything again |
| SpiOutput.OversizedPacketIsReachable | component/at_cmd/at_intf_spi.c:226-258 | a run in which the SPI task comes to hold such a packet, without being deadlocked |
| SpiOutput.CanDeliverIffNotStuck | component/at_cmd/at_intf_spi.c:145-258 | from every reachable state with bytes to send they can still all be sent if and only if the SPI task is not bound to wait for its own queue and the packet in its hands is shorter than the ring it goes to |
| TtMode.StreamIsKept | component/at_cmd/atcmd_service.c:284-328 | what the gets returned, followed by the ring, is the concatenation of all accepted packets other than lone stop characters |
| TtMode.ShortGetMeansStopped | component/at_cmd/atcmd_service.c:295-325 | a get returns all it was asked for, or the session is stopped and the ring empty |
| TtMode.SleepingGetIsWoken | component/at_cmd/atcmd_service.c:300-305 | a sleeping get that no token waits for has nothing to take and no stop to see, or another thread is about to wake it |
| TtMode.StopsWhenAskedIff | component/at_cmd/at_intf_spi.c:238-271 | in every run of a session a stop takes three lone stop characters in a row, or a packet that does not fit, if and only if the session started with an idle timer and the counter at 0 or 255 |
| TtMode.ArmedByThreeIff | component/at_cmd/at_intf_spi.c:260-271 | between packets of a running session the timer is armed exactly when the counter is 3, after three lone stop characters, if and only if it started so |
| TtMode.StaleStartStopsEarly | component/at_cmd/at_intf_spi.c:238-271 | every other start has a run that is stopped by two, one or no stop characters and nothing else |
| TtMode.CounterOutlivesSession | component/at_cmd/atcmd_service.c:330-339 | a clean session can leave such a start to the next one, whatever tokens it started with |
| TtMode.StoredIffShorterThanRing | component/at_cmd/at_intf_spi.c:226-258 | a packet that passed the length test can still be stored if and only if it is shorter than the size of the ring |
| RingBuffer.Ring.Available | component/utils/ringbuffer/ringbuffer.c:82-88 | the number of bytes held |
| RingBuffer.Ring.Space | component/utils/ringbuffer/ringbuffer.c:74-80 | the number of bytes that still fit, one less than the size in all |
| RingBuffer.Ring.Write | component/utils/ringbuffer/ringbuffer.c:90-137 | appends to the contents, across the end of the array |
| RingBuffer.Ring.Read | component/utils/ringbuffer/ringbuffer.c:139-186 | removes the oldest bytes, across the end of the array |
| SpiFrame.ComputeChecksum | component/at_cmd/at_intf_spi.c:84-101 | the loop computes the sum of the 16-bit words modulo 2^32 |
| SpiFrame.ChecksumDoesNotWrap | component/at_cmd/at_intf_spi.c:84-101 | at the size of the DMA buffer the sum does not wrap |
| SpiFrame.ByteChangeAltersChecksum | component/at_cmd/at_intf_spi.c:84-101 | changing any one byte changes the checksum, at every length |
| SpiFrame.BuildFrame | component/at_cmd/at_intf_spi.c:160-176 | the transmit buffer holds header, length, payload, checksum and zeros |
| SpiFrame.FrameRoundTrip | component/at_cmd/at_intf_spi.c:204-224 | every payload up to the DMA size less 8 is received as it was sent, with and without checksums |
| SpiFrame.DamageIsSeen | component/at_cmd/at_intf_spi.c:204-224 | where checksums are checked, one damaged byte of magic, payload or checksum is always noticed |
| SpiFrame.DamageIsSeenIff | component/at_cmd/at_intf_spi.c:204-224 | over all payloads and values, damage to the byte at an index within the frame can go unseen if and only if it is one of the two length bytes |
| SpiFrame.PaddingDamageIsHarmless | component/at_cmd/at_intf_spi.c:204-224 | damage behind the checksum leaves the payload as it was |
| SpiFrame.UncheckedDamagePasses | component/at_cmd/at_intf_spi.c:216-224 | where they are not, a damaged payload is received as it is |
| SpiFrame.LengthDamageCanGoUnseen | component/at_cmd/at_intf_spi.c:210-214 | for either length byte, frames that this one damaged byte turns into the frame of an inner payload |
| AtParams.ParseAdvance | component/at_cmd/atcmd_service.c:855-904 | rewriting the buffer in place leaves C strings equal to the parameters and returns their number plus one, or -1 for a stray backslash or more than 22 of them; nothing behind the terminator is touched |
| AtParams.ParseParam | component/at_cmd/atcmd_service.c:823-842 | splitting in place at commas, of which at most 22 parameters are recorded |
| AtParams.ParsingInvertsEscaping | component/at_cmd/atcmd_service.c:844-854 | a text that fits the buffer has these parameters if and only if it is their escaped comma-join |
| AtParams.NoBackslashSplits | component/at_cmd/atcmd_service.c:844-854 | without backslashes both parsers see the same parameters |
| AtParams.DispatchedIffJoined | component/at_cmd/atcmd_service.c:798-806 | parameters in argv are dispatched if and only if the text is the escaped join of 1 to 21 of them; -1 never passes |
| AtParams.Dispatch | component/at_cmd/atcmd_service.c:788-810 | a command without '=' is called with a count of 1 and no parameters; any other is called, with the parameters in its argv, if and only if the text is the escaped join of 1 to 21 of them |

## Left out

- Configurations for which `_check_choice_sanity` or `_check_sym_sanity` has something to warn about (`Config.WellFormed`, `Config.ChoicesTyped`, `SavedConfig.SymsSane`); that prompts respect dependencies, and choice symbols the mode of their choice, is what `MenuConfig.FinalisedConfiguration` shows.
- Files, `source`, globbing, tokenising of characters, warnings, help texts, environment and shell functions: tables, tokens and lines are given instead.
- Python's loose number syntax (blanks, underscores, base prefixes other than 0x), newlines inside string values and the recursion limit.
- Reverse dependencies of symbols that are never defined; they have no effect on any value.
- `_warn_select_unsatisfied_deps`: it evaluates expressions only to print a warning.
- Comments and blank lines of `.config` files, and `node_iter(unique_syms=True)`.
- `_expand_name` and `_expand_str`: they would add members of the same kind as `_expand_whole`.
- UART, SDIO and USB transports, which share the receive logic of the SPI transport.
- Outside transparent transmission, received packets are stored or dropped without waiting; the transmit side sees them as empty ones.
- Calls on queues, semaphores, timers and rings are atomic steps; priorities and time do not restrict interleavings.
- MenuFinalise.MenuNodes.FinaliseNode: nodes are numbers and their links are kept in a map, so update in place is update of that map.
- AtParams.ParseAdvance: the pointers stored in argv are offsets into the buffer.
- SavedConfig.MinConfigRoundTrip: excludes tristates, for which the promise is false; RoundTrip.LoadingReproduces covers them exactly.
- LoopSearch.CheckAll: for other loops that go from a symbol up to its choice it does not say which are reported, since that depends on the order of the symbols and of their dependents; the search itself never goes from a choice to symbols that are not directly in it, and loops are those it could follow.
- DepLoop.CheckConfiguration: excludes choices, with which loops can pass; LoopSearch.CheckAll covers them.
- MacroMeaning.ExpansionMeaning: plain characters have no dollars, and within a macro the parentheses of each stretch of them match; Macro.Expander.ExpandWhole covers all texts.
- Meaning.StringMeaning: defaults of strings and numbers that are not single symbols or constants are left out; there is a warning for them.
- Session.WriteConfig: leaves out the header and the comments for menus, which are not assignments.
- RingBuffer.Ring.Write: requires room, which all callers test first; the source would write over unread bytes or past the array.
- RingBuffer.Ring.Read: requires that many bytes, which all callers test first.
- TtMode.StreamIsKept: sessions start between packets with no timer handler running; counter, timer and tokens may be left over.
