# Models of CMake's presets engine, pkg-config import, cache and command-line helpers

This project models six parts of CMake in Dafny and proves what each of them is for. Each model has the form of the
code: objects that are updated in place are classes with `modifies` clauses, loops are loops with invariants, and what
they compute is tied to a specification about which the properties are proved.

- **Presets.** `PresetFields`, `PresetResolution` and `PresetInheritance` model inheritance among configure presets:
  an in-place depth-first visit whose status map is passed by value, so that presets are visited again and again. The
  specification is over the original presets. `MacroLexer`, `MacroStages`, `EnvironmentValues` and `MacroExpansion`
  model macro expansion: the three-state lexer, the immediate and the full pass, and environment variables that are
  expanded in place, recursively and once. `PresetFiles` models the reading of a presets file with its includes.
- **pkg-config import.** `PkgConfig` models the worklist with an arbitrary pick, version requirements, requirements
  bound by the caller, and targets left by earlier commands.
- **Cache patterns.** `PatternTable` models the matcher that takes as little as possible and never goes back.
- **Argument parser.** `KeywordMap` and `ArgumentParser` model the parser without sub-parsers.
- **Sequence algorithms.** `Algorithms` models removal by rotation and removal of duplicates, on arrays.
- **Cache file and Base32.** `CacheHelp`, `CacheLine`, `CacheRecords`, `CacheFile` and `CacheManager` model saving and
  loading the cache, down to the characters of the file; `Base32` models the encoder.

`Graphs`, `Text` and `Wrappers` hold what the others share: walks, reachability and cycles in finite graphs, searching
in texts, and optional values. To verify the project, use `dafny verify dfyconfig.toml`.

## Where the code does not do what one would assume

- A null condition is dropped at the end of a visit. The next visit of the same preset takes it for a missing
  condition and inherits the parents' one. The result is right exactly when no inherited preset declares null while
  having an ancestor with a condition (`PresetInheritance.AllVisited`, `PresetResolution.NullsCanHarm`).
- A variable whose first macro that does not expand is a vendor macro resets the preset, any other variable that does
  not expand fails it, also one that only refers to the first. The variable that comes first decides, so the verdict
  depends on the order exactly when there are variables of both kinds (`EnvironmentValues.SameVerdictIff`,
  `EnvironmentValues.OrderMatters`).
- The immediate pass fails a preset with an unclosed macro that the full pass alone would only reset
  (`MacroStages.StagedFieldsIff`), and changes the meaning of texts when the directory contains something that the full
  pass would expand, or ends in the beginning of a macro (`MacroStages.StagedIffInert`).
- A package that requires itself is held to its own requirement only when it is the package asked for
  (`PkgConfig.SelfRequirementForgotten`). `EXACT` without `VERSION` asks for the empty version (`PkgConfig.Resolve`).
- The pattern matcher misses names in which the text after a placeholder occurs earlier
  (`PatternTable.LazyLosesEarlyAnchors`); the patterns that lose names are exactly those of `PatternTable.CompleteIffGuarded`.
- A trailing binding that is a flag swallows the argument that triggers it (`ArgumentParser.TrailingFlagSwallows`).
- Internal cache entries lose their properties, internal entries whose keys look like properties do not come back, and
  the properties of an entry without a name are written as entries (`CacheRecords.ComesBackIff`, `CacheRecords.Fall`).
- Some help texts, keys and values do not survive the cache file; the exact conditions are in
  `CacheHelp.HelpRoundTrip`, `CacheLine.LineRoundTrip` and `CacheFile.RecordRoundTrip`.

## Model

| member | source | states |
|---|---|---|
| `PresetFields.InsertMissing` | Source/cmCMakePresetsGraph.cxx:107-112 | the insertion loop, whatever order it visits the parent's entries in, yields the entry-wise "child first" union: no entry the child has is overwritten |
| `PresetFields.InheritAllReads` | Source/cmCMakePresetsGraph.cxx:979-1011 | after inheriting from a list of parents, every string, optional, vector and map-entry field reads as the first set value among the child's own and the parents' in `Inherits` order |
| `PresetFields.InheritAllCondition` | Source/cmCMakePresetsGraph.cxx:183-186 | a condition is present after inheriting if and only if the child or a parent has one; the child's own is never replaced, and a null comes only from a null |
| `PresetFields.InheritAllFirstCondition` | Source/cmCMakePresetsGraph.cxx:183-186 | the condition is the child's own if set, else the first set one among the parents, in order |
| `PresetFields.InheritAllAgain` | Source/cmCMakePresetsGraph.cxx:83-112 | inheriting again from the same parents changes nothing in a preset that has already inherited from them: the idempotence that repeated visits rest on |
| `PresetFields.StripInheritAll` | Source/cmCMakePresetsGraph.cxx:979-1011 | the fields other than the condition depend only on the fields other than the condition |
| `PresetResolution.ResolveDeeper` | Source/cmCMakePresetsGraph.cxx:121-203 | the declarative meaning does not depend on how far inheritance is unfolded, once it is unfolded far enough |
| `PresetResolution.ResolvedField` | Source/cmCMakePresetsGraph.cxx:83-203 | every field of a resolved preset is its own original value if set, else the first set value among its parents' resolved values in `Inherits` order; map fields per key |
| `PresetResolution.ResolvedCondition` | Source/cmCMakePresetsGraph.cxx:183-190 | the condition of a resolved preset is the first set one among its own and its parents' resolved ones, a null meaning none |
| `PresetResolution.AllResolvableIff` | Source/cmCMakePresetsGraph.cxx:121-222 | all presets resolve if and only if every inherited name exists and its file is reachable from the child's file, the inherits relation has no cycle, and the per-preset field checks pass |
| `PresetResolution.UnblockedUnfold` | Source/cmCMakePresetsGraph.cxx:127-139 | a visit that is going to succeed never meets a preset in progress, and its parents' visits are in the same position with one more name in progress |
| `PresetResolution.ConditionIsSupplied` | Source/cmCMakePresetsGraph.cxx:183-190 | a resolved preset has a condition only if it or an ancestor declares one other than null |
| `PresetResolution.NullsCanHarm` | Source/cmCMakePresetsGraph.cxx:188-190 | concrete presets, all of which resolve, in which an inherited preset's null condition has an ancestor's condition to fall back to: the family in which the null is lost |
| `PresetInheritance.VisitMerges` | Source/cmCMakePresetsGraph.cxx:150-195 | a visit whose parents are settled leaves the preset, conditions aside, exactly as the declarative meaning says, on the first visit and on every later one |
| `PresetInheritance.FaithfulVisit` | Source/cmCMakePresetsGraph.cxx:183-190 | a visit leaves the right condition too, as long as nulls are harmless |
| `PresetInheritance.VisitAccepts` | Source/cmCMakePresetsGraph.cxx:192-199 | a visit of a resolvable preset passes the required-field checks even when the preset has been visited before |
| `PresetInheritance.VariablesAreNamed` | Source/cmCMakePresetsGraph.cxx:139-152 | a resolved preset has no environment variable with an empty name, so that a second visit passes that check too |
| `PresetInheritance.ParentVisited` | Source/cmCMakePresetsGraph.cxx:154-187 | one turn of the parent loop keeps what holds of all presets during a visit, although the recursive visit may overwrite presets visited before |
| `PresetInheritance.AllVisited` | Source/cmCMakePresetsGraph.cxx:205-222 | once every preset has been visited, in any order, all fields but the condition are as the declarative meaning says, and the conditions are too if and only if no inherited preset declares null while having an ancestor with a condition |
| `PresetInheritance.InheritedFields` | Source/cmCMakePresetsGraph.cxx:205-222 | the presets as they are afterwards solve the inheritance equations: every field, and where nulls are harmless the condition, is the original own one if set, else the first set one among the parents as they are; and each passes the checks, written out |
| `PresetInheritance.ParentlessResolvesIff` | Source/cmCMakePresetsGraph.cxx:1025-1066 | a preset without parents resolves if and only if its variables are named and, unless it is hidden, it has what its file's version asks for, no diagnostic is an error without being a warning, and its cache variables are named |
| `PresetInheritance.VersionThreeNeedsLess` | Source/cmCMakePresetsGraph.cxx:1030-1041 | a visible preset without generator and binary directory is accepted in a version 3 file and not in a version 2 file |
| `PresetInheritance.PresetGraph.constructor` | Source/cmCMakePresetsGraph.cxx:205-212 | the graph holds the given files and presets |
| `PresetInheritance.PresetGraph.VisitPreset` | Source/cmCMakePresetsGraph.cxx:121-203 | the in-place depth-first visit, with its by-value status map, ends; on success the preset and everything above it is settled and nothing in progress was disturbed; it succeeds whenever nothing at or above the preset is at fault |
| `PresetInheritance.PresetGraph.VisitAll` | Source/cmCMakePresetsGraph.cxx:214-219 | visiting all presets in an arbitrary order settles all of them, and succeeds if they all resolve |
| `PresetInheritance.PresetGraph.ComputePresetInheritance` | Source/cmCMakePresetsGraph.cxx:205-222 | succeeds if and only if names exist, files are reachable, there is no cycle and the field checks pass; then the mutated presets are the resolved presets computed from the original ones (conditions: if and only if nulls are harmless), solve the inheritance equations as they stand, and pass the checks, and every parent is there and reachable |
| `MacroLexer.LexIsFaithful` | Source/cmCMakePresetsGraph.cxx:693-769 | the tokens' source texts, followed by what an unclosed macro leaves, concatenate back to the input |
| `MacroLexer.RenderConcat` | Source/cmCMakePresetsGraph.cxx:693-769 | literals and macro values come out in token order and are not scanned again: the output of a concatenation is the concatenation of the outputs, the first failure deciding |
| `MacroLexer.RenderStops` | Source/cmCMakePresetsGraph.cxx:741-757 | the first macro that is not Ok decides what becomes of the text |
| `MacroLexer.LexFailedNamespace` | Source/cmCMakePresetsGraph.cxx:718-735 | an attempted namespace that turns out not to be one is literal text up to and including the character that ends it |
| `MacroLexer.LexMacro` | Source/cmCMakePresetsGraph.cxx:717-757 | `$ns{name}` with a valid namespace is one macro token, and what follows is read as if it stood alone |
| `MacroLexer.LexOpenMacro` | Source/cmCMakePresetsGraph.cxx:759-769 | a macro that is not closed leaves the text unfinished, which is an error |
| `MacroStages.EscapeRoundTrip` | Source/cmCMakePresetsGraph.cxx:693-769 | any text with each `$` written as `${dollar}` expands to the original text |
| `MacroStages.EscapedTextExpands` | Source/cmCMakePresetsGraph.cxx:839-859 | the same with the expanders of a preset, whose `${dollar}` comes from the graph's expander |
| `MacroStages.LexAppend` | Source/cmCMakePresetsGraph.cxx:693-769 | after a text that ends between tokens, more text is read as if it stood alone |
| `MacroStages.OtherNamespaceIsText` | Source/cmCMakePresetsGraph.cxx:224-243 | after a `$`, only nothing, `env`, `penv` and `vendor` make a macro; anything else up to a brace is text |
| `MacroStages.EveryStageAgrees` | Source/cmCMakePresetsGraph.cxx:669-680 | for an inert directory, whatever the immediate pass makes of a text, the full pass gives it the meaning it gives the original |
| `MacroStages.StagedIffInert` | Source/cmCMakePresetsGraph.cxx:669-769 | the immediate pass followed by the full pass gives every field text the meaning of the full pass alone if and only if the file version is below 12 or the directory expands to itself and ends between tokens |
| `MacroStages.NoDollarIsInert` | Source/cmCMakePresetsGraph.cxx:707-716 | a directory without `$` is inert |
| `MacroStages.StagedFieldsIff` | Source/cmCMakePresetsGraph.cxx:297-357 | for all fields of a preset together the two stages agree with the full pass, except if and only if some field leaves a macro open with nothing but immediate macros before it, and the first field that does not pass has an ignored macro as the first one that is not Ok |
| `MacroStages.LeftOpenIff` | Source/cmCMakePresetsGraph.cxx:669-680 | the immediate pass fails on a text if and only if the text leaves a macro open and all its other macros are immediate |
| `MacroStages.ResetIff` | Source/cmCMakePresetsGraph.cxx:297-357 | the field loop resets the preset if and only if some field's first macro that is not Ok is ignored and every earlier field passes |
| `MacroStages.FieldsExpanded` | Source/cmCMakePresetsGraph.cxx:297-357 | all fields are expanded if and only if all pass, and then each is replaced by its expansion or, if deferred, stays |
| `MacroStages.StagedFieldsDiffer` | Source/cmCMakePresetsGraph.cxx:297-357 | a concrete preset for which the two stages fail and the full pass alone resets |
| `MacroStages.PassesAgree` | Source/cmCMakePresetsGraphInternal.h:124-203 | the same equivalence for the expanders as they are really set up: immediate alone, then base, preset and environment expanders |
| `EnvironmentValues.ValuesSolve` | Source/cmCMakePresetsGraph.cxx:264-295 | the declarative values of the variables solve their defining equations: a variable has a value if and only if its original text expands using the values, and then its value is that expansion |
| `EnvironmentValues.WaitingForItself` | Source/cmCMakePresetsGraph.cxx:515-520 | a variable that is met while its own expansion is in progress has no value at any depth of unfolding |
| `EnvironmentValues.TextNotDeferred` | Source/cmCMakePresetsGraph.cxx:485-488 | with the environment expander in place no text is deferred |
| `EnvironmentValues.ProcessEnvironment` | Source/cmCMakePresetsGraph.cxx:282-291 | `$penv{name}` stands for the variable of the process environment, or for nothing if there is none, and so does `$env{name}` unless the preset gives the variable a value; without a name both are errors |
| `EnvironmentValues.PresetVariable` | Source/cmCMakePresetsGraph.cxx:269-280 | `$env{name}` stands for the value of the preset's variable when it has one |
| `EnvironmentValues.GraphMacros` | Source/cmCMakePresetsGraph.cxx:839-884 | what `${sourceDir}`, `${sourceParentDir}`, `${sourceDirName}`, `${dollar}`, `${hostSystemName}` and `${pathListSep}` stand for, and from which version on |
| `EnvironmentValues.PresetMacros` | Source/cmCMakePresetsGraphInternal.h:136-173 | what `${presetName}`, `${generator}` and `${fileDir}` stand for, and from which version on |
| `EnvironmentValues.ConfigurePresetName` | Source/cmCMakePresetsGraphInternal.h:146-155 | what `${configurePresetName}` stands for from version 13 on; an unknown macro is an error |
| `EnvironmentValues.VerdictExpanded` | Source/cmCMakePresetsGraph.cxx:473-491 | whether the whole environment expands does not depend on the order of the variables |
| `EnvironmentValues.AllHaveValuesIff` | Source/cmCMakePresetsGraph.cxx:264-294 | every variable expands if and only if all macros other than references expand by themselves and the `$env` references among variables with a value have no cycle; `$penv` references and null variables are not in that graph |
| `EnvironmentValues.CycleHasNoValue` | Source/cmCMakePresetsGraph.cxx:515-520 | a variable on a reference cycle has no value |
| `EnvironmentValues.NeverReset` | Source/cmCMakePresetsGraph.cxx:482-484 | without vendor macros the preset is never reset by its environment |
| `EnvironmentValues.StopsIff` | Source/cmCMakePresetsGraph.cxx:771-788 | a variable resets the preset if and only if its first macro that does not expand is a vendor macro, and fails it if and only if that macro is another one, or all expand and one is left open |
| `EnvironmentValues.SameVerdictIff` | Source/cmCMakePresetsGraph.cxx:473-491 | all orders of the variables give the same verdict if and only if there are not both a variable that stops at a vendor macro and one that stops otherwise |
| `EnvironmentValues.OrderIndependent` | Source/cmCMakePresetsGraph.cxx:473-491 | in particular, without vendor macros the verdict is the same for every order of the variables |
| `EnvironmentValues.OrderMatters` | Source/cmCMakePresetsGraph.cxx:771-788 | a concrete environment with a vendor macro met through another variable, whose verdict depends on the order |
| `MacroExpansion.Expansion.constructor` | Source/cmCMakePresetsGraph.cxx:455-471 | every variable starts with its original text and unvisited |
| `MacroExpansion.Expansion.VisitEnv` | Source/cmCMakePresetsGraph.cxx:511-529 | memoised expansion in place: the outcome is that of the original text, an already expanded variable is not expanded again, and on success the variable holds its declarative value |
| `MacroExpansion.Expansion.ExpandEnvironment` | Source/cmCMakePresetsGraph.cxx:264-294 | a reference to a variable with a text expands it on the spot and appends its value; anything else comes from the process environment |
| `MacroExpansion.Expansion.ExpandMacro` | Source/cmCMakePresetsGraph.cxx:771-788 | the first expander that does not ignore the macro decides; the outcome is the declarative one although expanding may mutate the environment |
| `MacroExpansion.Expansion.ExpandMacros` | Source/cmCMakePresetsGraph.cxx:693-769 | the three-state character loop computes the token-level meaning of the text, and leaves the text unchanged on any result but Ok |
| `MacroExpansion.Expansion.ExpandVariables` | Source/cmCMakePresetsGraph.cxx:460-491 | the loop over the environment gives the declarative verdict, and on success every variable holds the plain recursive unfolding of its original text |
| `PresetFiles.FinishFile` | Source/cmCMakePresetsGraphReadJSON.cxx:799-810 | popping a file whose includes are all read keeps the reading state: the file's reachable set is then exactly the closure of its includes, and it is on no cycle |
| `PresetFiles.MetAgain` | Source/cmCMakePresetsGraphReadJSON.cxx:524-536 | meeting a file in progress again means that the include relation has a cycle |
| `PresetFiles.NotRegistrable` | Source/cmCMakePresetsGraphReadJSON.cxx:341-366 | a file whose presets cannot be registered has an unnamed or unacceptable preset, or one that is declared twice |
| `PresetFiles.ReadIsWellFormed` | Source/cmCMakePresetsGraphReadJSON.cxx:516-811 | when everything is read, every file reached is in order, none reaches itself, no preset is declared twice, and the reachable sets and registered presets are exact |
| `PresetFiles.ReadInTerms` | Source/cmCMakePresetsGraphReadJSON.cxx:516-811 | what was read, in terms of the documents: every file is in order, what it includes, and for a user root the project's file, is read and reached by it and does not reach it, nothing else is read or reached, and no preset is declared twice |
| `PresetFiles.FittingFilesSuffice` | Source/cmCMakePresetsGraphReadJSON.cxx:516-811 | any files that fit together so are reason enough for a read to succeed |
| `PresetFiles.KeysAt` | Source/cmCMakePresetsGraphReadJSON.cxx:365 | the presets of a file are listed in order, behind those of the files read before it |
| `PresetFiles.Reader.constructor` | Source/cmCMakePresetsGraphReadJSON.cxx:516-522 | nothing is read yet |
| `PresetFiles.Reader.FindLoaded` | Source/cmCMakePresetsGraphReadJSON.cxx:524-536 | a path is found if and only if it names, under this or another path, a file already listed |
| `PresetFiles.Reader.RegisterPresets` | Source/cmCMakePresetsGraphReadJSON.cxx:335-368 | succeeds if and only if all presets are named and acceptable and none is registered yet; then exactly these are added, in order |
| `PresetFiles.Reader.OpenFile` | Source/cmCMakePresetsGraphReadJSON.cxx:623-749 | a new file is listed, in progress, reaches itself, and has its presets registered; failure means that the files are not well formed |
| `PresetFiles.Reader.IncludeFile` | Source/cmCMakePresetsGraphReadJSON.cxx:751-766 | after an include the reachable set of the file has grown by exactly what the included file reaches |
| `PresetFiles.Reader.ReadIncludesOf` | Source/cmCMakePresetsGraphReadJSON.cxx:776-807 | after the include loop, with the project file for a user root, all includes are read and accounted for |
| `PresetFiles.Reader.ReadJSONFile` | Source/cmCMakePresetsGraphReadJSON.cxx:516-811 | the recursion ends; on success the files in progress are restored and the file is finished; failure means a missing path or files that are not well formed |
| `PresetFiles.Reader.ReadRoot` | Source/cmCMakePresetsGraphReadJSON.cxx:516-811 | succeeds if and only if there are files that fit together, which is when every file reached exists and is in order, includes have no cycle and no preset is declared twice; then the files read are exactly those reached, among them the project's file for a user root, every `ReachableFiles` is exactly the reflexive-transitive closure, and the presets are exactly those declared |
| `PkgConfig.SelfRequirementForgotten` | Source/cmCMakePkgConfigCommand.cxx:1018-1023 | a package with an unmet requirement on itself cannot be imported by its own name but is imported when another package needs it |
| `PkgConfig.ImportableIff` | Source/cmCMakePkgConfigCommand.cxx:994-1024 | a request can be met if and only if there is a set of packages, with the one asked for in a fitting version, in which every requirement is bound by the caller, met by an existing target, or met by a package of the set |
| `PkgConfig.LonePackage` | Source/cmCMakePkgConfigCommand.cxx:599-652 | a package that requires nothing can be imported if and only if it is there and its version fits: an unreadable VERSION never does, EXACT asks for that version, or for the empty one without VERSION, and otherwise VERSION is a constraint |
| `PkgConfig.OneRequirement` | Source/cmCMakePkgConfigCommand.cxx:897-943 | a package with one requirement can be imported if and only if its version fits and the requirement is bound by the caller, or met by the target, or else the package, of that name |
| `PkgConfig.PushAllEntries` | Source/cmCMakePkgConfigCommand.cxx:897-943 | a requirement is recorded under a name if and only if it was before or is a pending one of this package |
| `PkgConfig.CheckPackageDependencies` | Source/cmCMakePkgConfigCommand.cxx:897-943 | succeeds if and only if every requirement on something provided, existing or imported is met; then exactly the pending ones are recorded |
| `PkgConfig.ImportPackage` | Source/cmCMakePkgConfigCommand.cxx:660-694 | returns the package if and only if it exists and meets every recorded requirement |
| `PkgConfig.RootImported` | Source/cmCMakePkgConfigCommand.cxx:997-1009 | the worklist invariant holds after the root package is read |
| `PkgConfig.NextImported` | Source/cmCMakePkgConfigCommand.cxx:1011-1024 | the worklist invariant is kept by every turn, for every package that might be picked |
| `PkgConfig.ImportPicked` | Source/cmCMakePkgConfigCommand.cxx:1011-1024 | one turn for an arbitrary pick either shows that the request cannot be met or keeps the invariant and lowers the lexicographic measure |
| `PkgConfig.Resolve` | Source/cmCMakePkgConfigCommand.cxx:994-1024 | for every pick order the worklist ends, succeeds if and only if packages that fit exist, a condition that does not mention the order, and imports exactly the packages reachable through requirements that are neither provided nor existing, the one asked for in a fitting version |
| `PkgConfig.LinkedAfter` | Source/cmCMakePkgConfigCommand.cxx:884-893 | the targets of a batch link only to targets bound by the caller, already there or created in the batch, whose versions meet the link's requirement unless it is on the target itself |
| `PkgConfig.NewTarget` | Source/cmCMakePkgConfigCommand.cxx:858-895 | a new target has its package's version and one link for every requirement, in order, to the target bound by the caller or else to the foreign target of that name; each requirement is met, and another new target requires it unless it was asked for |
| `PkgConfig.Makefile.constructor` | Source/cmCMakePkgConfigCommand.cxx:858-862 | no foreign target exists |
| `PkgConfig.Makefile.AddTargets` | Source/cmCMakePkgConfigCommand.cxx:1026-1028 | exactly one new target for each imported package; the others are untouched |
| `PkgConfig.Makefile.Populate` | Source/cmCMakePkgConfigCommand.cxx:1033-1056 | found if and only if the target was there or the request can be met; the new targets are exactly the needed packages, each with its version, one link per requirement and all requirements met, none of them bound by the caller; old ones are untouched, and every link of every target keeps leading to an acceptable target over any run of commands |
| `PatternTable.LazyIsSound` | Source/cmCachePatternTable.cxx:391-508 | every lazy match is a valid split of the name into the pattern's segments |
| `PatternTable.LazyIsCompleteIfGuarded` | Source/cmCachePatternTable.cxx:471-503 | nothing is lost by being lazy when every placeholder before the last segment has a fixed length or is followed by a text with a character it cannot stand for |
| `PatternTable.LazyLosesEarlyAnchors` | Source/cmCachePatternTable.cxx:489-503 | for one variable placeholder between two texts, an instance is found if and only if the text after the placeholder does not occur earlier in it |
| `PatternTable.FlagsTwice` | Source/cmCachePatternTable.cxx:489-503 | `CMAKE_A_FLAGS_FLAGS` is an instance of `CMAKE_<LANG>_FLAGS` and is not found |
| `PatternTable.MissedIsLost` | Source/cmCachePatternTable.cxx:471-503 | an instance, built from the segments, that a pattern with an unguarded placeholder does not find |
| `PatternTable.FoundIsInstance` | Source/cmCachePatternTable.cxx:391-508 | whatever the matcher finds is an instance of a well-formed pattern |
| `PatternTable.CompleteIffGuarded` | Source/cmCachePatternTable.cxx:391-508 | for every well-formed pattern, all its instances are found if and only if each placeholder is last, has a fixed length, or is followed by a text with a character it cannot stand for |
| `PatternTable.PlaceholdersFind` | Source/cmCachePatternTable.cxx:317-375 | each placeholder alone finds exactly the names it stands for: letters, digits and underscores after a letter, with hyphens for two of them, four digits or one digit |
| `PatternTable.PolicyPattern` | Source/cmCachePatternTable.cxx:442-469 | `CMP<NNNN>` finds exactly `CMP` and four digits |
| `PatternTable.MalformedFindNothing` | Source/cmCachePatternTable.cxx:412-440 | a placeholder that is not closed, not known or followed by another finds nothing |
| `PatternTable.LiteralEnd` | Source/cmCachePatternTable.cxx:399-402 | walks to the next placeholder or to the end |
| `PatternTable.TakeDigits` | Source/cmCachePatternTable.cxx:443-454 | a fixed-length placeholder takes exactly its digits |
| `PatternTable.TakeRest` | Source/cmCachePatternTable.cxx:481-488 | a last placeholder takes the rest if and only if the rest is a run of its class |
| `PatternTable.TakeUntil` | Source/cmCachePatternTable.cxx:489-503 | an anchored placeholder takes the shortest run that its anchor follows, or there is none |
| `PatternTable.MatchLast` | Source/cmCachePatternTable.cxx:436-460 | a last placeholder decides the match |
| `PatternTable.MatchAnchored` | Source/cmCachePatternTable.cxx:442-503 | a placeholder with an anchor reduces the match to the rest of the pattern |
| `PatternTable.MatchPlaceholder` | Source/cmCachePatternTable.cxx:412-504 | a placeholder segment reduces the match to the rest of the pattern, or there is no match |
| `PatternTable.TryMatch` | Source/cmCachePatternTable.cxx:391-508 | true if and only if the pattern is well formed and the name matches it lazily; no cursor passes the end of the input |
| `PatternTable.Match` | Source/cmCachePatternTable.cxx:512-521 | the first entry in table order that matches, or none if none does |
| `KeywordMap.LowerBound` | Source/cmArgumentParser.cxx:18-20 | bisection finds the place that separates the smaller names from the others |
| `KeywordMap.Find` | Source/cmArgumentParser.cxx:26-32 | finds the action bound to a name, if any |
| `KeywordMap.Emplace` | Source/cmArgumentParser.cxx:15-24 | the vector stays sorted and gains the name if it is new; an existing binding is not replaced |
| `ArgumentParser.SplitIsMaximal` | Source/cmArgumentParser.h:265-284 | the split at keywords is into maximal runs: put together it gives the arguments back, every part starts with a keyword and no run contains one |
| `ArgumentParser.StepTracks` | Source/cmArgumentParser.cxx:155-205 | consuming one more argument keeps the parser's state equal to what splitting the arguments so far says |
| `ArgumentParser.ParsedList` | Source/cmArgumentParser.cxx:110-128 | after a parse a list-bound keyword holds the concatenation, over its occurrences, of the maximal following runs of other arguments |
| `ArgumentParser.ParsedValues` | Source/cmArgumentParser.cxx:60-153 | after a parse a flag is set if and only if its keyword occurs, a text is the first argument of the last run that has one, and a list of lists holds one run per occurrence |
| `ArgumentParser.ParsedMissing` | Source/cmArgumentParser.cxx:207-223 | after a parse a missing value is reported for a keyword if and only if some occurrence is followed by fewer other arguments than its binding requires, or, under the empty name, if the trailing binding was given too few |
| `ArgumentParser.ParsedEmpty` | Source/cmArgumentParser.cxx:86-98 | after a parse an empty value is reported for a keyword if and only if it wants a text that is not empty and some occurrence is followed by an empty argument, or, under the empty name, for the trailing binding |
| `ArgumentParser.ParsedPositions` | Source/cmArgumentParser.cxx:172-177 | after a parse a position is filled if and only if it is bound, an argument stands there, no keyword comes up to it and no trailing binding has taken over before, and it is filled with that argument |
| `ArgumentParser.ParsedTrailing` | Source/cmArgumentParser.cxx:179-200 | after a parse a trailing binding holds what the arguments from the first unbound position up to the first keyword make of its value |
| `ArgumentParser.LeftUnparsed` | Source/cmArgumentParser.cxx:190-204 | a flag leaves everything after it unparsed, a text everything but the first argument, a list nothing |
| `ArgumentParser.ArgumentsAccounted` | Source/cmArgumentParser.cxx:155-205 | as multisets, the arguments are exactly the keywords, the arguments at positions, the taken values, the unparsed arguments and what the trailing binding took or swallowed; those at positions are where they stand |
| `ArgumentParser.TrailingFlagSwallows` | Source/cmArgumentParser.cxx:179-187 | with a trailing flag only, a single argument is found nowhere afterwards |
| `ArgumentParser.UnparsedInOrder` | Source/cmArgumentParser.cxx:202-204 | the unparsed arguments are an ordered subsequence of the input |
| `ArgumentParser.Instance.constructor` | Source/cmArgumentParser.h:178-196 | the initial state |
| `ArgumentParser.Instance.Finish` | Source/cmArgumentParser.cxx:207-223 | turns a state that tracks the arguments into what a parse of them must leave: the last keyword's missing values are reported |
| `ArgumentParser.Instance.Bind` | Source/cmArgumentParser.cxx:53-153 | makes the owner's value that after one more occurrence with an empty run, and the binding the current one |
| `ArgumentParser.Instance.Take` | Source/cmArgumentParser.cxx:190-200 | makes the value that after a run into that after the run with the argument at its end |
| `ArgumentParser.Instance.Consume` | Source/cmArgumentParser.cxx:155-205 | the argument goes to a keyword, a position, a value, the unparsed arguments or a trailing flag, at most one owner's value changes, and what the split at keywords says goes on to hold |
| `ArgumentParser.OnePlace` | Source/cmArgumentParser.cxx:155-205 | the places an argument can go to exclude each other |
| `ArgumentParser.PositionIsFree` | Source/cmArgumentParser.cxx:172-177 | the position of the next argument is never taken already |
| `ArgumentParser.Instance.Parse` | Source/cmArgumentParser.h:265-284 | one pass over the arguments leaves exactly what the split at keywords says: values, positions, unparsed arguments, errors and parsed keywords |
| `Algorithms.KeptAndRemoved` | Source/cmAlgorithms.h:73-95 | kept and removed elements together are the input as a multiset |
| `Algorithms.Reverse` | Source/cmAlgorithms.h:24 | swapping from the ends inwards mirrors a block and leaves everything else where it is |
| `Algorithms.Rotate` | Source/cmAlgorithms.h:19-27 | three reversals in place exchange two adjacent blocks; returns where the first one then starts |
| `Algorithms.RemoveN` | Source/cmAlgorithms.h:31-37 | moves the first elements of a block to its end |
| `Algorithms.RotateOut` | Source/cmAlgorithms.h:83-94 | the loop over the listed indices moves the block of removed elements to the end, the kept ones staying in order |
| `Algorithms.RemoveIndices` | Source/cmAlgorithms.h:73-95 | an element between the listed indices moves down by the number of listed indices before it, the listed ones stand at the end in order, and the returned position separates them; the range is a permutation of the input |
| `Algorithms.FirstsMeaning` | Source/cmAlgorithms.h:104-137 | first occurrences: the same elements, each once |
| `Algorithms.FirstsInOrder` | Source/cmAlgorithms.h:104-137 | they stand in the order of their first occurrences |
| `Algorithms.RemoveDuplicates` | Source/cmAlgorithms.h:104-137 | before the returned position are exactly the first occurrences, in order: all elements, each once |
| `CacheHelp.OutputHelpString` | Source/cmCacheManager.cxx:407-426 | the wrapping loop writes the text's pieces, one per line, cut at the end, before newlines and before spaces after 60 characters |
| `CacheHelp.ChunksCover` | Source/cmCacheManager.cxx:413-425 | the pieces put together are the text, and each has a newline at most at its start, so that it makes a single line |
| `CacheHelp.ChunksWrap` | Source/cmCacheManager.cxx:413-415 | no piece goes on past a space after 60 characters, and the next one starts with a newline, or with a space if this one is that long |
| `CacheHelp.LoadHelp` | Source/cmCacheManager.cxx:71-83 | the reader's help loop puts the lines together and stops at the first line that is not a help line |
| `CacheHelp.HelpReads` | Source/cmCacheManager.cxx:71-83 | the reader takes exactly the lines of a written help text and stops at the line after it |
| `CacheHelp.HelpRoundTrip` | Source/cmCacheManager.cxx:407-426 | a help text is read back as it was written if and only if it has no null character, does not start with a literal backslash-n, and no written line ends in a carriage return |
| `CacheHelp.HelpWithoutReturns` | Source/cmCacheManager.cxx:407-426 | every text without carriage returns and null characters that does not start with a literal backslash-n is read back |
| `CacheHelp.HelpIsWritten` | Source/cmCacheManager.cxx:407-426 | two short texts as they are written |
| `CacheLine.ValueRoundTrip` | Source/cmCacheManager.cxx:384-405 | a value without newlines is read back if and only if it has no null character, no carriage return at its end and is not in single quotes |
| `CacheLine.QuotedLost` | Source/cmCacheManager.cxx:374-382 | a key that is written in double quotes and contains one is never read back, whatever the parser takes the line for |
| `CacheLine.PlainLost` | Source/cmState.cxx:1190-1225 | a key written as it is is never read back when it contains an equals sign or the line is taken for one with a quoted key |
| `CacheLine.LineRoundTrip` | Source/cmState.cxx:1190-1225 | parsing a written line gives key, type and value up to its first newline back if and only if the key has no null or newline, and no double quote if quoted, no equals sign otherwise, the line is not taken for a quoted one, and the value survives |
| `CacheLine.TypesRead` | Source/cmState.cxx:86-120 | `key:TYPE=value` has the type of that name, and an unknown name means a string |
| `CacheLine.UntypedLine` | Source/cmState.cxx:1160-1187 | `key=value` and `"key"=value` are entries without a type |
| `CacheLine.BlanksAfter` | Source/cmState.cxx:1195-1200 | blanks after a value are dropped, and a value of nothing but blanks stays |
| `CacheLine.PlainLineIsWritten` | Source/cmCacheManager.cxx:303-306 | a line with a plain key as it is written |
| `CacheLine.ColonLineIsWritten` | Source/cmCacheManager.cxx:374-382 | a key with a colon is written in double quotes |
| `CacheLine.BlankLineIsWritten` | Source/cmCacheManager.cxx:396-405 | a value with a blank at its end is written in single quotes |
| `CacheRecords.OwnersOf` | Source/cmCacheManager.cxx:169-195 | a key reads as property `p` of a named entry if and only if it is that property's key |
| `CacheRecords.ExternalsEffect` | Source/cmCacheManager.cxx:287-311 | after the external records the cache holds exactly the visible entries, without properties |
| `CacheRecords.HiddensEffect` | Source/cmCacheManager.cxx:319-338 | after the property and internal records of any number of keys an entry is what those keys make of it: its own properties, or those of internal entries that look like its properties |
| `CacheRecords.Reload` | Source/cmCacheManager.cxx:287-338 | the state of every entry that stands after saving and loading |
| `CacheRecords.Fall` | Source/cmCacheManager.cxx:169-195 | an internal entry whose key looks like a property's does not come back, and a visible entry overrun by a property of the nameless entry comes back internal |
| `CacheRecords.NothingNew` | Source/cmCacheManager.cxx:169-195 | nothing else becomes an initialised entry |
| `CacheRecords.ComesBackIff` | Source/cmCacheManager.cxx:84-107 | type, value up to the first newline, help text and properties of an initialised entry come back if and only if its help text survives, it stands, and no property is claimed by another entry, overwritten or written as an entry |
| `CacheRecords.WithoutPropertyKeys` | Source/cmCacheManager.cxx:84-107 | when no internal key ends like a property's and every key is named, every visible entry comes back, and an internal one if and only if it has no properties |
| `CacheRecords.PropertyKeysAre` | Source/cmCacheManager.cxx:166-167 | the keys under which the properties are saved |
| `CacheRecords.MissingHelp` | Source/cmCacheManager.cxx:298-302 | a visible entry without a help text is saved with a standard one, an internal one without |
| `CacheRecords.RecordsAre` | Source/cmCacheManager.cxx:287-338 | the saved records are, for each initialised entry, its own and one for each of its properties, written out with keys and help texts |
| `CacheRecords.StoreProperty` | Source/cmCacheManager.cxx:178-192 | a property is stored with its entry, which is made, uninitialised, if it is not there |
| `CacheRecords.StoreEntry` | Source/cmCacheManager.cxx:104-107 | any other record becomes an initialised entry without properties, in place of what was there |
| `CacheFile.RecordRoundTrip` | Source/cmCacheManager.cxx:53-107 | a written record is what is read first from the text that starts with it if and only if its line is readable and, without a help text, does not start with a blank or `#` |
| `CacheFile.OrdinaryIsLegible` | Source/cmCacheManager.cxx:374-382 | an entry whose key is named, starts with neither a blank nor `#` and has no quote, colon, equals sign, newline or null character is legible whenever its value survives |
| `CacheFile.ItemsLoad` | Source/cmCacheManager.cxx:53-115 | loading a text of comments, blank lines and records that end where their texts end meets the records in order, in any mode |
| `CacheFile.SaveThenLoad` | Source/cmCacheManager.cxx:219-339 | loading a saved file, in any mode, meets the written records one by one in their order, legible or not, as long as every record ends where its text ends |
| `CacheFile.SaveThenLoadLegible` | Source/cmCacheManager.cxx:219-339 | when all records are legible, loading reports no error and gives what storing the written records in order gives |
| `CacheFile.MeetAllSlot` | Source/cmCacheManager.cxx:53-115 | an entry that no illegible record concerns, neither by what it is nor by what it is read as, is what storing all records as they were written makes of it |
| `CacheFile.LegibleIsReadable` | Source/cmCacheManager.cxx:53-107 | a legible record ends where its text ends, is parsed, and disturbs no entry |
| `CacheFile.MeetAllErrors` | Source/cmCacheManager.cxx:110-114 | the errors are exactly the lines that cannot be parsed |
| `CacheFile.ForeignRecord` | Source/cmCacheManager.cxx:86-108 | of another project's cache an entry is stored unless it is excluded, or internal and not included; it becomes internal, with a help text that names the file, and no other entry changes |
| `CacheFile.OwnRecord` | Source/cmCacheManager.cxx:86-108 | of the project's own cache an entry is stored as it is unless it is excluded |
| `CacheFile.LeadingBlanks` | Source/cmCacheManager.cxx:60-70 | blanks before a line are skipped, and so are blank lines and comments |
| `CacheManager.OutputKey` | Source/cmCacheManager.cxx:374-382 | a line that starts with what is written is never a help text, and is parsed as an entry of the key if and only if the key can be kept |
| `CacheManager.OutputValue` | Source/cmCacheManager.cxx:384-405 | what is seen of the written value is read as the value up to its first newline if and only if that can be kept |
| `CacheManager.WriteRecord` | Source/cmCacheManager.cxx:297-309 | writes the record text that `CacheFile.RecordRoundTrip` is about, and the warning after it |
| `CacheManager.SkipLeading` | Source/cmCacheManager.cxx:60-66 | the loop that drops the blanks a line starts with |
| `CacheManager.CacheManager.constructor` | Source/cmCacheManager.cxx:31-39 | an empty cache |
| `CacheManager.CacheManager.WritePropertyEntries` | Source/cmCacheManager.cxx:197-217 | the records of the properties that are set, in their fixed order |
| `CacheManager.CacheManager.WriteExternals` | Source/cmCacheManager.cxx:287-311 | one record for each initialised visible entry, in key order |
| `CacheManager.CacheManager.WriteHiddens` | Source/cmCacheManager.cxx:319-338 | for each initialised entry its property records, and then its own if it is internal |
| `CacheManager.CacheManager.SaveCache` | Source/cmCacheManager.cxx:219-339 | the cache gets the versions and the directory as entries and is otherwise unchanged, and the external records are written before all others, with comments between them |
| `CacheManager.CacheManager.ReadPropertyEntry` | Source/cmCacheManager.cxx:169-195 | stores a property with its entry, made if need be; true if and only if the record is that of a property |
| `CacheManager.CacheManager.LoadEntry` | Source/cmCacheManager.cxx:84-115 | stores, filters, imports or reports one entry |
| `CacheManager.CacheManager.LoadCache` | Source/cmCacheManager.cxx:31-115 | the loading loop computes the meaning of the text as a sequence of records |
| `CacheManager.EntryComesBackIff` | Source/cmCacheManager.cxx:219-339 | after saving and loading, the errors are the unparsable lines, and an initialised entry other than the bookkeeping ones that no illegible record concerns comes back if and only if the condition of `ComesBackIff` holds |
| `CacheManager.InternalEntriesLoseProperties` | Source/cmCacheManager.cxx:104-107 | an internal entry with a property does not come back: its own record overwrites what the property's record stored |
| `Base32.BlockRoundTrip` | Source/cmBase32.cxx:15-33 | the five bytes of a block are recovered from its eight digits, each of which is below 32 |
| `Base32.DigitsOfValue` | Source/cmBase32.cxx:15-33 | the digits are the eight base-32 digits of the block's 40-bit big-endian value |
| `Base32.DroppedAreZero` | Source/cmBase32.cxx:57-83 | the digits left out of a last block are zero |
| `Base32.EncodedLength` | Source/cmBase32.cxx:39-93 | 8*ceil(n/5) characters with padding, ceil(8n/5) without |
| `Base32.EncodeCharValue` | Source/cmBase32.cxx:7-13 | the alphabet is the letters in order, then the digits from 2 on |
| `Base32.PaddingAtEnd` | Source/cmBase32.cxx:67-89 | the padded encoding is the unpadded one followed by six, four, three, one or no `=`, depending on the length of the last block |
| `Base32.ShortExample` | Source/cmBase32.cxx:39-93 | "f" is `MY======` |
| `Base32.BlockExample` | Source/cmBase32.cxx:39-93 | "fooba" is `MZXW6YTB` |
| `Base32.RoundTrip` | Source/cmBase32.cxx:39-93 | decoding by section 6 of RFC 4648 returns every byte sequence, padded or not |
| `Base32.EncodeTail` | Source/cmBase32.cxx:55-90 | the last block is filled up with zeros, its spare digits cut off and replaced by padding if asked for |
| `Base32.EncodeString` | Source/cmBase32.cxx:39-93 | the block loop computes the encoding that the lemmas are about |

## Left out

- Build, test, package and workflow presets: their fields are inherited by the same helpers as those of configure presets.
- JSON decoding, version checks and error texts: a file is decoded data with a flag that says whether it is acceptable, and a preset with a flag that says whether its own checks and immediate macros pass.
- The presets of a file are one list with one order; in the program there is one list and one order for each kind of preset.
- Paths: a relative include is resolved before the model starts, and the includes of a file do not depend on the path under which it was found.
- Evaluation of conditions, listing of presets, and the macros' values that come from the system (directories, host name, process environment), which are parameters.
- pkg-config parsing and the comparison of versions: packages are a finite map, and whether a version meets a requirement is an uninterpreted predicate. Flags, directories and options of targets are not modelled.
- The caller's requirement that is recorded in a link of the model is not part of the program's link; it is there to state that the link's version is acceptable.
- Sub-parsers, callback bindings, and the callback for missing values of the argument parser. Positions are a set, not a sorted vector.
- The binary search and the rotation of the C++ library, which are written out as a bisection and as three reversals; elements that are moved from keep their values.
- The literal rows of the pattern and documentation tables.
- The text of the comments between cache records, which is any text of comment lines; the properties of an entry other than its help text, ADVANCED, MODIFIED and STRINGS; the checks on version and directory after loading; the file system.
- CacheFile.SaveThenLoad: not for keys with a newline, nor for an entry without help text whose key is blanks followed by `//`, because what follows such a line in the file is then read as part of it.
- CacheManager.EntryComesBackIff: an entry that an illegible record is read as is left out, because what then becomes of it depends on that record.
- Everything else in CMake: generators, the language, file commands, linking, testing and packaging.
