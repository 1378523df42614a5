# line_profiler: the logic around the timing engine, in Dafny

This project models the parts of `line_profiler` and its `kernprof` front end that sit around the compiled line-timing engine, and proves properties of them:

- **kernprof's profiler switch.** `ContextualProfile.enable_by_count` / `disable_by_count` keep a nesting counter. The wrapped profiler is switched on at 0→1 and off at 1→0.
- **kernprof's `RepeatedTimer`.** It dumps statistics every `interval`. The next deadline is counted from the previous deadline, so firings do not drift.
- **kernprof's `-m` pre-parser.** `pre_parse_single_arg_directive` splits an argument list at the first `-m` before the `--` barrier.
- **kernprof's `_restore_list`** context manager, and kernprof's default output-file name.
- **Dotted paths.** `eager_preimports.py` provides:
  - `is_dotted_path` and `split_dotted_path`, which finds the longest importable prefix;
  - `propose_names`, an endless stream of candidate identifiers;
  - `LoadedNameFinder`, which collects the free names an expression loads;
  - `resolve_profiling_targets`, which groups targets by module;
  - the checks and fresh-name choices of `write_eager_import_module`.
- **Environment switches.** `_boolean_environ` and the switches `line_profiler._diagnostics` derives from the environment, including `USE_LEGACY_TRACE`.
- **autoprofile.** The `restore_dict` context class inside `line_profiler.autoprofile.autoprofile.run`, and `run`'s module-name check.

Code that changes objects in place is modelled as Dafny classes whose methods are proved against specification functions:

- `ContextualProfile`, `RepeatedTimer` and `LoadedNameFinder`;
- the lists and dicts restored by `_restore_list` and `restore_dict`.

Code that only computes is modelled as functions with lemmas. The loops of `split_dotted_path`, `propose_names`' consumer and `resolve_profiling_targets` are methods with loop invariants, each proved equal to a specification function.

Three things become parameters:

- the import system: whether a module can be found (`importable`) and the submodules of a package (`walk`);
- `ast.parse`: `parse`, returning the AST or nothing;
- the environment and the availability of `sys.monitoring`.

Files:

| file | module(s) | models |
|---|---|---|
| `wrappers.dfy` | `Wrappers` | `Option`, `Result` |
| `strings.dfy` | `Strings` | `str.split`/`join`, `str(int)`, `casefold`, `isidentifier`, `iskeyword`, `isspace`, `splitlines`, `<` on `str` |
| `kernprof_enable.dfy` | `KernprofEnable` | the by-count switch |
| `kernprof_timer.dfy` | `KernprofTimer` | `RepeatedTimer` |
| `kernprof_args.dfy` | `KernprofArgs`, `KernprofArgsExamples` | the `-m` pre-parser, output-file naming |
| `kernprof_restore.dfy` | `KernprofRestore` | `_restore_list` |
| `autoprofile.dfy` | `AutoProfile` | `restore_dict`, the `as_module` check |
| `diagnostics.dfy` | `Diagnostics` | `_boolean_environ`, the module switches |
| `dotted_paths.dfy` | `DottedPaths`, `DottedPathsExamples` | `is_dotted_path`, `split_dotted_path` |
| `names.dfy` | `NameProposals`, `NameProposalsExamples` | `propose_names`, first free name |
| `name_finder.dfy` | `NameFinder`, `NameFinderExamples` | `LoadedNameFinder` |
| `resolve.dfy` | `ResolveTargets` | `resolve_profiling_targets` |
| `eager_import.dfy` | `EagerImport` | checks and name choices of `write_eager_import_module` |

## Model

| member | source | states |
|---|---|---|
| KernprofEnable.ContextualProfile.EnableByCount | kernprof.py:133-139 | the count goes up by exactly one; `enable` is called exactly when the count was 0 |
| KernprofEnable.ContextualProfile.DisableByCount | kernprof.py:140-147 | the count goes down by one if positive; at 0 nothing changes; `disable` is called exactly on the 1→0 step |
| KernprofEnable.Step | kernprof.py:133-147 | one request calls at most once: `enable` exactly for an enable at count 0, `disable` exactly for a disable at count 1; the profiler is then on exactly when the new count is positive |
| KernprofEnable.Run | kernprof.py:133-147 | a sequence of requests makes at most one call per request and moves the count by at most one per request |
| KernprofEnable.RunEnables | kernprof.py:133-139 | `n` enables from `count` raise it by `n` and call `enable` once, only if starting from 0 |
| KernprofEnable.RunDisables | kernprof.py:140-147 | `n ≤ count` disables lower it by `n` and call `disable` once, only if reaching 0 |
| KernprofEnable.NestedEnableDisable | kernprof.py:133-147 | `n` enables then `n` disables from 0 end at 0, with exactly one `enable` then one `disable` call |
| KernprofEnable.DisableAtZero | kernprof.py:144-147 | disabling at 0, any number of times, changes nothing and calls nothing |
| KernprofEnable.OnIffPositive | kernprof.py:133-147 | for any request sequence, the calls alternate enable/disable, and the profiler ends up on exactly when the count is positive |
| KernprofEnable.RunAppend | kernprof.py:133-147 | running two request sequences one after the other composes counts and call logs |
| KernprofEnable.CallsStayAlternating | kernprof.py:136-147 | a call that differs from the last one keeps the call log alternating |
| KernprofTimer.RepeatedTimer.constructor | kernprof.py:163-171 | records `now`, starts the timer: next deadline `now + interval`, running, nothing dumped |
| KernprofTimer.RepeatedTimer.Start | kernprof.py:177-183 | no-op on the schedule while running; otherwise the deadline moves one interval on from the previous deadline and the timer is armed |
| KernprofTimer.RepeatedTimer.Run | kernprof.py:172-176 | clears `is_running` and re-arms one interval later before dumping `outfile` once |
| KernprofTimer.RepeatedTimer.Stop | kernprof.py:184-186 | disarms the timer; deadline and dumps unchanged |
| KernprofTimer.Apply | kernprof.py:172-186 | one event leaves the deadline or moves it one interval on, and only when it leaves the timer running; `stop` disarms without moving it; a running timer stays running unless stopped |
| KernprofTimer.FiringsAdvance | kernprof.py:172-182 | from a running schedule, `k` firings move the deadline by exactly `k * interval` |
| KernprofTimer.NoDrift | kernprof.py:163-182 | after `k` firings the deadline is `t0 + (k + 1) * interval`, whatever the firing times |
| KernprofTimer.TimesDoNotMatter | kernprof.py:172-186 | the schedule depends only on the kinds of events, never on the clock readings |
| KernprofTimer.StartIsGuarded | kernprof.py:177-183 | `start` on a running timer changes nothing; stop then start re-arms one interval after the old deadline |
| KernprofArgs.IndexOf | kernprof.py:309-313 | `list.index`: the first position of the element, or none |
| KernprofArgs.PreParseIsDirective | kernprof.py:271-328 | the pre-parser equals the independent description `Directive` (cut at the first flag before the first separator) |
| KernprofArgs.AsWrittenAgreesOnDefault | kernprof.py:306-328 | with the default separator `--`, the code as written and the corrected one agree |
| KernprofArgs.PreParse | kernprof.py:271-328 | the pre-parser with `sep` passed on: on success, `pre + [flag, arg] + post == args` (or `pre + post == args` without a flag) |
| KernprofArgs.PreParseAsWritten | kernprof.py:306-328 | the pre-parser as written, where the inner call falls back to `'--'`: on success it too loses and reorders nothing |
| KernprofArgs.DirectiveRoundTrip | kernprof.py:271-305 | the behaviour the docstring describes (`Directive`) also gives back the input when the parts are put together again |
| KernprofArgs.PreParseFirstFlagBeforeBarrier | kernprof.py:309-321 | only the first flag before the first separator is consumed; no flag is left before it in `pre` |
| KernprofArgs.PreParseNoFlag | kernprof.py:314-327 | with no flag before the separator, the result is `(args[..sep+1], None, rest)`, or `(args, None, [])` without a separator |
| KernprofArgs.PreParseErrorCase | kernprof.py:322-327 | `ValueError` exactly when the first flag is the last element of the scanned segment |
| KernprofArgs.Basename | kernprof.py:501 | POSIX `os.path.basename`: the longest suffix of the path without `/` |
| KernprofArgs.Outfile | kernprof.py:499-501 | the output file name is never empty, and it contains a `/` only when it is the `--outfile` value given |
| KernprofArgs.OutfileDefault | kernprof.py:499-501 | without an output file, the name contains no `/`, starts with the script's basename and is exactly 6 characters longer (`.lprof`, in line-by-line mode) or 5 (`.prof`, otherwise), ending in that extension; so it is `basename + "." + ext` |
| KernprofArgs.OutfileExplicit | kernprof.py:499 | an explicit non-empty output file is kept |
| KernprofArgsExamples.PreParseDoctestsNormal | kernprof.py:284-289 | the doctests of normal parsing |
| KernprofArgsExamples.PreParseDoctestError | kernprof.py:293-296 | the doctest of the flag without its argument |
| KernprofArgsExamples.PreParseDoctestBarrier | kernprof.py:300-301 | the doctest of the barrier with no flag before it |
| KernprofArgsExamples.PreParseDoctestFlagBeforeBarrier | kernprof.py:302-304 | the doctest of a flag before the barrier |
| KernprofArgsExamples.AsWrittenFailsOnCustomSeparator | kernprof.py:316 | with `sep='++'` and a `--` before it, the code as written fails its own assertion where the corrected version succeeds |
| KernprofRestore.PyList.Append | kernprof.py:255-256 | `lst.append(x)` adds `x` at the end, in place |
| KernprofRestore.PyList.AssignSlice | kernprof.py:257-258 | `lst[:] = xs` replaces the contents in place |
| KernprofRestore.RestoreList.Enter | kernprof.py:266-267 | the copy taken on entry equals the list; the list is untouched |
| KernprofRestore.RestoreList.Exit | kernprof.py:266-268 | on normal exit the same list object holds the saved contents again; if the block raised, nothing is restored |
| AutoProfile.PyDict.SetItem | line_profiler/autoprofile/autoprofile.py:111-113 | `d[k] = v` updates the dict in place |
| AutoProfile.PyDict.DelItem | line_profiler/autoprofile/autoprofile.py:111-113 | `del d[k]` removes the key in place, reporting whether it was there |
| AutoProfile.RestoreDict.constructor | line_profiler/autoprofile/autoprofile.py:101-104 | stores `d` and `target`, with no snapshot |
| AutoProfile.RestoreDict.Enter | line_profiler/autoprofile/autoprofile.py:106-109 | fails its assertion if already entered; otherwise snapshots `d` and returns `target` |
| AutoProfile.RestoreDict.Exit | line_profiler/autoprofile/autoprofile.py:111-114 | `d` equals the snapshot again, in place, and the snapshot is cleared; without a snapshot `d` is emptied and `TypeError` is raised |
| AutoProfile.ModuleNameFor | line_profiler/autoprofile/autoprofile.py:116-121 | with `as_module`, `ModuleNotFoundError` exactly when no non-empty module name resolves; otherwise the resolved name |
| AutoProfile.RestoreDictExample | line_profiler/autoprofile/autoprofile.py:100-114 | keys added, changed or removed inside the block are all undone |
| Diagnostics.BooleanEnviron | line_profiler/_diagnostics.py:11-81 | the result differs from the default exactly when the variable is set and its folded value equals the fold of an entry of the non-default set (`falsy` for a `True` default, `truey` otherwise) |
| Diagnostics.UnsetGivesDefault | line_profiler/_diagnostics.py:74-77 | an unset variable gives the default |
| Diagnostics.DefaultFalseDecision | line_profiler/_diagnostics.py:78-81 | with a `False` default, the result is true exactly when the folded value is a folded truey entry |
| Diagnostics.DefaultTrueDecision | line_profiler/_diagnostics.py:78-81 | with a `True` default, the result is false exactly when the folded value is a folded falsy entry |
| Diagnostics.OnlyNonDefaultSetConsulted | line_profiler/_diagnostics.py:78-81 | only the set of the non-default outcome matters |
| Diagnostics.BooleanEnvironDoctests | line_profiler/_diagnostics.py:60-70 | the doctests with `truey=('foo',)` and `falsy=('bar',)` |
| Diagnostics.FoldAll | line_profiler/_diagnostics.py:79 | the set of case-folded entries is no larger than the set of entries, and an entry already in lower case is in it unchanged |
| Diagnostics.FoldAllLowerCase | line_profiler/_diagnostics.py:11-81 | folding leaves a set of lower-case entries unchanged |
| Diagnostics.DefaultTrueyMembership | line_profiler/_diagnostics.py:11-81 | a value matches a folded default truey entry exactly when it is one |
| Diagnostics.LegacyAliasesMembership | line_profiler/_diagnostics.py:96-101 | the same for the legacy-core aliases |
| Diagnostics.UseLegacyTrace | line_profiler/_diagnostics.py:93-101 | `USE_LEGACY_TRACE` is true whenever `sys.monitoring` is missing; otherwise exactly when `LINE_PROFILER_CORE` names a legacy alias |
| Diagnostics.Flag | line_profiler/_diagnostics.py:85-92 | a switch is on exactly when its variable is set and its folded value is one of the folded default truey entries (`1`, `on`, `true`, `yes` in any case) |
| Diagnostics.ReadSwitches | line_profiler/_diagnostics.py:85-101 | each of the six `kernprof` and engine switches is on exactly when its own variable is set to a truey value; `USE_LEGACY_TRACE` is on exactly when `sys.monitoring` is missing or `LINE_PROFILER_CORE` names a legacy alias |
| Strings.JoinSplit | line_profiler/autoprofile/eager_preimports.py:35 | joining the pieces of a split gives back the string |
| Strings.SplitJoin | line_profiler/autoprofile/eager_preimports.py:35 | splitting a join of separator-free pieces gives back the pieces |
| Strings.LineCount | line_profiler/autoprofile/eager_preimports.py:450 | `len(s.splitlines())`: 0 for the empty string, at least 1 otherwise |
| Strings.NatToStringLength | line_profiler/autoprofile/eager_preimports.py:231 | `str(n)` for `n ≥ 10^k` has more than `k` digits |
| Strings.StrLtTotal | line_profiler/autoprofile/eager_preimports.py:314 | Python's string order is total |
| Strings.StrLtTransitive | line_profiler/autoprofile/eager_preimports.py:314 | Python's string order is transitive |
| DottedPaths.IsDottedPath | line_profiler/autoprofile/eager_preimports.py:23-37 | `is_dotted_path(obj)` exactly when `obj` is a string that is the period-join of a non-empty list of identifiers that are not keywords |
| DottedPaths.SplitSpec | line_profiler/autoprofile/eager_preimports.py:112-133 | the module returned is importable; on `ModuleNotFoundError` one candidate is listed per chunk, and none of them is importable |
| DottedPaths.DottedIffJoinOfChunks | line_profiler/autoprofile/eager_preimports.py:32-37 | a string is a dotted path exactly when it is a period-join of identifiers that are not keywords |
| DottedPaths.ChunksHaveNoPeriod | line_profiler/autoprofile/eager_preimports.py:35-36 | identifiers contain no period |
| DottedPaths.SplitDottedPath | line_profiler/autoprofile/eager_preimports.py:113-133 | the loop over prefixes, longest first, returns exactly the outcome of `SplitSpec` |
| DottedPaths.SplitTypeError | line_profiler/autoprofile/eager_preimports.py:113-115 | `TypeError` exactly for a non-dotted path |
| DottedPaths.SplitSuccess | line_profiler/autoprofile/eager_preimports.py:117-130 | the module is a non-empty importable prefix and no longer prefix is importable; the target is `None` exactly when the module is the whole path, and otherwise `module + '.' + target == path` |
| DottedPaths.SplitNotFound | line_profiler/autoprofile/eager_preimports.py:127-133 | `ModuleNotFoundError` exactly when no prefix is importable, listing every prefix longest first |
| DottedPaths.PrefixRestRoundTrip | line_profiler/autoprofile/eager_preimports.py:121-125 | prefix and rest of a chunk list join back into the path |
| DottedPathsExamples.IsDottedPathAccepts | line_profiler/autoprofile/eager_preimports.py:27-28 | `'foo'` and `'foo.bar'` are dotted paths |
| DottedPathsExamples.IsDottedPathRejectsSpaces | line_profiler/autoprofile/eager_preimports.py:26-29 | non-strings and `'not an identifier'` are not |
| DottedPathsExamples.IsDottedPathRejectsKeywords | line_profiler/autoprofile/eager_preimports.py:30 | `'keyword.return.not.allowed'` is not |
| DottedPathsExamples.SplitFindSpec | line_profiler/autoprofile/eager_preimports.py:93-96 | the doctest `split_dotted_path('importlib.util.find_spec')` |
| DottedPathsExamples.SplitExecModule | line_profiler/autoprofile/eager_preimports.py:97-98 | the doctest `split_dotted_path('importlib.abc.Loader.exec_module')` |
| DottedPathsExamples.SplitImportlibUtil | line_profiler/autoprofile/eager_preimports.py:95-96 | the doctest `split_dotted_path('importlib.util') == ('importlib.util', None)` |
| DottedPathsExamples.SplitNotDotted | line_profiler/autoprofile/eager_preimports.py:99-104 | the doctest that `'not a dotted path'` raises `TypeError` |
| DottedPathsExamples.SplitNotImportable | line_profiler/autoprofile/eager_preimports.py:105-111 | the doctest that `'foo.bar.baz'` fails, listing its three prefixes |
| NameProposals.DedupSpec | line_profiler/autoprofile/eager_preimports.py:223 | `dict.fromkeys` keeps each element once, in order of first occurrence |
| NameProposals.PrefixesValid | line_profiler/autoprofile/eager_preimports.py:223-226 | `TypeError` exactly when some prefix is not an identifier or is a keyword; otherwise the deduplicated list is used |
| NameProposals.DotFreeDottedIsChunk | line_profiler/autoprofile/eager_preimports.py:224 | a dot-free dotted path is exactly an identifier that is not a keyword |
| NameProposals.Prefixes | line_profiler/autoprofile/eager_preimports.py:223-226 | the prefixes kept are identifiers that are not keywords, the same elements as given, each once |
| NameProposals.Nth | line_profiler/autoprofile/eager_preimports.py:227-237 | the `n`-th name yielded starts with the prefix at position `n mod len(prefixes)` |
| NameProposals.TurnIsMod | line_profiler/autoprofile/eager_preimports.py:235-237 | the prefix used by the `n`-th name is the one at position `n mod len(prefixes)` |
| NameProposals.NthRound | line_profiler/autoprofile/eager_preimports.py:228-235 | after the prefixes, round `i` yields each prefix with suffix `str(i)` in order |
| NameProposals.NthIsIdentifier | line_profiler/autoprofile/eager_preimports.py:228-235 | every name yielded is an identifier that starts with its prefix |
| NameProposals.NthLength | line_profiler/autoprofile/eager_preimports.py:233-235 | names from round `10^k` on are longer than `k` characters |
| NameProposals.FirstFree | line_profiler/autoprofile/eager_preimports.py:478-490 | the search through the stream returns the first name not forbidden, and its position |
| NameProposals.FirstFreeUnique | line_profiler/autoprofile/eager_preimports.py:478-490 | the first free name is unique |
| NameProposals.FirstFreeFound | line_profiler/autoprofile/eager_preimports.py:478-490 | a free name with all earlier names forbidden is the first free name |
| NameProposalsExamples.ProposeNamesDoctest | line_profiler/autoprofile/eager_preimports.py:214-219 | the first ten names from `['func', 'f', 'foo']` |
| NameFinder.LoadedIn | line_profiler/autoprofile/eager_preimports.py:170-191 | no name collected is bound by an enclosing function's parameters |
| NameFinder.LoadedInAll | line_profiler/autoprofile/eager_preimports.py:188 | the same for the children of a node visited in turn |
| NameFinder.Flatten | line_profiler/autoprofile/eager_preimports.py:174 | a name is in some context exactly when it is in their union |
| NameFinder.LoadedInIsLoadedFree | line_profiler/autoprofile/eager_preimports.py:170-191 | the names collected are exactly the `Load` names not bound by an enclosing function's parameters |
| NameFinder.OnlyLoadedNames | line_profiler/autoprofile/eager_preimports.py:170-175 | only names occurring in `Load` context are collected |
| NameFinder.LoadedNameFinder.VisitName | line_profiler/autoprofile/eager_preimports.py:170-175 | a `Load` name not bound in any context is added; nothing else changes |
| NameFinder.LoadedNameFinder.Visit | line_profiler/autoprofile/eager_preimports.py:177-191 | visiting adds exactly the node's free loaded names; the context stack is back to its depth after a function node |
| NameFinder.LoadedNameFinder.GenericVisit | line_profiler/autoprofile/eager_preimports.py:188 | visiting the children adds exactly their free loaded names |
| NameFinder.LoadedNameFinder.Find | line_profiler/autoprofile/eager_preimports.py:193-197 | the result is exactly the set of free loaded names of the node |
| NameFinderExamples.DoctestLoads | line_profiler/autoprofile/eager_preimports.py:152-164 | the doctest: `{'bar', 'foobar', 'a', 'str'}` |
| ResolveTargets.Sorted | line_profiler/autoprofile/eager_preimports.py:314 | `sorted` of a set: strictly increasing, same elements |
| ResolveTargets.ResolveSpec | line_profiler/autoprofile/eager_preimports.py:302-326 | on success the unresolved paths are strictly increasing, and every indirect module was not given as a path and is a whole-module (`None`) target |
| ResolveTargets.ResolveInOrder | line_profiler/autoprofile/eager_preimports.py:314-324 | the loop over the sorted paths gives exactly the fold of `StepPath` over them, stopping at the first `TypeError` |
| ResolveTargets.ResolveProfilingTargets | line_profiler/autoprofile/eager_preimports.py:302-326 | the loop gives exactly `ResolveSpec` |
| ResolveTargets.ResolvePath | line_profiler/autoprofile/eager_preimports.py:315-324 | one iteration gives exactly `StepPath` |
| ResolveTargets.ResolveTypeError | line_profiler/autoprofile/eager_preimports.py:303-316 | `TypeError` exactly when some path in `dotted_paths ∪ recurse` is not dotted |
| ResolveTargets.ResolveSuccess | line_profiler/autoprofile/eager_preimports.py:314-326 | on success: every path is unresolved (no prefix can be found) or has its target under its module; the unresolved paths come from the input and are sorted; every module maps to a non-empty set; every indirect module is a whole-module target and none was given directly; conversely every `(module, target)` in the result is the split of an input path or a `None` under a submodule walked from a recursed-into package, and every indirect module was walked from such a package; and every submodule walked from a recursed-into package is recorded as a whole-module (`None`) target, and as indirect unless it was given, so `indirect` is exactly the walked submodules not given |
| ResolveTargets.ResolveWalks | line_profiler/autoprofile/eager_preimports.py:321-325 | on success every submodule that the walk of a recursed-into package yields is a whole-module target, and indirect unless it is among the paths given |
| ResolveTargets.FoldWalksRecorded | line_profiler/autoprofile/eager_preimports.py:314-324 | after the loop every submodule walked so far is a whole-module target and indirect |
| ResolveTargets.AddSubmodulesRecords | line_profiler/autoprofile/eager_preimports.py:321-324 | the inner loop records each submodule it is given as a whole-module target and as indirect |
| ResolveTargets.FoldFromInput | line_profiler/autoprofile/eager_preimports.py:314-324 | after the loop, every target comes from a path's split or a package's walk, and every indirect module from a walk |
| ResolveTargets.DirectOfIs | line_profiler/autoprofile/eager_preimports.py:316-320 | a pair is among the splits collected exactly when some path splits into it |
| ResolveTargets.WalkedOfIs | line_profiler/autoprofile/eager_preimports.py:321-324 | a name is among the walked submodules exactly when it is yielded by the walk of a path that is recursed into and names a whole module |
| ResolveTargets.FoldFails | line_profiler/autoprofile/eager_preimports.py:314-316 | the loop fails exactly when some path is not dotted |
| ResolveTargets.FoldGood | line_profiler/autoprofile/eager_preimports.py:314-324 | the loop keeps its invariant |
| ResolveTargets.ResolveWithoutRecursion | line_profiler/autoprofile/eager_preimports.py:303-306 | with `recurse=False`, `indirect` is empty |
| EagerImport.WriteEagerImportModule | line_profiler/autoprofile/eager_preimports.py:448-493 | `TypeError`/`ValueError` first for `adder` (non-string, not one line, unparsable), then for `indent` (non-string, not one line of whitespace), then `TypeError` for a non-dotted path; on success the three names are the first free ones of their streams, identifiers, pairwise distinct and not loaded by `adder`, and the targets are those of `resolve_profiling_targets` |
| EagerImport.CheckAdder | line_profiler/autoprofile/eager_preimports.py:448-461 | `adder` is accepted exactly when it is a one-line string that parses, and then its expression is returned; the error is `TypeError` exactly for a non-string |
| EagerImport.CheckIndent | line_profiler/autoprofile/eager_preimports.py:462-470 | `indent` is accepted exactly when it is a one-line whitespace string; the error is `TypeError` exactly for a non-string |
| EagerImport.ChooseNames | line_profiler/autoprofile/eager_preimports.py:474-490 | the three names are the first free ones of their streams (each avoiding the names chosen before it), identifiers, pairwise distinct and not loaded by `adder` |
| Strings.LineCountOne | line_profiler/autoprofile/eager_preimports.py:464 | `len(s.splitlines()) == 1` exactly when `s` is non-empty and has no line break except at its end |
| EagerImport.PrefixesChecked | line_profiler/autoprofile/eager_preimports.py:478-490 | the three prefix lists are valid and free of repeats |
| EagerImport.IndentExamples | line_profiler/autoprofile/eager_preimports.py:462-467 | four spaces, a tab and a lone line break are accepted; the empty string, two lines and non-strings are not |

## Left out

- The line-timing engine itself, the trace and `sys.monitoring` callbacks, and wrapping of callables: they are compiled code.
- Real threads and clocks: `RepeatedTimer` takes time as an integer parameter, and the OS timer is a ghost flag and deadline. Floating-point time is not modelled.
- KernprofTimer.RepeatedTimer.Run: requires the timer to be armed, because only an armed thread timer can fire.
- KernprofRestore.RestoreList.Enter: requires that it is not already entered. A generator-based context manager cannot be entered twice.
- argparse and TOML handling in kernprof's `main`, `execfile`/`run_module`, printing, `find_script` and `find_module_script`, and `sys.argv`/`sys.path` changes.
- `ast.parse`, `modname_to_modpath`/`find_spec` and `walk_packages`/`package_modpaths` are parameters.
  - The `static` argument only chooses between two implementations of these. It is therefore not a parameter of its own.
- Unicode:
  - `casefold` is ASCII lower-casing;
  - `isidentifier` accepts ASCII identifiers only;
  - `isspace` and `splitlines` use the Latin-1 whitespace and line-break characters;
  - string order compares code points.
- ResolveTargets.ResolveProfilingTargets: `dotted_paths` and `recurse` are sets of strings.
  - A plain string passed as `recurse` (a collection of characters) is not modelled.
  - Nor are `dotted_paths` of non-string objects.
- ResolveTargets.Resolved: `targets` is a map, so the insertion order of the dict returned is not modelled.
- The text that `write_eager_import_module` writes to its stream, and the warnings it issues. Only the checks and choices that come before the writing are modelled.
- NameProposals.Nth: requires a non-empty prefix list. With no prefixes the generator never yields: after the empty `yield from`, the `itertools.count()` loop runs forever over an empty list, so `next` does not return. Every caller passes a non-empty literal list.
- The logger construction in `line_profiler._diagnostics`.
- KernprofArgs.Basename: `os.path` is modelled as POSIX `posixpath`. On Windows, `ntpath.basename` also splits at `\` and after a drive letter, so the default output name can differ there.
- AST rewriting, `compile`/`exec` and the `sys.modules` side effects of autoprofile's `run`.

## Findings

| source | as written | input that shows it | evidently intended | confidence | as-written member | corrected member |
|---|---|---|---|---|---|---|
| kernprof.py:316 | the recursive call for the part before the separator passes only `flag`, so it splits again at the default `'--'` and not at `sep` | `args = ['a', '--', 'b', '++', 'c']`, `flag = '-m'`, `sep = '++'`: the inner call splits `['a', '--', 'b']` at `'--'`, and `assert not pre_post` fails | pass `sep` on, so the part before the separator is scanned for `flag` only | medium; not executed | KernprofArgsExamples.AsWrittenFailsOnCustomSeparator | KernprofArgs.PreParseIsDirective |
