# Verified models for cpp26-reflect-nanobind

The binder of this repository turns C++ types into Python modules; around it stand a
wildcard engine, a surface comparison, a serializer, the protocol of the generated
modules, a test fixture that logs concurrent tasks, and the orchestrator that decides
whether a binding is good. This project models those programs in Dafny and proves
what they promise, for all inputs and all runs. `dafny verify dfyconfig.toml` checks
everything.

| file | what it models |
|---|---|
| `Glob.dfy` | the single-backtrack wildcard matcher |
| `Keys.dfy`, `SurfaceDiff.dfy`, `SurfaceDiffLaws.dfy`, `SurfacePatch.dfy` | the recursive surface differ, its report and its ignore patterns |
| `SurfaceLeaves.dfy` | what the differ takes for equal, and what its patterns read |
| `SurfaceDescribe.dfy`, `SurfaceContent.dfy` | the description of a possibly cyclic class graph, and what it holds |
| `Serde.dfy`, `SerdeEqual.dfy`, `SerdeJson.dfy`, `Decimal.dfy` | the reflection-driven binary and JSON serializer |
| `SerdeNumbers.dfy`, `JsonReader.dfy` | its cells as numbers, and its texts as any JSON reader sees them |
| `Registration.dfy` | the `nbgen_bind_*` functions of a generated module |
| `RegistrationNames.dfy`, `NameSafety.dfy` | which runs keep all names, and which types keep them in every run |
| `TaskLog.dfy`, `TaskRun.dfy`, `TaskStartOrder.dfy` | the task counter and log, over every interleaving |
| `Gates.dfy`, `GateLaws.dfy`, `GateRecords.dfy`, `Flags.dfy` | the gate orchestrator |
| `DottedPath.dfy` | the dotted key path resolver |
| `Churn.dfy` | the decimal printer and the chunked summation |
| `Aggregate.dfy` | the roll-up of all runs |
| `Common.dfy` | an option type, and facts about sequences and sets |

Code that updates objects or buffers is modelled by classes and loops, each proved
equal to a function; the laws are lemmas about those functions. The interleaved
fixture is a state machine with one event per atomic action, and its `run` is a loop
that takes an arbitrary enabled event each round.

## Where the code and its description part

The model follows the code. In these places a comment or document says more than the
code does; each has a lemma that says exactly when the statement holds.

- Glob (`10_matcher_spike.cpp:49-60`): the engine compares characters before it looks
  for a wildcard, so `*` does not match `*a`. A subject is matched as a glob by every
  pattern iff it holds no `*`, and a pattern matches as a glob on every subject iff it
  holds none.
- Surface diff (`surface_diff.py:102-117`): a surface is reported as equal to itself
  iff no value in it is a NaN. A class below a repeated attribute name is replaced by
  the recursion marker even where there is no recursion
  (`surface_diff.py:63-66`): a change of the bases of a class is reported iff some
  descent without a repeated name reaches that class.
- Name collisions (`BINDER-0022-enum-class-module-name-collision.md:10-11`): the
  fallback name has only the immediate parent in it, so a third namesake can still
  take the attribute of the second. All lists of calls keep all names iff no type can
  find both of its names taken, a condition on the types and the names at the start.
- Task log (`tftest.h:71-72`): the log is said to list names in the order the bodies
  started. That holds in all runs iff any two tasks are ordered by precedence; it
  does not for the diamond.
- Exit code (`run_gates.py:33`): "the surface diff passed" is right for every machine
  iff two lanes run; a single lane exits 0 with the diff skipped. Exit code 0 does not
  say either that the native oracle ran (`run_gates.py:8-13`): without it the lanes
  are tested against expectations written earlier, and the outcome is E-weak.
- Chunked churn (`stress_chunked.cpp:1-2`): the total is the same iff CHUNKS divides N.

## Model

| member | source | states |
|---|---|---|
| Glob.GlobMatch | gcc16-proveout/probes/10_matcher_spike.cpp:49-60 | the two-pointer loop returns true exactly for `Accepts`, the glob in which a star facing a star is a literal, on every pattern and subject, within a budget of rounds |
| Glob.BudgetIsProduct | gcc16-proveout/probes/10_matcher_spike.cpp:52-57 | that budget, for \|s\| + 2 anchors, is (\|s\| + 2)(\|p\| + 1): backtracking is never exponential |
| Glob.AcceptanceReaches | gcc16-proveout/probes/10_matcher_spike.cpp:54-55 | an acceptance that starts at or after the scanned segment has consumed at least as much of the subject when the segment ends |
| Glob.OlderStarCovered | gcc16-proveout/probes/10_matcher_spike.cpp:54-55 | forgetting the older star loses nothing: whatever it could still accept is accepted from the newer star, or at the end of the subject |
| Glob.AcceptedIsMatched | gcc16-proveout/probes/10_matcher_spike.cpp:49-60 | soundness against the textbook glob, for every subject |
| Glob.MatchedIsAccepted | gcc16-proveout/probes/10_matcher_spike.cpp:49-60 | completeness against the textbook glob when pattern or subject is star-free |
| Glob.SubjectSafeIffStarFree | gcc16-proveout/probes/10_matcher_spike.cpp:53-54 | engine and textbook agree on a subject for all patterns iff the subject holds no star |
| Glob.PatternSafeIffStarFree | gcc16-proveout/probes/10_matcher_spike.cpp:53-54 | they agree on a pattern for all subjects iff the pattern holds no star |
| Glob.MatchesIffCanBeCut | gcc16-proveout/probes/10_matcher_spike.cpp:49-60 | the textbook glob, without the matcher: the subject can be cut into one piece for each pattern character, any for `*`, one character for `?`, itself for any other |
| Glob.StarFreeAccepts | gcc16-proveout/probes/10_matcher_spike.cpp:53 | a pattern without `*` accepts exactly the subjects of its length that agree with it at every place that is not a `?` |
| Glob.LiteralPatternIsItself | gcc16-proveout/probes/10_matcher_spike.cpp:53 | a pattern without wildcards accepts itself alone |
| SurfaceDiff.Report.Add | corpus/lib/surface_diff.py:102-117 | the recursion appends to the shared list exactly the entries of `Diff`, keys in sorted order |
| SurfaceDiff.Compare | corpus/lib/surface_diff.py:158-165 | exit status 1 iff something is reported |
| SurfaceLeaves.LeafCleanIff | corpus/lib/surface_diff.py:116-117 | two leaves go unreported iff they are one number, True being 1, or one and the same text, list, infinity or null |
| SurfaceLeaves.IntegersCleanIff | corpus/lib/surface_diff.py:116-117 | integers iff equal; a bool and an integer iff that is 1 or 0 accordingly |
| SurfaceLeaves.WordyCleanIffSame | corpus/lib/surface_diff.py:102-117 | if one side holds no number, bool or NaN, nothing is reported iff the two surfaces are the same |
| SurfaceLeaves.TextTellsApart | corpus/lib/surface_diff.py:103-109 | where no key holds a dot the text that patterns read tells any two places apart |
| SurfaceLeaves.TextConcat | corpus/lib/surface_diff.py:107 | that text is a dot and a key for each step |
| SurfaceLeaves.SilencedByAny | corpus/lib/surface_diff.py:103-104 | a place is silenced by any one of the patterns |
| Keys.FirstDifferenceDecides | corpus/lib/surface_diff.py:106 | the keys are visited in dictionary order: at the first difference the smaller character decides, and a text that ends there comes first |
| SurfaceDiffLaws.ReportIsExact | corpus/lib/surface_diff.py:102-117 | an entry is reported iff the two trees, looked up independently, differ there in that way and neither the place nor any place on the way from the start is silenced |
| SurfaceDiffLaws.CleanIffAllHidden | corpus/lib/surface_diff.py:158-165 | the comparison is clean iff the patterns hide every difference |
| SurfaceDiffLaws.ReportIsPrefixFree | corpus/lib/surface_diff.py:106-115 | no reported place lies at or below another one |
| SurfaceDiffLaws.EmptyIffEqual | corpus/lib/surface_diff.py:102-117 | without patterns nothing is reported iff the trees are deeply equal in Python's sense |
| SurfaceDiffLaws.CleanSelfReportIffNaNFree | corpus/lib/surface_diff.py:116-117 | a surface agrees with itself iff it holds no NaN |
| SurfaceDiffLaws.SwapSwapsSides | corpus/lib/surface_diff.py:102-117 | swapping the surfaces swaps the sides of every entry and changes nothing else |
| SurfaceDiffLaws.PatternsFilter | corpus/lib/surface_diff.py:103-109 | with patterns the report is the plain report, in order, less the entries with a silenced path or ancestor, root included |
| SurfacePatch.PatchWorks | corpus/lib/surface_diff.py:102-117 | overwriting, adding or deleting exactly the reported places of the first tree as the second has them yields the second |
| SurfacePatch.GraftBelowKey | corpus/lib/surface_diff.py:106-115 | the entries below one key change that key's subtree alone |
| SurfaceDescribe.UnseenShrinks | corpus/lib/surface_diff.py:63-76 | the names not yet seen strictly shrink along each descent, cyclic graph or not |
| SurfaceDescribe.DescribeClass | corpus/lib/surface_diff.py:63-79 | the loop over the sorted attributes terminates and builds the description |
| SurfaceDescribe.DescribeModule | corpus/lib/surface_diff.py:82-92 | the loop over the module's names describes exactly those that do not start with two underscores |
| SurfaceDescribe.ShownExactlyWhereSimple | corpus/lib/surface_diff.py:63-79 | following nested classes by name, the description shows exactly the descents without an earlier repeat, each with its trail as the names seen |
| SurfaceDescribe.FullyDescribedIffSimple | corpus/lib/surface_diff.py:63-66 | a reached class is described in full iff no name repeats on the way; otherwise there is the marker or nothing |
| SurfaceDescribe.NestingIsBounded | corpus/lib/surface_diff.py:64-76 | nesting depth is at most the number of distinct names not seen |
| SurfaceDescribe.BaseDifferenceIsReported | corpus/lib/surface_diff.py:67-68 | two modules whose classes at the end of a repeat-free descent have different bases are told apart by the report, with the entry that says so |
| SurfaceDescribe.BaseChangeReportedIff | corpus/lib/surface_diff.py:63-92 | in any module, a change of the bases of one class is reported iff a descent without a repeated name reaches that class |
| SurfaceDescribe.AlwaysSeenIffSimple | corpus/lib/surface_diff.py:63-76 | any two modules with different bases at the end of a given descent get a non-empty report iff no name repeats along that descent |
| SurfaceDescribe.ShadowedDifferenceIsMissed | corpus/lib/surface_diff.py:64-65 | a class that no repeat-free descent reaches can have any bases without a trace in the description, cycle or not |
| SurfaceContent.ContentInModule | corpus/lib/surface_diff.py:67-79 | at the end of a repeat-free descent stand the bases and the doc of the reached class, exactly its kept attributes, and the given description of each that is no class |
| SurfaceContent.ModuleIsShown | corpus/lib/surface_diff.py:82-92 | a module's description has exactly the listed names, each class described from its own name, anything else as given |
| SurfaceContent.MarkerIsShown | corpus/lib/surface_diff.py:64-65 | where the last name of a descent is the first to repeat there is only the marker |
| SurfaceContent.KeptIff | corpus/lib/surface_diff.py:41-44 | a class attribute is kept iff it is a synthesized method or not a name in double underscores |
| SurfaceContent.ListedIff | corpus/lib/surface_diff.py:84-86 | a module name is listed iff it does not start with two underscores |
| SurfaceContent.DocDifferenceIsReported | corpus/lib/surface_diff.py:69 | different docs of classes at the end of one repeat-free descent are reported, with the entry that says so |
| SurfaceContent.AttributeDifferenceIsReported | corpus/lib/surface_diff.py:73-78 | unequal descriptions of one attribute of such classes never go unreported |
| SurfaceContent.MissingAttributeIsReported | corpus/lib/surface_diff.py:72-78 | a kept attribute of only one of them is reported as such |
| SurfaceContent.MissingNameIsReported | corpus/lib/surface_diff.py:84-92 | so is a listed name of only one of two modules |
| SurfaceContent.EntryDifferenceIsReported | corpus/lib/surface_diff.py:87-91 | unequal descriptions of one module name never go unreported |
| Serde.Buffer.Write | examples/serialize_poc.cpp:91-103 | the writer appends the bytes of the members in declaration order |
| Serde.Cursor.Read | examples/serialize_poc.cpp:105-117 | the reader fills every member from the cursor and leaves the cursor past the last one |
| Serde.EncodedSize | examples/serialize_poc.cpp:91-103 | the number of bytes depends on the type alone |
| Serde.ReadBack | examples/serialize_poc.cpp:86-117 | reading at the end of any prefix, with any suffix behind, rebuilds the value bit for bit, for every nested type |
| Serde.WriteBack | examples/serialize_poc.cpp:86-117 | writing what was read gives the very bytes that were read |
| Serde.EncodingIsPrefixFree | examples/serialize_poc.cpp:119-124 | distinct values have distinct bytes and neither continues the other |
| Serde.RoundTrip | examples/serialize_poc.cpp:119-132 | `from_bytes` of `to_bytes` is the object, whatever it is read into |
| SerdeNumbers.CellsAreWritten | examples/serialize_poc.cpp:91-103 | what is written are the cells of the object in declaration order, one after the other, whatever the nesting |
| SerdeNumbers.ScalarSizes | examples/serialize_poc.cpp:96-99 | the sizes of the scalar types |
| SerdeNumbers.LastByteWeighsMost | examples/serialize_poc.cpp:97-98 | the bytes of a number are its digits to the base 256, lowest first |
| SerdeNumbers.IntegersAreTwosComplement | examples/serialize_poc.cpp:55-56 | an integer lies in the range of its width and sign and is congruent to its bits |
| SerdeEqual.ComputeEqual | examples/serialize_poc.cpp:135-149 | the loop decides member-wise equality, IEEE equality on floating point |
| SerdeEqual.EqualToSelfIffNoNaN | examples/serialize_poc.cpp:135-149 | an object equals its round trip iff it holds no NaN |
| SerdeEqual.BytesDecideIffPlain | examples/serialize_poc.cpp:119-149 | `equal` against an object agrees with comparing bytes iff it holds neither NaN nor floating-point zero |
| SerdeNumbers.SpecialValues | examples/serialize_poc.cpp:142-143 | NaNs and zeros by exponent and fraction, section 3.4 of IEEE 754-2019 |
| SerdeNumbers.FloatsEqualIffSameNumber | examples/serialize_poc.cpp:142-143 | floating-point members are equal iff neither is a NaN and they stand for one number |
| SerdeNumbers.EqualFloatsAreSameOrZero | examples/serialize_poc.cpp:142-143 | equal ones have the same bytes or are both zero |
| SerdeNumbers.BoolsAndIntegersEqualIff | examples/serialize_poc.cpp:142-143 | bools by truth, integers by value |
| SerdeNumbers.EqualIffLeavesEqual | examples/serialize_poc.cpp:135-149 | `equal` holds iff all leaves are equal one by one, whatever the nesting |
| SerdeNumbers.EqualIsSymmetric | examples/serialize_poc.cpp:135-149 | `equal` does not depend on the order of its arguments |
| SerdeJson.JsonWriter.ToJson | examples/serialize_poc.cpp:64-77 | the writer, with its `first` flag, appends the text of the object |
| SerdeJson.Decodable | examples/serialize_poc.cpp:51-77 | a parser that is told the type recovers the value from the text and stops where the text stops |
| JsonReader.ObjectIsRead | examples/serialize_poc.cpp:51-77 | a reader after RFC 8259 that is told nothing of the type recovers names and values of every object, in order, and stops where its text stops |
| SerdeJson.JsonIsPrefixFree | examples/serialize_poc.cpp:64-77 | equal outputs come from equal objects and no output of a type continues another |
| SerdeJson.UnambiguousIffNotBareInteger | examples/serialize_poc.cpp:51-77 | the start of a text determines the value and where it ends, for every type with bool and integer leaves but a bare integer, and for no bare integer of any width |
| Registration.Module.BindType | corpus/runs/_fixture_virtual/binding/build-emit/binding.gen.cpp:48-61 | guard, bases, name choice and registration take the module to `Bind` of its state |
| Registration.Module.Populate | corpus/runs/glm/binding/build-emit/binding.gen.cpp:57-62 | the call list, repeats included, takes it to `BindAll` |
| Registration.BindAllRegistersLineage | corpus/runs/_fixture_virtual/binding/build-emit/binding.gen.cpp:49-53 | after any calls exactly the called types and their ancestors are registered besides the earlier ones, and the registry is closed under bases |
| Registration.BindAllKeepsTopological | corpus/runs/_fixture_virtual/binding/build-emit/binding.gen.cpp:49-53 | registration order puts every base before its derived types and nothing twice |
| Registration.CoveredCallsDoNothing | corpus/runs/_fixture_virtual/binding/build-emit/binding.gen.cpp:50 | dropping every call that an earlier call covers changes neither registry, order nor module |
| Registration.RepeatsDoNothing | corpus/runs/glm/binding/build-emit/binding.gen.cpp:57-62 | a call list with repeats gives the same module as without the later repeats |
| Registration.AttributesBalanceAll | corpus/runs/_fixture_virtual/binding/build-emit/binding.gen.cpp:33-34 | attributes plus clobberings grow by one per registration |
| Registration.NamesKeptIffNoClobber | corpus/runs/_fixture_virtual/binding/build-emit/binding.gen.cpp:33-34 | any further calls keep every attribute, those of bound types among them, and leave each type under exactly one, iff no bind finds both of its names taken |
| RegistrationNames.BindAllIsRegistration | corpus/runs/_fixture_virtual/binding/build-emit/binding.gen.cpp:49-54 | the attributes depend on the calls only through the registration order |
| RegistrationNames.FirstBinderKeepsPlainName | corpus/findings/BINDER-0022-enum-class-module-name-collision.md:10-11 | in any run the first binder of a free plain name has it at the end, if it is nobody's fallback |
| RegistrationNames.OwnerKeepsPlainName | corpus/findings/BINDER-0022-enum-class-module-name-collision.md:10-11 | an owner of its plain name keeps it through any further calls for types that do not fall back to it |
| RegistrationNames.KeepsNamesIffAllFind | corpus/runs/_fixture_virtual/binding/build-emit/binding.gen.cpp:33-34 | one run keeps all names iff every type that finds its plain name taken finds its fallback free, which the registration order and the names at the start decide |
| RegistrationNames.TakenIffOccupied | corpus/runs/_fixture_virtual/binding/build-emit/binding.gen.cpp:33-34 | a name is taken before the i-th type iff it was at the start, is the plain name of an earlier type, or the fallback of an earlier one that came late |
| RegistrationNames.KeepsNamesIffFallbacksDiffer | corpus/findings/BINDER-0022-enum-class-module-name-collision.md:10-11 | if no fallback is a plain name, a run keeps all names iff its late namesakes have different fallbacks, none taken at the start |
| RegistrationNames.KeptNamesLayOut | corpus/runs/_fixture_virtual/binding/build-emit/binding.gen.cpp:33-34 | in a run that keeps all names each type has its plain name, or its fallback if it came late |
| RegistrationNames.KeptNamesAreForever | corpus/findings/BINDER-0022-enum-class-module-name-collision.md:10-11 | in such a run no call changes an attribute of an earlier stage, and each registered type owns exactly one from then on |
| NameSafety.AlwaysKeptIffSafe | corpus/findings/BINDER-0022-enum-class-module-name-collision.md:10-11 | for any types, closed under bases: every list of calls keeps all names iff no type can find both of its names taken, a condition on the types and the names at the start alone |
| NameSafety.UnsafeNamesCanBeLost | corpus/findings/BINDER-0022-enum-class-module-name-collision.md:10-11 | otherwise there is a list of calls that loses a name |
| NameSafety.NamesakesKeptIffTwo | corpus/findings/BINDER-0022-enum-class-module-name-collision.md:10-11 | types with one plain name and one fallback keep their names under all calls iff there are at most two of them |
| NameSafety.ThirdNamesakeClobbers | corpus/findings/BINDER-0022-enum-class-module-name-collision.md:10-11 | of three the second ends without an attribute |
| TaskLog.StepKeepsInv | corpus/runs/taskflow/binding/tftest.h:61-84 | one atomic action of any thread keeps the invariant: mutual exclusion, counter and log bounds, a repeat-free predecessor-closed log |
| TaskLog.ReachableIsSafe | corpus/runs/taskflow/binding/tftest.h:61-84 | in every reachable state of any graph, any number of runs and readers: log length <= counter <= number of tasks, log repeat-free and predecessor-closed, and a reader's copy is the log; a returned run counted and logged every task |
| TaskLog.WhatThreadsWaitFor | corpus/runs/taskflow/binding/tftest.h:61-84 | a thread waits for nothing but the mutex, its predecessors, or the whole graph |
| TaskLog.OrderAnswersTheLog | corpus/runs/taskflow/binding/tftest.h:73-76 | `order` called while the mutex is free answers the log as it stands and leaves no trace |
| TaskLog.AnswerIsTheLog | corpus/runs/taskflow/binding/tftest.h:73-76 | in every reachable state what a reader is given is the log of that moment, and the log of all tasks once a run has returned |
| TaskRun.WorkShrinks | corpus/runs/taskflow/binding/tftest.h:80-84 | every action of a task body, or of the reader inside, uses up remaining work |
| TaskRun.SomethingEnabled | corpus/runs/taskflow/binding/tftest.h:61-84 | no deadlock: in every state that satisfies the invariant some thread other than an arriving reader can move |
| TaskRun.Diamond.Do | corpus/runs/taskflow/binding/tftest.h:61-84 | each atomic action updates the fields as its event says |
| TaskRun.Diamond.Run | corpus/runs/taskflow/binding/tftest.h:61-69 | under any interleaving `run` ends, its actions form a run of the state machine, it returns the number of tasks and it leaves a linear extension of the graph in the log |
| TaskRun.DiamondLog | corpus/runs/taskflow/binding/tftest.h:35-44 | for the diamond the log is ABCD or ACBD |
| TaskStartOrder.StartOrderIffChain | corpus/runs/taskflow/binding/tftest.h:71-84 | the log is always in start order iff any two tasks are ordered by precedence |
| TaskStartOrder.RunInChain | corpus/runs/taskflow/binding/tftest.h:80-84 | in a totally ordered graph bodies never overlap and the log follows the starts |
| TaskStartOrder.OvertakingReachable | corpus/runs/taskflow/binding/tftest.h:80-84 | any two unordered tasks can log in the other order than they started |
| TaskStartOrder.DiamondCanOvertake | corpus/runs/taskflow/binding/tftest.h:35-44 | so the log of the diamond need not be in start order |
| Gates.Orchestrator.RunLane | corpus/lib/run_gates.py:199-273 | the whole record of one lane, the commands it runs and the bug it may record |
| Gates.Orchestrator.Orchestrate | corpus/lib/run_gates.py:373-494 | the whole result, exit code 0 exactly for a clean run, the order of all commands and the recorded bug |
| Gates.WorstIsWorst | corpus/lib/run_gates.py:454-459 | the combined lane outcome is attained and no lane is worse |
| Gates.ExitZeroIffClean | corpus/lib/run_gates.py:493-494 | exit code 0 iff the probe passed, every executed lane built, imported and passed its tests, and with two lanes the surface diff succeeded |
| GateLaws.OutcomeEIff | corpus/lib/run_gates.py:423-424 | outcome E iff, besides, the oracle succeeded and tests exist |
| GateLaws.TwoLanesComparedWhenClean | corpus/lib/run_gates.py:432-448 | with two lanes exit code 0 implies that the surface diff was run and passed |
| GateLaws.DocumentedIffTwoLanes | corpus/lib/run_gates.py:33 | the documented exit code is right for every machine iff two lanes run |
| GateLaws.CodeIffBad | corpus/lib/run_gates.py:460-478 | a failure code is recorded iff the outcome is neither E nor E-weak |
| GateLaws.CodeExplainsOutcomeIff | corpus/lib/run_gates.py:465-478 | the code's letter is the outcome iff it is not the case that both lanes failed and the emit lane failed worse |
| GateLaws.OutcomeEIsFresh | corpus/lib/run_gates.py:393-424 | outcome E: the expectations were rewritten in this run and every executed lane was tested after that |
| GateLaws.CleanRunIsFreshIffOracleOk | corpus/lib/run_gates.py:8-13 | a run with exit code 0 rewrote the expectations iff the oracle succeeded; otherwise its outcome is E-weak |
| GateLaws.BugMeansBuildFailure | corpus/lib/run_gates.py:214-226 | a toolchain bug is recorded only in a run that failed to compile: the outcome is A if the probe failed, else B, whatever else went wrong |
| GateRecords.LanesCompiledIff | corpus/lib/run_gates.py:317-330 | which lanes are compiled for each mode, and when the emit lane runs by default |
| GateRecords.ActionsIff | corpus/lib/run_gates.py:199-273 | a lane of the plan is compiled if the probe passes, imported iff it compiled, tested iff it was imported and there are tests |
| GateRecords.OracleActionsIff | corpus/lib/run_gates.py:393-414 | when the oracle is built, run, and its output kept |
| GateRecords.DiffIff | corpus/lib/run_gates.py:432-437 | the surfaces are compared iff two lanes were imported |
| GateRecords.ActionsRise | corpus/lib/run_gates.py:373-494 | the stages come in order, each at most once: probe, oracle, constexpr lane, emit lane, surface diff, result |
| GateRecords.LaneRecordAgrees | corpus/lib/run_gates.py:199-273 | the gates of a lane are those it reached, with their results; outcome, code and furthest gate are those of the first failure |
| GateRecords.SignalOfImport | corpus/lib/run_gates.py:239-243 | how the signal of a failed import is named |
| GateRecords.BuildCodeIs | corpus/lib/run_gates.py:217-219 | a failed build is filed under its reported stage, or the module |
| GateLaws.VerdictIff | corpus/lib/run_gates.py:454-463 | the outcome is that of the earliest gate that failed in any lane, a surface difference counting as wrong behaviour |
| GateRecords.CodeIs | corpus/lib/run_gates.py:460-480 | the failure code of a run that passed the probe |
| GateLaws.RecordedBugIs | corpus/lib/run_gates.py:221-224 | only the first suspected diagnostics are recorded, and of the emit lane only its generator's |
| GateRecords.SummaryMirrors | corpus/lib/run_gates.py:465-480 | the top level repeats the probe and the constexpr lane |
| GateRecords.SummaryTellsActions | corpus/lib/run_gates.py:407-448 | its surface status and its use of the oracle are what was done |
| Flags.TranslateCflags | corpus/lib/run_gates.py:74-91 | the loop translates flag by flag, only for the gcc backend |
| Flags.TranslationRespells | corpus/lib/run_gates.py:84-90 | the raised budget keeps its value, whatever that is, and no other flag is touched |
| Flags.StripIgnoresTranslation | corpus/lib/run_gates.py:157-164 | the production compile gets the same flags translated or not, and exactly those that are not for reflection |
| Flags.StripOne | corpus/lib/run_gates.py:161-164 | which flags the production compile does without |
| Flags.StripConcat | corpus/lib/run_gates.py:161-164 | each flag is judged by itself and the others keep their order |
| Flags.FirstLines | corpus/lib/run_gates.py:94-103 | the excerpt is the first n of the distinct non-blank lines, for n = 0 the first line's |
| Flags.FirstOfIsCut | corpus/lib/run_gates.py:94-103 | the first n lines come from the front, and are n if there are as many |
| Flags.TrimCutsSpace | corpus/lib/run_gates.py:97 | trimming cuts white space off both ends, all of it, and nothing else |
| Flags.ExcerptIsSound | corpus/lib/run_gates.py:94-103 | those are each non-blank line once, trimmed |
| DottedPath.Resolve | corpus/runs/tomlplusplus/binding/tomlfix.h:46-60 | the loop computes splitting at every dot, empty parts kept, and walking |
| DottedPath.ResolvedIffTrail | corpus/runs/tomlplusplus/binding/tomlfix.h:46-60 | a path resolves to a node iff a trail of table entries, one for each part, leads there |
| DottedPath.FailsIffStuck | corpus/runs/tomlplusplus/binding/tomlfix.h:52-55 | it resolves to none iff some part finds no table or no such entry |
| DottedPath.JoinSplit | corpus/runs/tomlplusplus/binding/tomlfix.h:49-57 | the parts hold no dot and join to the path |
| DottedPath.ResolveComposes | corpus/runs/tomlplusplus/binding/tomlfix.h:46-60 | resolving p.q is resolving q from the node of p |
| DottedPath.AddressableIffDotFree | corpus/runs/tomlplusplus/binding/tomlfix.h:46-60 | exactly the non-empty lists of dot-free keys can be addressed by a path in every document |
| Churn.IntStr | corpus/findings/repros/GCC-0007/stress_churn.cpp:23-27 | the do-while loop, with C++ division, prints `Printed` of its argument |
| Churn.PrintedFaithfulIffNonNegative | corpus/findings/repros/GCC-0007/stress_churn.cpp:23-27 | the text is a canonical numeral that reads back iff the argument is not negative |
| Churn.PrintedMirrors | corpus/findings/repros/GCC-0007/stress_churn.cpp:23-27 | below zero the text mirrors the numeral of the absolute value at the character 0 |
| Churn.DivisionTruncates | corpus/findings/repros/GCC-0007/stress_churn.cpp:25 | the division and remainder of C++ |
| Churn.ItemSizeCountsDigits | corpus/findings/repros/GCC-0007/stress_churn.cpp:32-33 | an item is 23 characters and the decimal digits of its number |
| Decimal.NumeralsCorrespond | corpus/findings/repros/GCC-0007/stress_churn.cpp:23-27 | canonical digit strings and natural numbers correspond one to one |
| Churn.ChurnRange | corpus/findings/repros/GCC-0007/stress_chunked.cpp:20-28 | the loop computes the total of its range |
| Churn.SumFromFront | corpus/findings/repros/GCC-0007/stress_chunked.cpp:22-26 | that total starts with the first item of the range |
| Churn.SameTotalIffDivides | corpus/findings/repros/GCC-0007/stress_chunked.cpp:1-33 | the chunk totals add up to the unchunked total iff CHUNKS divides N or N is not positive |
| Churn.RunAllIffEnoughItems | corpus/findings/repros/GCC-0007/stress_chunked.cpp:30-40 | every chunk's assertion holds iff there are no chunks or N is at least CHUNKS |
| Aggregate.Tally | corpus/lib/aggregate.py:37-41 | the loop counts every outcome, overall and within each tier that occurs |
| Aggregate.PrintedCountsCompleteIff | corpus/lib/aggregate.py:49-51 | the six printed counts add up to the number of runs iff every outcome is one of the six codes |
| Aggregate.TiersAddUp | corpus/lib/aggregate.py:37-60 | for every outcome the per-tier counts add up to the overall count |
| Aggregate.GroupBugs | corpus/lib/aggregate.py:104-109 | exactly the keys of affected runs get a group, one each, in the order of first occurrence, holding exactly their runs in order |
| Aggregate.AffectedIff | corpus/lib/aggregate.py:106-107 | a run is affected iff its bug has a status, be it null, other than "none" |
| Aggregate.GroupedAlike | corpus/lib/aggregate.py:108 | runs fall into one group by finding, else signature, else kind |
| Aggregate.HitsConcat | corpus/lib/aggregate.py:109 | hits are listed run by run |
| Aggregate.GroupSizesAddUp | corpus/lib/aggregate.py:104-121 | group sizes add up to the number of affected runs |
| Aggregate.RankedIsSorted | corpus/lib/aggregate.py:116 | the listing holds the same groups in non-increasing size, and groups of one size in their old order |

## Left out

- The binder headers, their bind-set fixpoint, exclusion, matching and instantiation: `nb_reflect.h` and `nb_reflect_match.h` are not part of this model.
- Regular expressions and Python `repr`: a pattern is what it finds something in, and a mismatch entry carries the two values instead of their text.
- `_describe_attr` and `dump`: the description of a single attribute that is no class is an input.
- SurfaceDescribe.DescribeClass: it and `DescribeModule` return the dict they fill as a value, because a fresh dict per call has no aliases.
- Serde.Cursor.Read: returns the filled object instead of updating it in place, so aliasing between the object and the buffer is not modelled; reading past the end of a short buffer, undefined in the source, is excluded.
- Base class subobjects, enumerations, pointers, arrays and `long double` in the serializer; reading a bool byte other than 0 or 1 is undefined and such values are excluded from `equal` and JSON.
- JsonReader.ObjectIsRead: is about member names without quotation marks, as identifiers are; the reader knows no arrays, escapes, fractions or white space, which the writer does not produce.
- Floating-point text in `to_json`: it does not determine the value, so the JSON laws are about bool and integer leaves.
- Registration.Module.BindType: the method definitions inside a bound class, and the free functions added after all types, are not modelled; they do not take part in the guard, the order or the type names.
- The Taskflow scheduler and weak memory: a task starts when its predecessors have finished, one `run` is active at a time, and atomic actions interleave sequentially.
- TaskLog.StepKeepsInv: `record`, `run` and `order` are events on values here, because their interleaving is the point; `TaskRun.Diamond` carries the fields and applies the events to them.
- Subprocesses, files, environment and timing in `run_gates.py`: the result of every command is an input; the pattern search of `detect_toolchain_bug` is an opaque verdict per diagnostic.
- Flags.FirstLines: lines come already split, and trimming knows the ASCII white space of Python's `strip` from tab to carriage return and the space.
- `char_traits<unsigned char>` in `jsontest.h`, the emit-lane clusters and the table text of `aggregate.py`: they would only add easy members.
- Notes, metrics, diagnostics excerpts and provenance fields of a gate result: they do not enter the verdict.
- Bound third-party libraries, their oracles and Python tests, compiler bug reproductions and argument packs.
