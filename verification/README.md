# Sealed commands and the project introspector, in Dafny

A model of two parts of the repository, and proofs about it.

**Sealed command decisions** (`src/qiki/shared/command_decision.py`). An operator approves a command; it is copied
deeply, printed to canonical JSON and digested. Before it may be published, the candidate must have the same digest,
and a decision is published at most once. A capped store keeps the decisions.

**The project introspector** (`introspector/`). Source files are scanned into facts, the facts and the runtime events
become a schema, events travel through a bounded buffer into a table with retention, runs are validated and normalized,
what a language model says about modules and projects is grounded in the facts, and the terminal client caches documents
and keeps a bounded action log.

## The files

| file | about |
|---|---|
| `JsonReader.dfy` | a reader of JSON texts, written from RFC 8259, sections 2 to 7 |
| `CanonicalJson.dfy` | the JSON printer behind the digest: what it prints reads back as what was given, so it is injective |
| `CommandDecision.dfy` | seal, authorize, mark, the store, and every run of them |
| `SealedParameters.dfy` | the same seal on a heap with sharing and mutation: deep copy, caller runs |
| `EventEmitter.dfy` | the event buffer: methods under the lock, and a step machine of interleaved emits and flushes |
| `Scanner.dfy`, `SchemaBuilder.dfy` | the syntax tree visitor and the schema built from its facts |
| `RuntimeStore.dfy` | append with retention by age and by count |
| `RunBuilder.dfy`, `RunValidator.dfy` | building, validating and normalizing the result of an analysis run |
| `ProjectAnalysisPolicy.dfy` | grounding a project analysis in the schema |
| `SymbolCatalog.dfy`, `PublicSurface.dfy`, `ModuleGrounding.dfy` | grounding a module analysis in the module's facts |
| `ImportNormalization.dfy` | relative imports against section 5.7 of the Python Language Reference |
| `PurposeText.dfy` | purpose sentences, their normal form, the parser to codes and the printer back |
| `DerivedDocCache.dfy`, `ActionHistory.dfy` | the client's document cache and the operator's action log |
| `PyText.dfy`, `Options.dfy` | Python's string order, sorting, `dict.fromkeys`, strip, split, join; None |

Objects that the source updates in place are classes; each of their methods is proved equal to a function of the old
state, and the main results are lemmas about runs of those functions. Code that only returns values is functions.
`hide` statements in proofs only keep definitions away from the solver.

Assumptions: SHA-256 is a function parameter, and the results that need it require that no two texts collide. Clocks,
server answers, POST outcomes, file contents and the order of a Python set are parameters. Strings are sequences of
Unicode scalar values. Integers are Python's, without bound.

Where a promise of the source or of its comments is not what the code does, the code is modelled and the exact
condition is proved:

- A late `put` of a captured decision can make a published command publishable again, and can revive a rejected one,
  exactly when the captured value is still SEALED (`LateReturnRepublishes`, `RejectedRevivesExactly`,
  `RejectionIsFinalExactly`); `LateReturnRuns` gives the runs. Without such a put, "published once" holds in every run, also after eviction, since a lost
  decision cannot be authorized.
- Two flushes that overlap and both fail can put events back in the wrong order (`OverlapReorders`). The buffer stays in
  the order of emission throughout a run exactly when no failing batch is overtaken, that is, meets in the buffer events
  emitted before its last one while the bound does not drop it whole (`FailReordersExactly`, `OrderExactly`).
- Retention after every append can lose more than retention applied once (`OutOfOrderLosesMore`). The two agree for all
  ways to split a history into appends, and all caps, exactly when no event is followed by two older ones
  (`OneShotExactly`); time order is a special case.
- The bounded action log can record a second entry when the finished one was evicted (`EvictedFinishDiverges`).
- Normalizing makes a status more optimistic exactly when the run is FAILED, the validation has errors, and the factual
  layer did not fail (`NeverMoreOptimistic`).
- With nothing declared at all, a project analysis is not degraded although "removed is at least 30% of declared" would
  read as true of 0 and 0 (`DegradedExactly`).
- A relative import that climbs beyond the top-level package is an error in Python; the code answers with the bare name
  (`AgreesWithPython`). Imports in the `__init__` of a package are resolved one level too high, and never as Python
  does (`PackageImportsGoTooHigh`). A normalized import is a normal form exactly when it has no white space at its ends
  (`NormalFormIffStripped`, `SpacedImportIsNoNormalForm`).
- Words about the module in front of a purpose ("This module …") are dropped once, not twice: while nothing has to be
  cut they leave the normal form as it is exactly when the sentence does not start with such words itself
  (`PrefixIgnoredExactly`).
- A purpose sentence survives text to code to text exactly when its topic has no sentence separator, also none formed
  with the word that follows it, and the phrase is not cut (`RoundTripExactly`).
- The code also degrades a module analysis when two fields drifted severely; that test never decides
  (`DriftDegradesExactly`).
- Public symbols that do not exist are measured against a stand-in list, so inventing them is flagged only under the
  condition of `InventedPublicSymbolsFlaggedExactly`.
- A qualified name need not lead to its own symbol in the catalog: a method `Class.method` can have the same text as the
  qualified name of a function (`FunctionHiddenByMethod`) or of a class (`ClassHiddenByMethod`) and hides it, exactly
  when nothing after that method is really called so (`QualifiedNameFoundExactly`, `FunctionNameFoundExactly`).
- A JSON null from the server breaks "missing exactly when the payload is None" (`StepKeepsMissingIffNone`).

## Model

| member | source | states |
|---|---|---|
| CanonicalJson.ReadsBack | src/qiki/shared/command_decision.py:41-51 | a JSON reader written from the standard finds in the text of every parameter tree exactly its value, dictionaries as maps |
| CanonicalJson.CanonicalReadsBack | src/qiki/shared/command_decision.py:41-51 | the canonical text reads as an object with exactly the members kind, subject, name and parameters, each bound to its argument |
| CanonicalJson.DictLayout | src/qiki/shared/command_decision.py:47-51 | a dictionary is printed as its members in the order of their sorted keys, with commas and colons and no white space |
| CanonicalJson.ListLayout | src/qiki/shared/command_decision.py:47-51 | a list is printed as its items in order, with commas and no white space |
| CanonicalJson.EscapesOnlyWhatItMust | src/qiki/shared/command_decision.py:47-51 | a character is printed as itself unless JSON requires an escape |
| CanonicalJson.IntTextIsShortest | src/qiki/shared/command_decision.py:47-51 | an integer is printed in decimal digits without leading zeros |
| CanonicalJson.DumpInjective | src/qiki/shared/command_decision.py:41-51 | two parameter trees print the same text if and only if they are equal, dictionaries as maps |
| CanonicalJson.CanonicalInjective | src/qiki/shared/command_decision.py:41-51 | two commands have the same canonical text if and only if kind, subject and name are equal and the parameters are equal as maps |
| CanonicalJson.DumpEnds | src/qiki/shared/command_decision.py:47-51 | the text of a value is self-delimiting: with anything that may follow, it can be read back in one way only |
| CanonicalJson.DumpRespectsMeaning | src/qiki/shared/command_decision.py:41-51 | the order in which keys were inserted, at any depth, does not change the text |
| CanonicalJson.EscapeCharPrefixFree | src/qiki/shared/command_decision.py:47-51 | string escapes are a prefix code, and none begins with a bare quote |
| CanonicalJson.ScalarTextInjective | src/qiki/shared/command_decision.py:47-51 | null, booleans, ints and floats never print alike |
| CommandDecision.DigestBinds | src/qiki/shared/command_decision.py:54-55 | digests are equal if and only if the commands are the same |
| CommandDecision.SealedFresh | src/qiki/shared/command_decision.py:97-124 | a fresh seal is SEALED, or REJECTED exactly for an empty command; stages agree with the status; the digest is that of the sealed command |
| CommandDecision.DigestedTextIsTheCommand | src/qiki/shared/command_decision.py:41-55 | what is digested is a JSON text in which a reader finds the four fields of the command |
| CommandDecision.EmptyExactly | src/qiki/shared/command_decision.py:107-117 | the seal calls a command empty if and only if its name has no visible character, or it is a NATS command, in any letter case and with white space around it, whose subject has none |
| CommandDecision.AuthorizationAnswers | src/qiki/shared/command_decision.py:134-168 | which status, stages and reasons each attempt to publish leaves, in terms of the status before and of the two commands |
| CommandDecision.MarksAreLastGiven | src/qiki/shared/command_decision.py:170-181 | two marks in a row are one mark with the stages last given, a mark without stages changes nothing, and only acknowledge, effect and audit change |
| CommandDecision.DecisionStore.constructor | src/qiki/shared/command_decision.py:191-193 | empty, and the cap is at least one |
| CommandDecision.DecisionStore.Put | src/qiki/shared/command_decision.py:195-198 | the new state is insert-or-replace followed by eviction of the oldest; the decision is found afterwards and the cap holds |
| CommandDecision.DecisionStore.Get | src/qiki/shared/command_decision.py:200-201 | the stored decision or nothing |
| CommandDecision.DecisionStore.Has | src/qiki/shared/command_decision.py:203-204 | whether there is a stored decision |
| CommandDecision.DecisionStore.AuthorizePending | src/qiki/services/operator_console/orion_v/app.py:3379-3407 | get, authorize, put as one step; without a decision nothing is allowed |
| CommandDecision.PutKeepsLatest | src/qiki/shared/command_decision.py:195-198 | put then get returns the decision, other entries are unchanged, and only the oldest entry of a full store is lost, to a new identifier |
| CommandDecision.StepKeepsInv | src/qiki/shared/command_decision.py:97-204 | every seal, publication attempt, stage mark and permitted late put keeps the invariant of store, held decisions and publications |
| CommandDecision.RunKeepsInv | src/qiki/shared/command_decision.py:97-204 | so does every run |
| CommandDecision.PublishedOnceAndAsSealed | src/qiki/shared/command_decision.py:134-168 | in every run, across eviction, each identifier is published at most once, and what is published is the command sealed under it |
| CommandDecision.NothingEmptyIsPublished | src/qiki/shared/command_decision.py:97-168 | in every run everything published has a visible name, and a visible subject if it is a NATS command |
| CommandDecision.StoredDecisionsAgree | src/qiki/shared/command_decision.py:83-181 | in every run SEALED means not published, PUBLISHED means validated and published, REJECTED if and only if there are reasons, and the cap holds |
| CommandDecision.PublishesExactly | src/qiki/shared/command_decision.py:134-168 | a candidate goes through if and only if the decision is stored, SEALED, and the candidate is the sealed command |
| CommandDecision.HonestPublishGoesThrough | src/qiki/services/operator_console/orion_v/app.py:3315-3331 | an approved, non-empty command can be published right after sealing in any reachable state |
| CommandDecision.ReturnReopensExactly | src/qiki/services/operator_console/orion_v/app.py:3874 | after a late put of a captured decision some candidate can be published under it if and only if the captured value is SEALED |
| CommandDecision.RejectionIsFinalExactly | src/qiki/shared/command_decision.py:134-181 | a stored REJECTED decision becomes SEALED in a step if and only if the step puts back a SEALED value of it |
| CommandDecision.RejectedRevivesExactly | src/qiki/services/operator_console/orion_v/app.py:3874 | a rejected decision, which no candidate can publish, can be published after a late put if and only if the captured value is SEALED |
| CommandDecision.LateReturnRuns | src/qiki/services/operator_console/orion_v/app.py:3874 | runs from the empty store: seal, try a candidate, put the sealed value back, publish; the sealed command goes out twice, and with another candidate a rejected decision goes out |
| CommandDecision.LateReturnRepublishes | src/qiki/services/operator_console/orion_v/app.py:3874 | putting a captured decision back after publication permits a second publication if and only if the captured value is SEALED |
| SealedParameters.DeepCopy | src/qiki/shared/command_decision.py:92-94 | the copy has the same value and lives in nodes that did not exist before, with no reference leading out; each container has one copy, slot by slot |
| SealedParameters.SharingIsKept | src/qiki/shared/command_decision.py:92-94 | two references lead to the same container if and only if their copies do |
| SealedParameters.CopySlot | src/qiki/shared/command_decision.py:92-94 | one recursive call of the copy: the memo only grows, stays one-to-one, and maps every finished container to its copy |
| SealedParameters.ReadTree | src/qiki/shared/command_decision.py:41-55 | reading a tree gives its value |
| SealedParameters.Seal.constructor | src/qiki/shared/command_decision.py:97-124 | the seal owns a fresh tree with the given value and the digest of that value |
| SealedParameters.Seal.SealedCommand | src/qiki/shared/command_decision.py:92-94 | hands out a fresh tree with the sealed value |
| SealedParameters.Seal.RecomputeDigest | src/qiki/shared/decision_body_bridge.py:89-97 | whatever was written into the stored tree, recomputing gives the stored digest if and only if the value is the sealed one |
| SealedParameters.AnyCallerRun | src/qiki/shared/command_decision.py:91-106 | after any sequence of writes to, and allocations around, anything the caller can reach from containers outside the seal, handed-out trees included, the seal is intact and the digest recomputes |
| SealedParameters.SealThenMutate | src/qiki/shared/command_decision.py:97-124 | in particular the caller's own parameters can change in any way after sealing |
| EventEmitter.Emitter.TrimBufferLocked | introspector/src/project_introspector/emitter.py:116-130 | the oldest events beyond a positive bound go, and are counted |
| EventEmitter.Emitter.EmitLocked | introspector/src/project_introspector/emitter.py:77-85 | append and trim, and whether the caller flushes |
| EventEmitter.Emitter.TakeBatchLocked | introspector/src/project_introspector/emitter.py:87-93 | the whole buffer leaves as the batch |
| EventEmitter.Emitter.RequeueLocked | introspector/src/project_introspector/emitter.py:100-104 | a failed batch goes back in front and the bound is applied |
| EventEmitter.Emitter.Flush | introspector/src/project_introspector/emitter.py:87-108 | an undisturbed flush is take followed by acknowledge or fail |
| EventEmitter.EveryEventAccountedFor | introspector/src/project_introspector/emitter.py:77-130 | in every interleaving of emits and any number of flushes, emitted = acknowledged + buffered + in flight + dropped as multisets, the counters count the dropped events and the failed replies, the bound holds, and without a bound nothing is dropped |
| EventEmitter.FailKeepsOrder | introspector/src/project_introspector/emitter.py:100-130 | if the buffer was trimmed during the POST, a failure drops the whole returned batch |
| EventEmitter.BufferIsSuffix | introspector/src/project_introspector/emitter.py:77-130 | with one flush at a time the buffer is a contiguous end of what was emitted, and the acknowledged batches are an in-order subsequence |
| EventEmitter.FailReordersExactly | introspector/src/project_introspector/emitter.py:100-130 | in any state with any number of flushes, a failing batch leaves the buffer in order if and only if it is not overtaken |
| EventEmitter.OrderExactly | introspector/src/project_introspector/emitter.py:77-130 | in every interleaving the buffer is in the order of emission throughout if and only if no failing batch is overtaken |
| EventEmitter.AckOrderExactly | introspector/src/project_introspector/emitter.py:87-108 | in every interleaving the acknowledged events are in the order of emission if and only if each acknowledged batch is in order and starts after those before; without overtaken batches, if and only if none is acknowledged after a later one |
| EventEmitter.StepNamed | introspector/src/project_introspector/emitter.py:77-130 | what happens to any events is what happens to the numbers of their emission |
| EventEmitter.OverlapReorders | introspector/src/project_introspector/emitter.py:100-104 | a run with two overlapping flushes that leaves the buffer out of order |
| Scanner.ModuleVisitor.Visit | introspector/src/project_introspector/scanner.py:60-76 | class stack and function depth are restored, and exactly the facts of the pure recursion are appended |
| Scanner.ModuleVisitor.VisitClassDef | introspector/src/project_introspector/scanner.py:339-359 | records the class under its dotted path and visits its body inside it |
| Scanner.ModuleVisitor.VisitFunction | introspector/src/project_introspector/scanner.py:254-267 | a function goes to the innermost class or to the module |
| Scanner.ModuleVisitor.VisitAssign | introspector/src/project_introspector/scanner.py:143-153 | names are recorded only outside classes and functions |
| Scanner.ScanModule | introspector/src/project_introspector/scanner.py:60-359 | functions, classes with their methods, and assignments equal pure recursive collections over the tree, whose i-th members the lemmas below give by position |
| Scanner.EveryFunctionOnce | introspector/src/project_introspector/scanner.py:193-267 | every function definition is recorded exactly once, as a module function or as a method |
| Scanner.EveryClassOnce | introspector/src/project_introspector/scanner.py:339-359 | the i-th record is that of the i-th class position: its name, its path under the classes that enclose the position, and the functions local to it |
| Scanner.LocalFunctionsByPosition | introspector/src/project_introspector/scanner.py:193-267 | the i-th recorded function is that of the i-th position at which a function is defined outside inner classes |
| Scanner.FunctionDefsByPosition | introspector/src/project_introspector/scanner.py:193-267 | the i-th definition is that of the i-th position of a function definition, under the classes that enclose it |
| Scanner.BoundNamesByPosition | introspector/src/project_introspector/scanner.py:143-153 | the i-th recorded name is that of the i-th position of a name as target of a plain or annotated assignment outside classes and functions |
| Scanner.SpotsExactly | introspector/src/project_introspector/scanner.py:60-359 | the listed positions of classes, functions and bound names are exactly those in the tree, each once, in the order of the walk |
| Scanner.QualifiedIsDottedPath | introspector/src/project_introspector/scanner.py:193-209 | a qualified name is module, enclosing classes and own name joined by dots |
| SchemaBuilder.AddImportEdges | introspector/src/project_introspector/schema_builder.py:12-20 | one import edge of weight one for each pair of module and imported name |
| SchemaBuilder.AddRuntimeEdges | introspector/src/project_introspector/schema_builder.py:22-36 | one edge per called module, weighing the number of its calls |
| SchemaBuilder.CollectSymbols | introspector/src/project_introspector/schema_builder.py:38-84 | symbols and counts are those of all functions, classes and methods, in order |
| SchemaBuilder.BuildSchema | introspector/src/project_introspector/schema_builder.py:8-97 | function symbols name exactly the functions and methods of the facts and class symbols the classes, with multiplicity; a function symbol counts the call events of its name; symbols are sorted by name, equal names in the order of scanning; edges are exactly imports and called modules with their numbers of call events; runtime counts are conserved |
| SchemaBuilder.SymbolsSayFacts | introspector/src/project_introspector/schema_builder.py:49-95 | any permutation of the collected symbols names what was scanned and counts the events of its names |
| PyText.SortIsStable | introspector/src/project_introspector/schema_builder.py:95 | sorting keeps the order of elements with equal keys |
| PyText.StrLeqExactly | introspector/src/project_introspector/schema_builder.py:95 | one text comes before another if it is a front of it or smaller at the first difference, code point by code point |
| SchemaBuilder.RuntimeCountsAreCalls | introspector/src/project_introspector/schema_builder.py:49-84 | counting symbol by symbol equals counting call by call |
| SchemaBuilder.RuntimeConservation | introspector/src/project_introspector/schema_builder.py:22-84 | for the symbols and edges of the schema: runtime counts add up to the calls once per symbol of their name, and to the runtime edge weights when every called name is exactly one function symbol |
| SchemaBuilder.ScanNamesDefinitions | introspector/src/project_introspector/schema_builder.py:49-84 | the functions and methods scanned in one module are its function definitions, and its classes are as many as the tree defines |
| SchemaBuilder.AllScansNameDefinitions | introspector/src/project_introspector/schema_builder.py:38-84 | over all parsed modules, what is scanned is what the trees define |
| SchemaBuilder.BuildSchemaOf | introspector/src/project_introspector/schema_builder.py:8-97 | parse trees and events in, a schema out whose function symbols name the function definitions of all trees and whose class symbols name their classes, with conserved runtime counts |
| RuntimeStore.AnalyzerStorage.AppendRuntime | introspector/analyzer/storage.py:147-170 | the payload goes to the project of its first event and that project's log goes through retention; other logs are unchanged |
| RuntimeStore.AnalyzerStorage.CompactRuntime | introspector/analyzer/storage.py:172-194 | deleting by age, then the oldest beyond the cap, is retention of the log, and touches no other project |
| RuntimeStore.RetainExactly | introspector/analyzer/storage.py:172-194 | retention keeps, in order, the last events within the cap among those that are not older than the cutoff, by position |
| RuntimeStore.KeptWasReceived | introspector/analyzer/storage.py:147-170 | what is kept was kept before or is an event of the payload as received, filed under the project of the first |
| RuntimeStore.Replay | introspector/analyzer/storage.py:147-194 | in any mix of appends each project's rows are those its own appends leave |
| RuntimeStore.IncrementalIsSuffix | introspector/analyzer/storage.py:172-194 | with a monotone clock and any timestamps, what is kept is an end of the fresh part of the history |
| RuntimeStore.IncrementalWithinCap | introspector/analyzer/storage.py:180-194 | never more rows than the cap |
| RuntimeStore.IncrementalIsOneShot | introspector/analyzer/storage.py:172-194 | for events in time order, retention after every append equals retention applied once to the whole history |
| RuntimeStore.OrderedHasNoneOlder | introspector/analyzer/storage.py:147-194 | a history in time order meets the condition of OneShotExactly |
| RuntimeStore.OneShotExactly | introspector/analyzer/storage.py:147-194 | for every history and retention period: all splits into appends and all caps agree with retention applied once if and only if no event is followed by two older ones |
| RuntimeStore.AppendsAreNotEmpty | introspector/analyzer/storage.py:148-149 | an append without events is never compacted, so those of a project all have some |
| RuntimeStore.OutOfOrderLosesMore | introspector/analyzer/storage.py:147-194 | two appends after which the two differ |
| RunBuilder.BuildResult | introspector/scripts/run_full_local_analysis.py:119-204 | when it fails, and otherwise that status, limits, layers and artifacts say what the inputs were |
| RunBuilder.OnlyFilesCanBeWrong | introspector/scripts/run_full_local_analysis.py:143-204 | for every built result the validator can only object to missing or invalid files, and to COMPLETED because of them; COMPLETED comes without limits |
| RunValidator.RunResult.Validate | introspector/src/project_introspector/run_validator.py:43-96 | the findings, in order, are those of artifacts, layers and top status |
| RunValidator.RunResult.Normalize | introspector/src/project_introspector/run_validator.py:112-131 | new codes are appended to the limits once and the status is lowered as the findings demand |
| RunValidator.FindingsExactly | introspector/src/project_introspector/run_validator.py:43-96 | a finding is made if and only if its own condition on result and files holds, with its severity and path; the one about the top status if and only if the run is COMPLETED and another is an error |
| RunValidator.StatusExactly | introspector/src/project_introspector/run_validator.py:126-131 | the status afterwards is FAILED, DEGRADED or COMPLETED exactly under these conditions |
| RunValidator.NewLimitsAreFindings | introspector/src/project_introspector/run_validator.py:113-125 | each new limit is a finding with its severity, and its code was not listed before |
| RunValidator.LimitsGrowByFindings | introspector/src/project_introspector/run_validator.py:116-119 | the old limits are a prefix of the new ones, which gain exactly the codes found |
| RunValidator.NormalizeIsFixpoint | introspector/src/project_introspector/run_validator.py:43-131 | validating and normalizing again adds no code and changes no status |
| RunValidator.CompletedMeansClean | introspector/src/project_introspector/run_validator.py:43-131 | a normalized COMPLETED result has no finding, and every artifact and path it declares exists |
| RunValidator.NeverMoreOptimistic | introspector/src/project_introspector/run_validator.py:120-131 | the status gets more optimistic if and only if a FAILED run has errors and its factual layer did not fail |
| ProjectAnalysisPolicy.ExternalRoots | introspector/src/project_introspector/project_analysis_policy.py:28-40 | exactly the roots of import targets that are neither modules nor internal roots |
| ProjectAnalysisPolicy.FilterKnown | introspector/src/project_introspector/project_analysis_policy.py:18-25 | kept and removed are the known and unknown part of the deduplicated list, in order |
| ProjectAnalysisPolicy.LLMProjectAnalysis.ApplyPolicy | introspector/src/project_introspector/project_analysis_policy.py:49-137 | the whole new state, with what the schema knows collected exactly |
| ProjectAnalysisPolicy.ListsArePartitioned | introspector/src/project_introspector/project_analysis_policy.py:62-100 | each grounded list is an order-preserving partition of its deduplicated input into kept (known) and removed (unknown) |
| ProjectAnalysisPolicy.KeptExactly | introspector/src/project_introspector/project_analysis_policy.py:44-100 | which values stay in each of the five lists, in terms of modules, symbols and external roots |
| ProjectAnalysisPolicy.CodesExactly | introspector/src/project_introspector/project_analysis_policy.py:62-134 | a warning code is there afterwards if and only if it was before or its reason holds; none twice |
| ProjectAnalysisPolicy.WarningsExactly | introspector/src/project_introspector/project_analysis_policy.py:135-136 | written warnings stay, otherwise each code is shown in order |
| ProjectAnalysisPolicy.RootExactly | introspector/src/project_introspector/project_analysis_policy.py:30-37 | the root of a dotted name is what stands before its first dot |
| ProjectAnalysisPolicy.DegradedExactly | introspector/src/project_introspector/project_analysis_policy.py:108-120 | degraded if and only if it was before, or three were removed, or something was removed and it is at least 30% |
| ProjectAnalysisPolicy.SecondPassChangesNothing | introspector/src/project_introspector/project_analysis_policy.py:49-137 | applying the policy again changes only the record of what was removed |
| SymbolCatalog.ModuleSymbolCatalog | introspector/src/project_introspector/module_policy_surface.py:10-22 | every name leads to the latest symbol that goes by it, and no other name is known |
| SymbolCatalog.BindingsExactly | introspector/src/project_introspector/module_policy_surface.py:10-22 | the names of the catalog are exactly the qualified and bare names of functions, classes and methods, and `Class.method` |
| SymbolCatalog.CatalogIsGrounded | introspector/src/project_introspector/module_policy_surface.py:10-22 | the catalog leads only to declared symbols and knows every qualified name |
| SymbolCatalog.QualifiedNameFoundExactly | introspector/src/project_introspector/module_policy_surface.py:10-22 | a declared qualified name leads to its own symbol if and only if no method takes it as `Class.method` for another symbol after everything really called so |
| SymbolCatalog.FunctionNameFoundExactly | introspector/src/project_introspector/module_policy_surface.py:10-22 | a function's name is found if and only if no class has a method that is `Class.method` under it |
| SymbolCatalog.FunctionHiddenByMethod | introspector/src/project_introspector/module_policy_surface.py:10-22 | a module where a function's qualified name leads to a method |
| SymbolCatalog.ClassHiddenByMethod | introspector/src/project_introspector/module_policy_surface.py:10-22 | a module where a class's qualified name leads to a method |
| SymbolCatalog.ResolveSymbol | introspector/src/project_introspector/module_policy_surface.py:29-41 | exact name, last two parts, last part, then any known name with that ending; nothing only if there is none |
| SymbolCatalog.PartsAreLast | introspector/src/project_introspector/module_policy_surface.py:34-35 | the last part and the last two parts of a name given by its dotted parts |
| SymbolCatalog.EndsLikeExactly | introspector/src/project_introspector/module_policy_surface.py:38-41 | a known name matches a candidate if and only if it ends in the candidate's last two parts; the other test is redundant |
| SymbolCatalog.CanonicalizeSymbols | introspector/src/project_introspector/module_policy_surface.py:25-45 | the distinct results of resolving each candidate, in order, for every order of the set |
| SymbolCatalog.ResolvedAreDeclared | introspector/src/project_introspector/module_policy_surface.py:25-45 | whatever the search finds, results are declared, distinct, and no more than the candidates |
| SymbolCatalog.KnownNamesStay | introspector/src/project_introspector/module_policy_surface.py:29-33 | a candidate that is a known name is never dropped |
| SymbolCatalog.CanonicalizeDependencies | introspector/src/project_introspector/module_policy_surface.py:48-68 | the distinct imports the candidates stand for, in order |
| SymbolCatalog.FirstMatchExactly | introspector/src/project_introspector/module_policy_surface.py:60-64 | the match is the first import that ends in the last part of the candidate |
| SymbolCatalog.DependenciesAreImports | introspector/src/project_introspector/module_policy_surface.py:48-68 | every result is an import, and a candidate that is an import stays |
| PublicSurface.CanonicalPublicSymbols | introspector/src/project_introspector/module_policy_surface.py:85-160 | the first five of the wanted ranked names with entrypoints, or of all ranked names |
| PublicSurface.RankedFunctionsExactly | introspector/src/project_introspector/module_policy_surface.py:92-96 | exactly the functions without a leading underscore are ranked |
| PublicSurface.RankedClassesExactly | introspector/src/project_introspector/module_policy_surface.py:97-132 | exactly the classes without a leading underscore and with a positive score are ranked |
| PublicSurface.LeftOutExactly | introspector/src/project_introspector/module_policy_surface.py:111-132 | a class without a mock name is left out if and only if there is a substantial class, its name has a helper ending, and it has no public method and not both a method and a docstring; for mocks, the number of methods decides |
| PublicSurface.SubstantialExactly | introspector/src/project_introspector/module_policy_surface.py:102-109 | there is a substantial class if and only if some public class has a public method, two methods, or a docstring with a first sentence |
| PublicSurface.MethodsAndDocstringsCount | introspector/src/project_introspector/module_policy_surface.py:111-126 | what a further method or a docstring changes in the rank of a class |
| PublicSurface.FunctionsInOrder | introspector/src/project_introspector/module_policy_surface.py:133-143 | functions named like entrypoints come first, and names fall among equals |
| PublicSurface.EntrypointsExactly | introspector/src/project_introspector/module_policy_surface.py:133-154 | an entrypoint is a dotted name whose last part is one of six |
| PublicSurface.RankingSorts | introspector/src/project_introspector/module_policy_surface.py:128-139 | ranking permutes and orders by falling score, then falling name |
| PublicSurface.SurfaceIsPublic | introspector/src/project_introspector/module_policy_surface.py:85-160 | at most five top-level public names; the best ranked of the model's names first; others only as entrypoints; empty only if nothing is ranked |
| ModuleGrounding.AppendObserved | introspector/src/project_introspector/module_analysis_policy.py:42-49 | observed symbols are appended once, by falling count and then name |
| ModuleGrounding.ByCallsSorts | introspector/src/project_introspector/module_analysis_policy.py:42-49 | observed symbols are listed by falling count, then by name, none lost |
| ModuleGrounding.FilterCleanupCandidates | introspector/src/project_introspector/module_policy_surface.py:212-224 | keeps, in order, the private names without runtime calls outside public classes |
| ModuleGrounding.LLMModuleAnalysis.Sanitize | introspector/src/project_introspector/module_analysis_policy.py:106-210 | the new lists are the grounded ones, degraded gains exactly the drift decision and the case of no purpose and no responsibilities, and the runtime signal is never reported lost |
| ModuleGrounding.PublicSymbolsAreDeclared | introspector/src/project_introspector/module_analysis_policy.py:24-40 | for every search order, public symbols are declared; if any name is ranked there are one to five, all top-level and public |
| ModuleGrounding.FallbackExactly | introspector/src/project_introspector/module_analysis_policy.py:26-34 | the stand-ins are the first ten public names, functions before classes |
| ModuleGrounding.MocksGo | introspector/src/project_introspector/module_policy_surface.py:77-82 | names whose last part starts with Mock go, unless all do |
| ModuleGrounding.HotspotsAreObservedOrDeclared | introspector/src/project_introspector/module_analysis_policy.py:41-49 | hotspots are exactly the observed symbols and what was resolved, distinct, and nothing undeclared and unobserved |
| ModuleGrounding.SignalKept | introspector/src/project_introspector/module_analysis_policy.py:205-207 | the branch for a lost runtime signal cannot be taken |
| ModuleGrounding.CleanupIsPrivateAndIdle | introspector/src/project_introspector/module_analysis_policy.py:51-52 | cleanup candidates are declared, private, outside public classes, and have no positive count |
| ModuleGrounding.CleanupExactly | introspector/src/project_introspector/module_policy_surface.py:212-224 | a name given by its dotted parts stays a candidate if and only if it was resolved, has no positive count, starts with an underscore, and its owner is not a class with a capital letter, mocks excepted |
| ModuleGrounding.DependenciesAreStatic | introspector/src/project_introspector/module_analysis_policy.py:53-56 | dependencies are static imports, and none only if there are none to stand in |
| ModuleGrounding.DriftDegradesExactly | introspector/src/project_introspector/module_analysis_policy.py:67-104 | drift degrades if and only if at most a quarter of a critical list survived; two severe fields never decide |
| ModuleGrounding.InventedPublicSymbolsFlaggedExactly | introspector/src/project_introspector/module_analysis_policy.py:26-34 | when no public symbol resolves, it counts as severe drift if and only if four times the stand-ins are no more than what was given |
| ImportNormalization.NormalizedImportTargets | introspector/src/project_introspector/import_normalization.py:39-45 | sorted, distinct, and exactly the non-empty normalized imports |
| ImportNormalization.RelativeImport | introspector/src/project_introspector/import_normalization.py:25-36 | what a written relative import is resolved to, in terms of its parts |
| ImportNormalization.KindsExactly | introspector/src/project_introspector/import_normalization.py:11-24 | which imports are future imports and which are relative |
| ImportNormalization.RootIsFirstPart | introspector/src/project_introspector/import_normalization.py:11-36 | the root is the first dotted part of the normal form, and there is one unless that is empty |
| ImportNormalization.AgreesWithPython | introspector/src/project_introspector/import_normalization.py:4-36 | agrees with Python's resolution if and only if the level is within the package depth |
| ImportNormalization.PackageImportsGoTooHigh | introspector/src/project_introspector/scanner.py:465-470 | in a package's `__init__`, whose path is the package's, a relative import is resolved as Python resolves it with one more dot, and never as Python resolves it |
| ImportNormalization.RelativeRoundTrip | introspector/src/project_introspector/import_normalization.py:4-36 | printing a target relative to a module of the same top-level package and normalizing returns it |
| ImportNormalization.NormalizedStartsWithName | introspector/src/project_introspector/import_normalization.py:11-36 | a normalized import never starts with a dot |
| ImportNormalization.NormalFormIffStripped | introspector/src/project_introspector/import_normalization.py:11-36 | a normalized import normalizes to itself if and only if it has no white space at its ends |
| ImportNormalization.IdentifiersNormalize | introspector/src/project_introspector/import_normalization.py:11-36 | with identifiers as parts that is always so |
| ImportNormalization.SpacedImportIsNoNormalForm | introspector/src/project_introspector/import_normalization.py:25-36 | an import whose normalized form is not a normal form |
| PurposeText.FinalizePurposePhrase | introspector/src/project_introspector/module_policy_semantics.py:150-168 | the loop drops dangling words as the recursive definition does, with its early exits |
| PurposeText.DropsDanglingExactly | introspector/src/project_introspector/module_policy_semantics.py:150-168 | what is left is the longest front of the words whose last word may stand there; nothing if there is none |
| PurposeText.TruncatedExactly | introspector/src/project_introspector/module_policy_semantics.py:137-142 | a long sentence keeps its first 93 characters up to the last space among them, without pauses at the end |
| PurposeText.LongSentenceKeepsFront | introspector/src/project_introspector/module_policy_semantics.py:137-168 | the phrase of a long sentence is a front of it without dots, dangling words, pauses or dashes at its end |
| PurposeText.DropsOnePrefix | introspector/src/project_introspector/module_policy_semantics.py:127-136 | each of the four ways to talk about the module, in any letter case, is dropped from any text |
| PurposeText.OnePrefixDropped | introspector/src/project_introspector/module_policy_semantics.py:118-147 | the normal form of a text that talks about the module is that of what follows, from which nothing more is dropped |
| PurposeText.NormalFormShape | introspector/src/project_introspector/module_policy_semantics.py:145-147 | a normal form starts with no small letter and ends in no full stop |
| PurposeText.PrefixIgnoredExactly | introspector/src/project_introspector/module_policy_semantics.py:118-147 | while nothing is cut, talking about the module first leaves the normal form as it is if and only if the sentence does not do so already |
| PurposeText.LastWordIs | introspector/src/project_introspector/module_policy_semantics.py:158-160 | the word that is compared with the dangling ones is the last word without pauses and dashes around it, in small letters |
| PurposeText.FirstSentenceOf | introspector/src/project_introspector/module_policy_base.py:81-91 | a clean sentence without separators loses only its full stop |
| PurposeText.FirstSentenceIsFront | introspector/src/project_introspector/module_policy_base.py:81-91 | for every text the first sentence is a front of the collapsed text, up to its first separator and 160 characters, with only full stops and spaces missing |
| PurposeText.LineBreaksAreGone | introspector/src/project_introspector/module_policy_base.py:84-90 | the branch for line breaks cannot be taken |
| PurposeText.SentenceNormalizes | introspector/src/project_introspector/module_policy_semantics.py:118-147 | the normal form of a template sentence that fits is the sentence without its full stop |
| PurposeText.SentenceParses | introspector/src/project_introspector/module_policy_semantics.py:16-41 | a template sentence parses to the code of its template and topic, and never as another template |
| PurposeText.TemplateTexts | introspector/src/project_introspector/module_policy_semantics.py:25-40 | the words of the four sentences and the codes |
| PurposeText.PrefixedSentenceNormalizes | introspector/src/project_introspector/module_policy_semantics.py:118-147 | for every template, topic that fits and talking prefix in any letter case, capitalized or not, the normal form is the capitalized phrase |
| PurposeText.PrefixedSentenceParses | introspector/src/project_introspector/module_policy_semantics.py:16-41 | so it parses to the code of its template and topic |
| PurposeText.CodePrints | introspector/src/project_introspector/tui_text.py:758-783 | a code prints as the sentence, for every topic, colons included |
| PurposeText.NormalFormTooShort | introspector/src/project_introspector/module_policy_semantics.py:118-147 | with a separator or too many characters the normal form is shorter than the phrase |
| PurposeText.RoundTripExactly | introspector/src/project_introspector/module_policy_semantics.py:16-41 | text to code to text gives the text back if and only if the topic is free of separators, also at its end, and the phrase fits |
| DerivedDocCache.TuiClient.FetchDerivedDoc | introspector/src/project_introspector/tui_client.py:138-159 | the new cache and the answer, for every reply of the server |
| DerivedDocCache.TuiClient.InvalidateRuntimeCache | introspector/src/project_introspector/tui_client.py:566-573 | everything is forgotten |
| DerivedDocCache.TuiClient.InvalidateArtifactCache | introspector/src/project_introspector/tui_client.py:579-600 | everything, or the documents of one module, are forgotten |
| DerivedDocCache.ReturnedDocIsRecent | introspector/src/project_introspector/tui_client.py:138-159 | in every run under a monotone clock a returned document is what the server held no later than the answer and at most the time to live plus one latency before it |
| DerivedDocCache.ServerIsNotAsked | introspector/src/project_introspector/tui_client.py:138-147 | the reply makes no difference if and only if the fetch is not forced and there is a live entry or a key known to be missing; a live entry is the answer |
| DerivedDocCache.StoredDocAnswers | introspector/src/project_introspector/tui_client.py:138-159 | through any actions that spare it, a stored document answers every unforced fetch within its time to live |
| DerivedDocCache.InvalidatesExactly | introspector/src/project_introspector/tui_client.py:579-600 | exactly the key of the module's document is forgotten, or everything |
| DerivedDocCache.SafeNameOfParts | introspector/src/project_introspector/tui_client.py:579-600 | in a key the dots of a module path are two underscores and the slashes one |
| DerivedDocCache.MissingIsSticky | introspector/src/project_introspector/tui_client.py:138-159 | a key found missing stays missing without asking, until forced or invalidated |
| DerivedDocCache.StepKeepsMissingIffNone | introspector/src/project_introspector/tui_client.py:138-159 | a step keeps "missing exactly when the payload is None" if and only if it does not store a JSON null |
| DerivedDocCache.RunKeepsMissingIffNone | introspector/src/project_introspector/tui_client.py:138-159 | with a server that never sends null it holds in every run |
| ActionHistory.OperatorActionHistory.Trim | introspector/src/project_introspector/tui_action_history.py:96-102 | the last entries within the bound stay |
| ActionHistory.OperatorActionHistory.RecordEntry | introspector/src/project_introspector/tui_action_history.py:64-85 | append and trim |
| ActionHistory.TimestampExactly | introspector/src/project_introspector/tui_action_history.py:64-85 | a time is the given one unless it is missing or empty |
| ActionHistory.OperatorActionHistory.Start | introspector/src/project_introspector/tui_action_history.py:31-39 | an open entry is appended and the log trimmed |
| ActionHistory.OperatorActionHistory.FinishAction | introspector/src/project_introspector/tui_action_history.py:41-62 | the newest open entry of the action is closed in place, or a closed one is recorded |
| ActionHistory.OperatorActionHistory.ExtendWith | introspector/src/project_introspector/tui_action_history.py:92-94 | append all and trim |
| ActionHistory.OperatorActionHistory.Latest | introspector/src/project_introspector/tui_action_history.py:87-90 | the newest entries, newest first |
| ActionHistory.FinishExactly | introspector/src/project_introspector/tui_action_history.py:41-62 | a finish closes the newest open entry of its action in place, keeping its label and start, or logs a closed entry under its own key |
| ActionHistory.StartThenFinish | introspector/src/project_introspector/tui_action_history.py:31-62 | whatever else is logged in between, finishing a started action closes the entry of its start |
| ActionHistory.NewestOpenInSuffix | introspector/src/project_introspector/tui_action_history.py:41-62 | the backward search selects the same entry in the bounded and in the unbounded log, or nothing if that one was evicted |
| ActionHistory.StepKeepsSuffixExactly | introspector/src/project_introspector/tui_action_history.py:31-102 | a step keeps the bounded log the end of the unbounded one if and only if it does not finish an evicted entry, up to a bound of none and logs of one repeated entry |
| ActionHistory.BoundedIsSuffix | introspector/src/project_introspector/tui_action_history.py:31-102 | after every run without such a finish the bounded log is the last entries of the unbounded one |
| ActionHistory.BoundedIsSuffixExactly | introspector/src/project_introspector/tui_action_history.py:31-102 | the bounded log is the end of the unbounded one in every state of a run if and only if no operation finishes an evicted entry with an entry recorded instead that shows |
| ActionHistory.EvictedFinishDiverges | introspector/src/project_introspector/tui_action_history.py:41-62 | a finish of an evicted entry after which it is not |

## Left out

- CommandDecision.PublishedOnceAndAsSealed: late puts of a decision that is still SEALED and already published are excluded from runs; LateReturnRepublishes shows that this is exactly the case that breaks it.
- CommandDecision.StoredDecisionsAgree: nothing is claimed about the stages acknowledge, effect and audit. Timestamps and the trace record are not modelled.
- CanonicalJson.CanonicalInjective: floats are the tokens Python prints, which are numbers of RFC 8259 with a fraction or an exponent, or one of three words, so 0.0 and -0.0, and 1 and 1.0, count as different; lists and tuples print alike and are one; lone surrogates, non-string keys and cyclic trees, which raise in Python, are not values of the model.
- SealedParameters.DeepCopy: trees that contain themselves are not values of the model.
- EventEmitter.Emitter.Flush: the HTTP client, the drop warnings and their rate limit, and the exit hook are not modelled.
- EventEmitter.BufferIsSuffix: without overlapping flushes; with them OrderExactly and AckOrderExactly say when buffer and acknowledged batches are in order.
- SealedParameters.AnyCallerRun: the caller starts from containers outside the seal. Code that holds the decision can also write into the sealed tree itself, which is what RecomputeDigest detects.
- Scanner.ScanModule: imports, parameters, docstrings, locations, routes, environment variables, command line options, models and attributes add facts of their own to the same walk and are not modelled; parsing is Python's.
- SchemaBuilder.BuildSchema: docstring flags, notes and edge labels are not modelled.
- RuntimeStore.AnalyzerStorage.AppendRuntime: rows are a sequence in identifier order; SQL, the JSON mirror and its agreement with the table, and file names are not modelled. Timestamps are points of a total order.
- RunBuilder.BuildResult: event counts are integers or missing; other values that Python's `int` would convert or refuse are not modelled, nor are messages, the other fields of the layers, provider details and next steps.
- RunValidator.RunResult.Validate: messages and layer names of findings are not modelled; the directory is a set of existing paths, of directories, and of files that hold a JSON object.
- ProjectAnalysisPolicy.LLMProjectAnalysis.ApplyPolicy: warning texts are represented by their codes.
- ProjectAnalysisPolicy.DegradedExactly: the ratio is exact; the rounding of Python's quotient and of 0.3 is not modelled.
- PublicSurface.CanonicalPublicSymbols: lower case is folded for ASCII letters only.
- ModuleGrounding.LLMModuleAnalysis.Sanitize: how purpose and responsibilities are selected is not modelled, they are parameters; hints, notes, warnings and status axes are not modelled. A capital letter is an ASCII one.
- ModuleGrounding.DriftDegradesExactly: the ratio is exact; the rounding of Python's quotient is not modelled.
- ImportNormalization.AgreesWithPython: for modules that are not packages, since the scanner drops `__init__` from module paths; PackageImportsGoTooHigh covers packages.
- PurposeText.PrefixIgnoredExactly: for texts that start with a letter or another character that is not trimmed, and up to the length at which a phrase is cut; OnePrefixDropped covers such texts up to the length at which a sentence is cut.
- PurposeText.RoundTripExactly: topics are single-spaced, and the semantic profile answers None, as the only profile of the repository does. Case is folded for ASCII letters only. Codes for responsibilities and the other languages are table lookups.
- DerivedDocCache.ReturnedDocIsRecent: the bound includes the latency of one request, because the entry is stamped after the reply. The other caches of the client and its file search are not modelled.
- ActionHistory.OperatorActionHistory.RecordEntry: clocks are parameters; rendering is not modelled.
- Not modelled at all: the radar, simulation and console services, message transport, the terminal interface, prompts and providers, body status thresholds, artifact resolution and freshness classification. They would add transport or single-branch members.
