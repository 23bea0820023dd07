/**
 Grounding a project analysis in the schema: unknown names are taken out of five lists, the rest is
 deduplicated, and the analysis is marked degraded when too much had to go.
 */
module ProjectAnalysisPolicy {
  import opened PyText
  import opened ImportNormalization

  datatype Module = Module(modulePath: string, factTargets: seq<string>, imports: seq<string>)

  datatype Schema = Schema(projectName: string, modules: seq<Module>, symbols: seq<string>, runtimeEventCount: nat)

  datatype Field = CRITICAL_MODULES | LOW_SIGNAL_MODULES | EXTERNAL_DEPENDENCIES | KEY_ENTRYPOINTS | CLEANUP_CANDIDATES

  datatype WarningCode =
    | REMOVED_UNKNOWN(field: Field)
    | CLEANUP_REQUIRES_MANUAL_REVIEW
    | SEVERE_GROUNDING_DRIFT
    | RUNTIME_ABSENCE_NOT_DEAD_CODE
    | OTHER(text: string)

  /** A warning is written by someone, or is a code with its underscores turned into spaces. */
  datatype Warning = Written(text: string) | FromCode(code: WarningCode)

  /** One list per grounded field. As a dictionary of removed items, an empty list stands for an absent key. */
  datatype Lists = Lists(criticalModules: seq<string>, lowSignalModules: seq<string>, externalDependencies: seq<string>,
                         keyEntrypoints: seq<string>, cleanupCandidates: seq<string>)
  {
    function Get(f: Field): seq<string> {
      match f
      case CRITICAL_MODULES => criticalModules
      case LOW_SIGNAL_MODULES => lowSignalModules
      case EXTERNAL_DEPENDENCIES => externalDependencies
      case KEY_ENTRYPOINTS => keyEntrypoints
      case CLEANUP_CANDIDATES => cleanupCandidates
    }

    function Total(): nat {
      |criticalModules| + |lowSignalModules| + |externalDependencies| + |keyEntrypoints| + |cleanupCandidates|
    }
  }

  datatype AnalysisData = AnalysisData(
    projectName: string, lists: Lists, documentationCandidates: seq<string>, risks: seq<string>,
    recommendedNextSteps: seq<string>, degraded: bool, removedItems: Lists,
    warningCodes: seq<WarningCode>, warnings: seq<Warning>)

  /** What the schema knows. */
  datatype Grounding = Grounding(projectName: string, modules: set<string>, symbols: set<string>, externalRoots: set<string>,
                                 runtimeEventCount: nat)

  // ---------------------------------------------------------------- known names

  predicate EntrypointKnown(value: string, g: Grounding) {
    || value in g.modules || value in g.symbols
    || exists m | m in g.modules :: m + ":" <= value || m + "." <= value
  }

  predicate Known(f: Field, value: string, g: Grounding) {
    match f
    case CRITICAL_MODULES => value in g.modules
    case LOW_SIGNAL_MODULES => value in g.modules
    case EXTERNAL_DEPENDENCIES => value in g.externalRoots
    case KEY_ENTRYPOINTS => EntrypointKnown(value, g)
    case CLEANUP_CANDIDATES => value in g.modules || value in g.symbols
  }

  ghost predicate Imports(m: Module, target: string) {
    if exists t :: t in m.factTargets && t != "" then target in m.factTargets && target != ""
    else target != "" && IsTarget(m.modulePath, m.imports, target)
  }

  function RootOf(dotted: string): string { Split('.', dotted)[0] }

  ghost predicate ModulePath(schema: Schema, path: string) {
    exists i | 0 <= i < |schema.modules| :: schema.modules[i].modulePath == path
  }

  ghost predicate InternalRoot(schema: Schema, root: string) {
    exists i | 0 <= i < |schema.modules| :: schema.modules[i].modulePath != "" && RootOf(schema.modules[i].modulePath) == root
  }

  /** The target leads out of the project. */
  ghost predicate LeadsOut(schema: Schema, target: string) {
    && RootOf(target) != "" && RootOf(target) != FUTURE_MODULE
    && !ModulePath(schema, target) && !InternalRoot(schema, RootOf(target))
  }

  ghost predicate RootFrom(schema: Schema, targets: seq<string>, root: string) {
    exists t :: t in targets && LeadsOut(schema, t) && RootOf(t) == root
  }

  ghost predicate ExternalRoot(schema: Schema, modules: seq<Module>, root: string) {
    exists i, t | 0 <= i < |modules| :: Imports(modules[i], t) && LeadsOut(schema, t) && RootOf(t) == root
  }

  /** The import targets of one module: the scanned facts, or the raw imports normalized. */
  method TargetsOf(m: Module) returns (targets: seq<string>)
    ensures forall t :: t in targets <==> Imports(m, t)
  {
    targets := NonEmpty(m.factTargets);
    assert forall t :: t in targets <==> t in m.factTargets && t != "";
    if targets == [] {
      targets := NormalizedImportTargets(m.modulePath, m.imports);
    } else {
      HeadIsMember(targets);
    }
  }

  method ExternalRoots(schema: Schema) returns (roots: set<string>)
    ensures forall r :: r in roots <==> ExternalRoot(schema, schema.modules, r)
  {
    hide RootOf, ExternalRoot, RootFrom, LeadsOut, Imports;
    NoRootsYet(schema);
    var moduleIndex := set i | 0 <= i < |schema.modules| :: schema.modules[i].modulePath;
    var internalRoots := set i | 0 <= i < |schema.modules| && schema.modules[i].modulePath != "" :: RootOf(schema.modules[i].modulePath);
    roots := {};
    for i := 0 to |schema.modules|
      invariant forall r :: r in roots <==> ExternalRoot(schema, schema.modules[..i], r)
    {
      var targets := TargetsOf(schema.modules[i]);
      NoRootsFrom(schema, targets[..0]);
      for j := 0 to |targets|
        invariant forall r :: r in roots <==> ExternalRoot(schema, schema.modules[..i], r) || RootFrom(schema, targets[..j], r)
      {
        var imported := targets[j];
        var root := RootOf(imported);
        assert LeadsOut(schema, imported) <==>
               root != "" && imported !in moduleIndex && root !in internalRoots && root != FUTURE_MODULE
        by { Outside(schema, imported, moduleIndex, internalRoots); }
        forall r { OneMoreTarget(schema, targets, j, r); }
        if root != "" && imported !in moduleIndex && root !in internalRoots && root != FUTURE_MODULE {
          roots := roots + {root};
        }
      }
      assert targets[..|targets|] == targets;
      forall r ensures ExternalRoot(schema, schema.modules[..i + 1], r) <==>
                       ExternalRoot(schema, schema.modules[..i], r) || RootFrom(schema, targets, r)
      {
        OneMoreModule(schema, i, targets, r);
      }
    }
    assert schema.modules[..|schema.modules|] == schema.modules;
  }

  lemma NoRootsYet(schema: Schema)
    ensures forall r :: !ExternalRoot(schema, schema.modules[..0], r)
  {
  }

  lemma NoRootsFrom(schema: Schema, targets: seq<string>)
    requires targets == []
    ensures forall r :: !RootFrom(schema, targets, r)
  {
  }

  /** The test of the source. */
  lemma Outside(schema: Schema, target: string, moduleIndex: set<string>, internalRoots: set<string>)
    requires forall p :: p in moduleIndex <==> ModulePath(schema, p)
    requires forall r :: r in internalRoots <==> InternalRoot(schema, r)
    ensures LeadsOut(schema, target) <==>
            var root := RootOf(target);
            root != "" && target !in moduleIndex && root !in internalRoots && root != FUTURE_MODULE
  {
  }

  lemma OneMoreTarget(schema: Schema, targets: seq<string>, j: nat, r: string)
    requires j < |targets|
    ensures RootFrom(schema, targets[..j + 1], r) <==>
            RootFrom(schema, targets[..j], r) || (LeadsOut(schema, targets[j]) && RootOf(targets[j]) == r)
  {
    hide LeadsOut, RootOf;
    assert targets[..j + 1] == targets[..j] + [targets[j]];
  }

  lemma OneMoreModule(schema: Schema, i: nat, targets: seq<string>, r: string)
    requires i < |schema.modules| && forall t :: t in targets <==> Imports(schema.modules[i], t)
    ensures ExternalRoot(schema, schema.modules[..i + 1], r) <==>
            ExternalRoot(schema, schema.modules[..i], r) || RootFrom(schema, targets, r)
  {
    var front, more := schema.modules[..i], schema.modules[..i + 1];
    assert more == front + [schema.modules[i]];
    if ExternalRoot(schema, front, r) {
      var k, t :| 0 <= k < |front| && Imports(front[k], t) && LeadsOut(schema, t) && RootOf(t) == r;
      assert more[k] == front[k];
    }
    if RootFrom(schema, targets, r) {
      var t :| t in targets && LeadsOut(schema, t) && RootOf(t) == r;
      assert more[i] == schema.modules[i] && Imports(more[i], t);
    }
  }

  // ---------------------------------------------------------------- kept and removed

  function Deduped(values: seq<string>): seq<string> { Dedupe(NonEmpty(values)) }

  /** The known (or the unknown) values of a list, in order. */
  function Select(values: seq<string>, f: Field, g: Grounding, known: bool): seq<string> {
    if values == [] then []
    else
      var last := values[|values| - 1];
      Select(values[..|values| - 1], f, g, known) + if Known(f, last, g) == known then [last] else []
  }

  /** Each list split into what is known (`true`) or unknown (`false`). */
  function SelectAll(lists: Lists, g: Grounding, known: bool): Lists {
    Lists(Select(Deduped(lists.criticalModules), CRITICAL_MODULES, g, known),
          Select(Deduped(lists.lowSignalModules), LOW_SIGNAL_MODULES, g, known),
          Select(Deduped(lists.externalDependencies), EXTERNAL_DEPENDENCIES, g, known),
          Select(Deduped(lists.keyEntrypoints), KEY_ENTRYPOINTS, g, known),
          Select(Deduped(lists.cleanupCandidates), CLEANUP_CANDIDATES, g, known))
  }

  function Max(a: int, b: int): int { if a < b then b else a }

  predicate Degrades(alreadyDegraded: bool, removedCount: nat, declaredCount: nat) {
    || alreadyDegraded || removedCount >= 3
    || removedCount as real / Max(declaredCount, 1) as real >= 0.3
  }

  function When(condition: bool, code: WarningCode): seq<WarningCode> { if condition then [code] else [] }

  function RemovalCodes(removed: Lists): seq<WarningCode> {
    When(removed.criticalModules != [], REMOVED_UNKNOWN(CRITICAL_MODULES))
    + When(removed.lowSignalModules != [], REMOVED_UNKNOWN(LOW_SIGNAL_MODULES))
    + When(removed.externalDependencies != [], REMOVED_UNKNOWN(EXTERNAL_DEPENDENCIES))
    + When(removed.keyEntrypoints != [], REMOVED_UNKNOWN(KEY_ENTRYPOINTS))
    + When(removed.cleanupCandidates != [], REMOVED_UNKNOWN(CLEANUP_CANDIDATES))
  }

  /** The codes one application adds, in the order they are raised. */
  function RaisedCodes(kept: Lists, removed: Lists, degraded: bool, runtimeEventCount: nat): seq<WarningCode> {
    RemovalCodes(removed)
    + When(kept.cleanupCandidates != [], CLEANUP_REQUIRES_MANUAL_REVIEW)
    + When(degraded && removed.Total() > 0, SEVERE_GROUNDING_DRIFT)
    + When(runtimeEventCount == 0 && kept.lowSignalModules != [], RUNTIME_ABSENCE_NOT_DEAD_CODE)
  }

  /** Empty codes are dropped like empty values. */
  function RealCodes(codes: seq<WarningCode>): (r: seq<WarningCode>)
    ensures forall c :: c in r <==> c in codes && c != OTHER("")
  {
    if codes == [] then []
    else (if codes[0] == OTHER("") then [] else [codes[0]]) + RealCodes(codes[1..])
  }

  function DedupedCodes(codes: seq<WarningCode>): seq<WarningCode> { Dedupe(RealCodes(codes)) }

  function WarningsFrom(codes: seq<WarningCode>): seq<Warning> {
    seq(|codes|, i requires 0 <= i < |codes| => FromCode(codes[i]))
  }

  /** The analysis once its lists are split. */
  function Finished(d: AnalysisData, g: Grounding, kept: Lists, removed: Lists): AnalysisData {
    var degraded := Degrades(d.degraded, removed.Total(), kept.Total() + removed.Total());
    var codes := DedupedCodes(d.warningCodes + RaisedCodes(kept, removed, degraded, g.runtimeEventCount));
    AnalysisData(g.projectName, kept, Deduped(d.documentationCandidates), Deduped(d.risks), Deduped(d.recommendedNextSteps),
                 degraded, removed, codes, if codes != [] && d.warnings == [] then WarningsFrom(codes) else d.warnings)
  }

  function Applied(d: AnalysisData, g: Grounding): AnalysisData {
    Finished(d, g, SelectAll(d.lists, g, true), SelectAll(d.lists, g, false))
  }

  // ---------------------------------------------------------------- the analysis object

  /** `_filter_known` */
  method FilterKnown(values: seq<string>, f: Field, g: Grounding) returns (kept: seq<string>, removed: seq<string>)
    ensures kept == Select(Deduped(values), f, g, true) && removed == Select(Deduped(values), f, g, false)
  {
    var unique := Deduped(values);
    kept, removed := [], [];
    for i := 0 to |unique|
      invariant kept == Select(unique[..i], f, g, true) && removed == Select(unique[..i], f, g, false)
    {
      assert unique[..i + 1][..i] == unique[..i];
      if Known(f, unique[i], g) { kept := kept + [unique[i]]; } else { removed := removed + [unique[i]]; }
    }
    assert unique[..|unique|] == unique;
  }

  /** The five lists, one after another, with what was removed and the codes that announce it. */
  method GroundLists(lists: Lists, g: Grounding) returns (kept: Lists, removed: Lists, codes: seq<WarningCode>)
    ensures kept == SelectAll(lists, g, true) && removed == SelectAll(lists, g, false)
    ensures codes == RemovalCodes(removed)
  {
    var critical, unknownCritical := FilterKnown(lists.criticalModules, CRITICAL_MODULES, g);
    codes := When(unknownCritical != [], REMOVED_UNKNOWN(CRITICAL_MODULES));
    var lowSignal, unknownLowSignal := FilterKnown(lists.lowSignalModules, LOW_SIGNAL_MODULES, g);
    codes := codes + When(unknownLowSignal != [], REMOVED_UNKNOWN(LOW_SIGNAL_MODULES));
    var external, unknownExternal := FilterKnown(lists.externalDependencies, EXTERNAL_DEPENDENCIES, g);
    codes := codes + When(unknownExternal != [], REMOVED_UNKNOWN(EXTERNAL_DEPENDENCIES));
    var entrypoints, unknownEntrypoints := FilterKnown(lists.keyEntrypoints, KEY_ENTRYPOINTS, g);
    codes := codes + When(unknownEntrypoints != [], REMOVED_UNKNOWN(KEY_ENTRYPOINTS));
    var cleanup, unknownCleanup := FilterKnown(lists.cleanupCandidates, CLEANUP_CANDIDATES, g);
    codes := codes + When(unknownCleanup != [], REMOVED_UNKNOWN(CLEANUP_CANDIDATES));
    kept := Lists(critical, lowSignal, external, entrypoints, cleanup);
    removed := Lists(unknownCritical, unknownLowSignal, unknownExternal, unknownEntrypoints, unknownCleanup);
  }

  /** The codes that the split lists raise, in order. */
  method RaiseCodes(kept: Lists, removed: Lists, removalCodes: seq<WarningCode>, degraded: bool, runtimeEventCount: nat)
    returns (codes: seq<WarningCode>)
    requires removalCodes == RemovalCodes(removed)
    ensures codes == RaisedCodes(kept, removed, degraded, runtimeEventCount)
  {
    codes := removalCodes;
    codes := codes + When(kept.cleanupCandidates != [], CLEANUP_REQUIRES_MANUAL_REVIEW);
    codes := codes + When(degraded && removed.Total() > 0, SEVERE_GROUNDING_DRIFT);
    codes := codes + When(runtimeEventCount == 0 && kept.lowSignalModules != [], RUNTIME_ABSENCE_NOT_DEAD_CODE);
  }

  class LLMProjectAnalysis {
    var projectName: string
    var criticalModules: seq<string>
    var deadOrLowSignalModules: seq<string>
    var externalDependencies: seq<string>
    var keyEntrypoints: seq<string>
    var cleanupCandidates: seq<string>
    var documentationCandidates: seq<string>
    var risks: seq<string>
    var recommendedNextSteps: seq<string>
    var degraded: bool
    var policyRemovedItems: Lists
    var warningCodes: seq<WarningCode>
    var warnings: seq<Warning>

    constructor (d: AnalysisData)
      ensures View() == d
    {
      projectName, degraded, policyRemovedItems := d.projectName, d.degraded, d.removedItems;
      criticalModules, deadOrLowSignalModules := d.lists.criticalModules, d.lists.lowSignalModules;
      externalDependencies, keyEntrypoints := d.lists.externalDependencies, d.lists.keyEntrypoints;
      cleanupCandidates, documentationCandidates := d.lists.cleanupCandidates, d.documentationCandidates;
      risks, recommendedNextSteps := d.risks, d.recommendedNextSteps;
      warningCodes, warnings := d.warningCodes, d.warnings;
    }

    function View(): AnalysisData
      reads this
    {
      AnalysisData(projectName, GroundedLists(), documentationCandidates, risks, recommendedNextSteps, degraded,
                   policyRemovedItems, warningCodes, warnings)
    }

    function GroundedLists(): Lists
      reads this
    {
      Lists(criticalModules, deadOrLowSignalModules, externalDependencies, keyEntrypoints, cleanupCandidates)
    }

    method AssignLists(lists: Lists)
      modifies `criticalModules, `deadOrLowSignalModules, `externalDependencies, `keyEntrypoints, `cleanupCandidates
      ensures GroundedLists() == lists
    {
      criticalModules, deadOrLowSignalModules := lists.criticalModules, lists.lowSignalModules;
      externalDependencies, keyEntrypoints, cleanupCandidates := lists.externalDependencies, lists.keyEntrypoints, lists.cleanupCandidates;
    }

    method AssignTexts(documentation: seq<string>, risks: seq<string>, nextSteps: seq<string>, codes: seq<WarningCode>, warnings: seq<Warning>)
      modifies `documentationCandidates, `risks, `recommendedNextSteps, `warningCodes, `warnings
      ensures documentationCandidates == documentation && this.risks == risks && recommendedNextSteps == nextSteps
      ensures warningCodes == codes && this.warnings == warnings
    {
      documentationCandidates, this.risks, recommendedNextSteps := documentation, risks, nextSteps;
      warningCodes, this.warnings := codes, warnings;
    }

    method Assign(d: AnalysisData)
      modifies this
      ensures View() == d
    {
      AssignLists(d.lists);
      AssignTexts(d.documentationCandidates, d.risks, d.recommendedNextSteps, d.warningCodes, d.warnings);
      projectName, degraded, policyRemovedItems := d.projectName, d.degraded, d.removedItems;
    }

    method ApplyGrounding(g: Grounding)
      modifies this
      ensures View() == Applied(old(View()), g)
    {
      hide Deduped, DedupedCodes, WarningsFrom, SelectAll, RaisedCodes, RemovalCodes, Degrades;
      var d := View();
      var kept, removed, removalCodes := GroundLists(d.lists, g);
      var drifted := Degrades(d.degraded, removed.Total(), kept.Total() + removed.Total());
      var raised := RaiseCodes(kept, removed, removalCodes, drifted, g.runtimeEventCount);
      var codes := DedupedCodes(d.warningCodes + raised);
      var shown := if codes != [] && d.warnings == [] then WarningsFrom(codes) else d.warnings;
      Assign(AnalysisData(g.projectName, kept, Deduped(d.documentationCandidates), Deduped(d.risks),
                          Deduped(d.recommendedNextSteps), drifted, removed, codes, shown));
    }

    /** `apply_project_analysis_policy`: what the schema knows is collected, then the analysis is grounded in it. */
    method ApplyPolicy(schema: Schema) returns (g: Grounding)
      modifies this
      ensures View() == Applied(old(View()), g)
      ensures g.projectName == schema.projectName && g.runtimeEventCount == schema.runtimeEventCount
      ensures forall p :: p in g.modules <==> ModulePath(schema, p)
      ensures forall s :: s in g.symbols <==> s in schema.symbols
      ensures forall r :: r in g.externalRoots <==> ExternalRoot(schema, schema.modules, r)
    {
      var roots := ExternalRoots(schema);
      var modules := set i | 0 <= i < |schema.modules| :: schema.modules[i].modulePath;
      var symbols := set s | s in schema.symbols;
      g := Grounding(schema.projectName, modules, symbols, roots, schema.runtimeEventCount);
      ApplyGrounding(g);
    }
  }

  // ---------------------------------------------------------------- main results

  /** `all` is put together from `a` and `b`, both in order. */
  ghost predicate Interleaves(all: seq<string>, a: seq<string>, b: seq<string>)
    decreases |all|
  {
    if all == [] then a == [] && b == []
    else
      var front, last := all[..|all| - 1], all[|all| - 1];
      || (a != [] && a[|a| - 1] == last && Interleaves(front, a[..|a| - 1], b))
      || (b != [] && b[|b| - 1] == last && Interleaves(front, a, b[..|b| - 1]))
  }

  lemma SelectSplits(values: seq<string>, f: Field, g: Grounding)
    ensures Interleaves(values, Select(values, f, g, true), Select(values, f, g, false))
    ensures forall v | v in Select(values, f, g, true) :: Known(f, v, g)
    ensures forall v | v in Select(values, f, g, false) :: !Known(f, v, g)
    ensures |Select(values, f, g, true)| + |Select(values, f, g, false)| == |values|
  {
    hide *;
    SelectInterleaves(values, f, g);
    SelectMembers(values, f, g, true);
    SelectMembers(values, f, g, false);
  }

  lemma {:induction false} SelectInterleaves(values: seq<string>, f: Field, g: Grounding)
    ensures Interleaves(values, Select(values, f, g, true), Select(values, f, g, false))
    ensures |Select(values, f, g, true)| + |Select(values, f, g, false)| == |values|
    decreases |values|
  {
    if values != [] {
      hide *;
      var n := |values| - 1;
      SelectInterleaves(values[..n], f, g);
      SelectUnfold(values, f, g);
      InterleavesSnoc(values[..n], Select(values[..n], f, g, true), Select(values[..n], f, g, false), values[n]);
      assert values == values[..n] + [values[n]];
    }
  }

  lemma SelectUnfold(values: seq<string>, f: Field, g: Grounding)
    requires values != []
    ensures var n := |values| - 1;
            && Select(values, f, g, true) ==
               (if Known(f, values[n], g) then Select(values[..n], f, g, true) + [values[n]] else Select(values[..n], f, g, true))
            && Select(values, f, g, false) ==
               if Known(f, values[n], g) then Select(values[..n], f, g, false) else Select(values[..n], f, g, false) + [values[n]]
  {
  }

  lemma InterleavesSnoc(all: seq<string>, a: seq<string>, b: seq<string>, x: string)
    requires Interleaves(all, a, b)
    ensures Interleaves(all + [x], a + [x], b) && Interleaves(all + [x], a, b + [x])
  {
    assert (all + [x])[..|all|] == all && (a + [x])[..|a|] == a && (b + [x])[..|b|] == b;
  }

  /** Each grounded list is split, in order, into what the schema knows, which stays, and the rest, which is
      reported as removed; neither repeats a value nor keeps an empty one. */
  lemma ListsArePartitioned(d: AnalysisData, g: Grounding, f: Field)
    ensures var e := Applied(d, g);
            && Interleaves(Deduped(d.lists.Get(f)), e.lists.Get(f), e.removedItems.Get(f))
            && (forall v | v in e.lists.Get(f) :: Known(f, v, g))
            && (forall v | v in e.removedItems.Get(f) :: !Known(f, v, g))
            && Distinct(Deduped(d.lists.Get(f)))
            && (forall v :: v in Deduped(d.lists.Get(f)) <==> v in d.lists.Get(f) && v != "")
  {
    hide Select, Known, Interleaves, RaisedCodes, DedupedCodes, WarningsFrom, Degrades;
    SelectSplits(Deduped(d.lists.Get(f)), f, g);
  }

  lemma {:induction false} SelectMembers(values: seq<string>, f: Field, g: Grounding, known: bool)
    ensures forall v :: v in Select(values, f, g, known) <==> v in values && Known(f, v, g) == known
  {
    if values != [] {
      var n := |values| - 1;
      SelectMembers(values[..n], f, g, known);
      assert values == values[..n] + [values[n]];
    }
  }

  /** An entrypoint is known as a module, as a symbol, or as a module followed by a colon or a dot. */
  lemma EntrypointExactly(v: string, g: Grounding)
    ensures EntrypointKnown(v, g) <==>
            || v in g.modules || v in g.symbols
            || exists m | m in g.modules :: |m| < |v| && v[..|m|] == m && (v[|m|] == ':' || v[|m|] == '.')
  {
    forall m: string ensures (m + ":" <= v || m + "." <= v) <==> |m| < |v| && v[..|m|] == m && (v[|m|] == ':' || v[|m|] == '.') {
      if |m| < |v| { assert v[..|m| + 1] == v[..|m|] + [v[|m|]]; }
    }
  }

  /** What stays in each of the five lists. */
  lemma KeptExactly(d: AnalysisData, g: Grounding, v: string)
    ensures var e := Applied(d, g).lists;
            && (v in e.criticalModules <==> v in d.lists.criticalModules && v != "" && v in g.modules)
            && (v in e.lowSignalModules <==> v in d.lists.lowSignalModules && v != "" && v in g.modules)
            && (v in e.externalDependencies <==> v in d.lists.externalDependencies && v != "" && v in g.externalRoots)
            && (v in e.cleanupCandidates <==> v in d.lists.cleanupCandidates && v != "" && (v in g.modules || v in g.symbols))
            && (v in e.keyEntrypoints <==>
                  && v in d.lists.keyEntrypoints && v != ""
                  && (|| v in g.modules || v in g.symbols
                      || exists m | m in g.modules :: |m| < |v| && v[..|m|] == m && (v[|m|] == ':' || v[|m|] == '.')))
  {
    hide Select, Deduped, EntrypointKnown, RaisedCodes, DedupedCodes, WarningsFrom, Degrades;
    KeptIsKnown(d.lists.criticalModules, CRITICAL_MODULES, g, v);
    KeptIsKnown(d.lists.lowSignalModules, LOW_SIGNAL_MODULES, g, v);
    KeptIsKnown(d.lists.externalDependencies, EXTERNAL_DEPENDENCIES, g, v);
    KeptIsKnown(d.lists.keyEntrypoints, KEY_ENTRYPOINTS, g, v);
    KeptIsKnown(d.lists.cleanupCandidates, CLEANUP_CANDIDATES, g, v);
    EntrypointExactly(v, g);
  }

  lemma KeptIsKnown(values: seq<string>, f: Field, g: Grounding, v: string)
    ensures v in Select(Deduped(values), f, g, true) <==> v in values && v != "" && Known(f, v, g)
  {
    hide Known;
    SelectMembers(Deduped(values), f, g, true);
  }

  /** The codes afterwards: those that were there, and one for each reason to raise it; no code twice. */
  lemma CodesExactly(d: AnalysisData, g: Grounding, c: WarningCode)
    ensures var e := Applied(d, g);
            && Distinct(e.warningCodes)
            && (c in e.warningCodes <==>
                  || (c in d.warningCodes && c != OTHER(""))
                  || match c
                     case REMOVED_UNKNOWN(f) => e.removedItems.Get(f) != []
                     case CLEANUP_REQUIRES_MANUAL_REVIEW => e.lists.cleanupCandidates != []
                     case SEVERE_GROUNDING_DRIFT => e.degraded && exists f :: e.removedItems.Get(f) != []
                     case RUNTIME_ABSENCE_NOT_DEAD_CODE => g.runtimeEventCount == 0 && e.lists.lowSignalModules != []
                     case OTHER(_) => false)
  {
    CodesRaised(d, g, SelectAll(d.lists, g, true), SelectAll(d.lists, g, false), c);
  }

  lemma CodesRaised(d: AnalysisData, g: Grounding, kept: Lists, removed: Lists, c: WarningCode)
    ensures var e := Finished(d, g, kept, removed);
            && Distinct(e.warningCodes)
            && (c in e.warningCodes <==>
                  || (c in d.warningCodes && c != OTHER(""))
                  || match c
                     case REMOVED_UNKNOWN(f) => removed.Get(f) != []
                     case CLEANUP_REQUIRES_MANUAL_REVIEW => kept.cleanupCandidates != []
                     case SEVERE_GROUNDING_DRIFT => e.degraded && exists f :: removed.Get(f) != []
                     case RUNTIME_ABSENCE_NOT_DEAD_CODE => g.runtimeEventCount == 0 && kept.lowSignalModules != []
                     case OTHER(_) => false)
  {
    hide Degrades, Deduped, WarningsFrom, Lists.Total, Lists.Get, RemovalCodes;
    var e := Finished(d, g, kept, removed);
    SomethingRemoved(removed);
    RemovalCodesExactly(removed, c);
    assert c in d.warningCodes + RaisedCodes(kept, removed, e.degraded, g.runtimeEventCount) <==>
           c in d.warningCodes || c in RaisedCodes(kept, removed, e.degraded, g.runtimeEventCount);
  }

  lemma RemovalCodesExactly(removed: Lists, c: WarningCode)
    ensures c in RemovalCodes(removed) <==> c.REMOVED_UNKNOWN? && removed.Get(c.field) != []
  {
    var a, b := When(removed.criticalModules != [], REMOVED_UNKNOWN(CRITICAL_MODULES)),
                When(removed.lowSignalModules != [], REMOVED_UNKNOWN(LOW_SIGNAL_MODULES));
    var x, y, z := When(removed.externalDependencies != [], REMOVED_UNKNOWN(EXTERNAL_DEPENDENCIES)),
                   When(removed.keyEntrypoints != [], REMOVED_UNKNOWN(KEY_ENTRYPOINTS)),
                   When(removed.cleanupCandidates != [], REMOVED_UNKNOWN(CLEANUP_CANDIDATES));
    assert RemovalCodes(removed) == a + b + x + y + z;
    assert c in a + b + x + y + z <==> c in a || c in b || c in x || c in y || c in z;
  }

  lemma SomethingRemoved(removed: Lists)
    ensures removed.Total() > 0 <==> exists f :: removed.Get(f) != []
  {
    if removed.Total() > 0 {
      assert || removed.Get(CRITICAL_MODULES) != [] || removed.Get(LOW_SIGNAL_MODULES) != [] || removed.Get(EXTERNAL_DEPENDENCIES) != []
             || removed.Get(KEY_ENTRYPOINTS) != [] || removed.Get(CLEANUP_CANDIDATES) != [];
    }
  }

  /** Warnings that someone wrote stay as they are; otherwise each code is shown, in order. */
  lemma WarningsExactly(d: AnalysisData, g: Grounding)
    ensures var e := Applied(d, g);
            if d.warnings != [] then e.warnings == d.warnings
            else |e.warnings| == |e.warningCodes| && forall i | 0 <= i < |e.warnings| :: e.warnings[i] == FromCode(e.warningCodes[i])
  {
    hide Degrades, Deduped, SelectAll, RaisedCodes, DedupedCodes;
  }

  /** The root of a dotted name is all of it, or what stands before its first dot. */
  lemma RootExactly(dotted: string)
    ensures '.' !in RootOf(dotted) && (RootOf(dotted) == dotted || RootOf(dotted) + "." <= dotted)
  {
    SplitHead('.', dotted);
  }

  lemma DegradesExactly(degraded: bool, removed: nat, kept: nat)
    ensures Degrades(degraded, removed, kept + removed) <==>
            degraded || removed >= 3 || (removed > 0 && 10 * removed >= 3 * (kept + removed))
  {
    ThresholdInIntegers(removed, Max(kept + removed, 1));
  }

  lemma FinishedDegraded(d: AnalysisData, g: Grounding, kept: Lists, removed: Lists)
    ensures Finished(d, g, kept, removed).degraded <==>
            d.degraded || removed.Total() >= 3 || (removed.Total() > 0 && 10 * removed.Total() >= 3 * (kept.Total() + removed.Total()))
  {
    DegradesExactly(d.degraded, removed.Total(), kept.Total());
  }

  /** The threshold in whole numbers. With nothing declared at all, nothing is degraded. */
  lemma DegradedExactly(d: AnalysisData, g: Grounding)
    ensures var e := Applied(d, g);
            var removed, kept := e.removedItems.Total(), e.lists.Total();
            e.degraded <==> d.degraded || removed >= 3 || (removed > 0 && 10 * removed >= 3 * (kept + removed))
  {
    FinishedDegraded(d, g, SelectAll(d.lists, g, true), SelectAll(d.lists, g, false));
  }

  lemma ThresholdInIntegers(r: nat, n: int)
    requires n > 0
    ensures r as real / n as real >= 0.3 <==> 10 * r >= 3 * n
  {
    RatioAtLeast(r as real, n as real, 0.3);
  }

  lemma {:induction false} SelectKnown(values: seq<string>, f: Field, g: Grounding)
    requires forall v | v in values :: Known(f, v, g)
    ensures Select(values, f, g, true) == values && Select(values, f, g, false) == []
  {
    if values != [] {
      var n := |values| - 1;
      assert values[n] in values;
      SelectKnown(values[..n], f, g);
      assert values == values[..n] + [values[n]];
    }
  }

  lemma {:induction false} SelectDistinct(values: seq<string>, f: Field, g: Grounding, known: bool)
    requires Distinct(values)
    ensures Distinct(Select(values, f, g, known))
    ensures forall v | v in Select(values, f, g, known) :: v in values
  {
    if values != [] {
      var n := |values| - 1;
      SelectDistinct(values[..n], f, g, known);
      var front := Select(values[..n], f, g, known);
      forall i | 0 <= i < |front| ensures front[i] != values[n] { assert front[i] in values[..n]; }
    }
  }

  lemma DedupedFixpoint(values: seq<string>)
    requires Distinct(values) && "" !in values
    ensures Deduped(values) == values
  {
    forall i | 0 <= i < |values| ensures values[i] != "" { assert values[i] in values; }
    NonEmptyOfFull(values);
    DedupeFixpoint(values);
  }

  /** A second pass over a grounded list removes nothing. */
  lemma GroundedStays(values: seq<string>, f: Field, g: Grounding)
    ensures var kept := Select(Deduped(values), f, g, true);
            Select(Deduped(kept), f, g, true) == kept && Select(Deduped(kept), f, g, false) == []
  {
    var kept := Select(Deduped(values), f, g, true);
    SelectDistinct(Deduped(values), f, g, true);
    SelectSplits(Deduped(values), f, g);
    DedupedFixpoint(kept);
    SelectKnown(kept, f, g);
  }

  lemma DedupedTwice(values: seq<string>)
    ensures Deduped(Deduped(values)) == Deduped(values)
  {
    DedupedFixpoint(Deduped(values));
  }

  lemma {:induction false} DedupeAppendKnown<T(!new)>(s: seq<T>, more: seq<T>)
    requires forall x | x in more :: x in s
    ensures Dedupe(s + more) == Dedupe(s)
  {
    if more == [] {
      assert s + more == s;
    } else {
      var n := |more| - 1;
      assert more[n] in more;
      assert (s + more)[..|s + more| - 1] == s + more[..n];
      DedupeAppendKnown(s, more[..n]);
    }
  }

  lemma {:induction false} RealCodesFull(codes: seq<WarningCode>)
    requires OTHER("") !in codes
    ensures RealCodes(codes) == codes
  {
    if codes != [] {
      assert codes[0] in codes;
      RealCodesFull(codes[1..]);
    }
  }

  lemma CodesStay(codes: seq<WarningCode>, more: seq<WarningCode>)
    requires forall c | c in more :: c in DedupedCodes(codes)
    ensures DedupedCodes(DedupedCodes(codes) + more) == DedupedCodes(codes)
  {
    var all := DedupedCodes(codes);
    RealCodesFull(all + more);
    DedupeAppendKnown(all, more);
    DedupeFixpoint(all);
  }

  lemma ListsStay(lists: Lists, g: Grounding)
    ensures var kept := SelectAll(lists, g, true);
            SelectAll(kept, g, true) == kept && SelectAll(kept, g, false) == Lists([], [], [], [], [])
  {
    GroundedStays(lists.criticalModules, CRITICAL_MODULES, g);
    GroundedStays(lists.lowSignalModules, LOW_SIGNAL_MODULES, g);
    GroundedStays(lists.externalDependencies, EXTERNAL_DEPENDENCIES, g);
    GroundedStays(lists.keyEntrypoints, KEY_ENTRYPOINTS, g);
    GroundedStays(lists.cleanupCandidates, CLEANUP_CANDIDATES, g);
  }

  lemma FinishedTwice(d: AnalysisData, g: Grounding, kept: Lists, removed: Lists)
    ensures var e := Finished(d, g, kept, removed);
            var none := Lists([], [], [], [], []);
            Finished(e, g, kept, none) == e.(removedItems := none)
  {
    hide Deduped, DedupedCodes, WarningsFrom, RaisedCodes, Degrades;
    var e := Finished(d, g, kept, removed);
    var none := Lists([], [], [], [], []);
    DedupedTwice(d.documentationCandidates);
    DedupedTwice(d.risks);
    DedupedTwice(d.recommendedNextSteps);
    SecondDegrade(e.degraded, kept.Total());
    CodesRaisedAgain(d.warningCodes, kept, removed, e.degraded, g.runtimeEventCount);
    CodesStay(d.warningCodes + RaisedCodes(kept, removed, e.degraded, g.runtimeEventCount),
              RaisedCodes(kept, none, e.degraded, g.runtimeEventCount));
  }

  /** Applying the policy a second time changes only the record of what it removed. */
  lemma SecondPassChangesNothing(d: AnalysisData, g: Grounding)
    ensures var e := Applied(d, g);
            Applied(e, g) == e.(removedItems := Lists([], [], [], [], []))
  {
    ListsStay(d.lists, g);
    FinishedTwice(d, g, SelectAll(d.lists, g, true), SelectAll(d.lists, g, false));
  }

  lemma SecondDegrade(degraded: bool, kept: nat)
    ensures Degrades(degraded, 0, kept + 0) == degraded
  {
    ThresholdInIntegers(0, Max(kept, 1));
  }

  lemma CodesRaisedAgain(codes: seq<WarningCode>, kept: Lists, removed: Lists, degraded: bool, runtimeEventCount: nat)
    ensures var none := Lists([], [], [], [], []);
            forall c | c in RaisedCodes(kept, none, degraded, runtimeEventCount) ::
              c in DedupedCodes(codes + RaisedCodes(kept, removed, degraded, runtimeEventCount))
  {
    var none := Lists([], [], [], [], []);
    var first := RaisedCodes(kept, removed, degraded, runtimeEventCount);
    forall c | c in RaisedCodes(kept, none, degraded, runtimeEventCount)
      ensures c in DedupedCodes(codes + first)
    {
      assert c == CLEANUP_REQUIRES_MANUAL_REVIEW || c == RUNTIME_ABSENCE_NOT_DEAD_CODE;
      assert c in first;
      assert c in codes + first && c in RealCodes(codes + first);
    }
  }
}
