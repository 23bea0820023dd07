/**
 Grounding a model's analysis of one module: every name it gave is traced to a declared symbol, an observed
 runtime symbol or a static import, or dropped, and what was lost decides whether the analysis is degraded.
 */
module ModuleGrounding {
  import ImportNormalization
  import opened PublicSurface
  import opened PyText
  import opened SymbolCatalog

  // ---------------------------------------------------------------- data

  /** An entry of `runtime_symbol_counts`, a dict: the names are distinct. */
  datatype Count = Count(name: string, calls: int)

  type Counts = seq<Count>

  ghost predicate IsDict(counts: Counts) { forall i, j :: 0 <= i < j < |counts| ==> counts[i].name != counts[j].name }

  /** `counts.get(name, 0)` */
  function Calls(counts: Counts, name: string): int {
    if counts == [] then 0 else if counts[0].name == name then counts[0].calls else Calls(counts[1..], name)
  }

  /** The name lists of an analysis. */
  datatype Lists = Lists(publicSymbols: seq<string>, runtimeHotspots: seq<string>, cleanupCandidates: seq<string>,
                         outboundDependencies: seq<string>)

  /** What the searches found for the three lists of symbols. */
  datatype Choices = Choices(publicSymbols: seq<string>, runtimeHotspots: seq<string>, cleanupCandidates: seq<string>)

  ghost predicate Searched(m: ModuleFact, lists: Lists, c: Choices) {
    exists catalog: Catalog :: SearchedIn(catalog, m, lists, c)
  }

  ghost predicate SearchedIn(catalog: Catalog, m: ModuleFact, lists: Lists, c: Choices) {
    && Catalogs(catalog, Bindings(m))
    && AllResolve(lists.publicSymbols, catalog, c.publicSymbols)
    && AllResolve(lists.runtimeHotspots, catalog, c.runtimeHotspots)
    && AllResolve(lists.cleanupCandidates, catalog, c.cleanupCandidates)
  }

  // ---------------------------------------------------------------- public symbols

  function NamesOf(functions: seq<FunctionFact>): seq<string> {
    seq(|functions|, i requires 0 <= i < |functions| => functions[i].qualifiedName)
  }

  function ClassNamesOf(classes: seq<ClassFact>): seq<string> {
    seq(|classes|, i requires 0 <= i < |classes| => classes[i].qualifiedName)
  }

  function WithoutPrivate(names: seq<string>): (r: seq<string>)
    ensures forall q :: q in r <==> q in names && !IsPrivate(LastPart(q))
  {
    if names == [] then []
    else
      assert names == [names[0]] + names[1..];
      (if IsPrivate(LastPart(names[0])) then [] else [names[0]]) + WithoutPrivate(names[1..])
  }

  /** What stands in when no public symbol was resolved. */
  function Fallback(m: ModuleFact): seq<string> {
    Take(10, WithoutPrivate(NamesOf(m.functions) + ClassNamesOf(m.classes)))
  }

  function ResolvedPublic(m: ModuleFact, c: Choices): seq<string> {
    if Found(c.publicSymbols) != [] then Found(c.publicSymbols) else Fallback(m)
  }

  predicate IsMock(q: string) { "Mock" <= LastPart(q) }

  function WithoutMocks(names: seq<string>): (r: seq<string>)
    ensures forall q :: q in r <==> q in names && !IsMock(q)
  {
    if names == [] then []
    else
      assert names == [names[0]] + names[1..];
      (if IsMock(names[0]) then [] else [names[0]]) + WithoutMocks(names[1..])
  }

  /** `_filter_public_symbols`: mocks go, unless there is nothing else. */
  function FilteredPublic(m: ModuleFact, c: Choices): seq<string> {
    var resolved := ResolvedPublic(m, c);
    if WithoutMocks(resolved) != [] then WithoutMocks(resolved) else resolved
  }

  function FinalPublic(m: ModuleFact, c: Choices): seq<string> {
    var surface := Surface(m, FilteredPublic(m, c));
    if surface != [] then surface else FilteredPublic(m, c)
  }

  // ---------------------------------------------------------------- hotspots

  predicate Busier(a: Count, b: Count) { a.calls > b.calls || (a.calls == b.calls && StrLeq(a.name, b.name)) }

  function InsertCount(x: Count, s: Counts): Counts {
    if s == [] then [x] else if Busier(x, s[0]) then [x] + s else [s[0]] + InsertCount(x, s[1..])
  }

  /** By falling count, then by name. */
  function ByCalls(counts: Counts): Counts {
    if counts == [] then [] else InsertCount(counts[0], ByCalls(counts[1..]))
  }

  function CountNames(counts: Counts): seq<string> {
    seq(|counts|, i requires 0 <= i < |counts| => counts[i].name)
  }

  function FinalHotspots(c: Choices, counts: Counts): seq<string> {
    Dedupe(Found(c.runtimeHotspots) + CountNames(ByCalls(counts)))
  }

  method AppendObserved(resolved: seq<string>, counts: Counts) returns (hotspots: seq<string>)
    requires Distinct(resolved)
    ensures hotspots == Dedupe(resolved + CountNames(ByCalls(counts)))
  {
    hide ByCalls, Dedupe;
    var sorted := ByCalls(counts);
    ghost var names := CountNames(sorted);
    hotspots := resolved;
    DedupeFixpoint(resolved);
    assert resolved + names[..0] == resolved;
    for i := 0 to |sorted|
      invariant hotspots == Dedupe(resolved + names[..i])
    {
      DedupeSnoc(resolved + names[..i], names[i]);
      assert resolved + names[..i + 1] == resolved + names[..i] + [names[i]];
      if sorted[i].name !in hotspots { hotspots := hotspots + [sorted[i].name]; }
    }
    assert names[..|names|] == names;
  }

  // ---------------------------------------------------------------- cleanup candidates

  function OwnerName(q: string): string {
    var parts := Split('.', q);
    if |parts| >= 2 then parts[|parts| - 2] else ""
  }

  /** A public class, by its capital letter. */
  predicate IsPublicOwner(name: string) { name != "" && 'A' <= name[0] <= 'Z' && !("Mock" <= name) && !("_" <= name) }

  predicate MayBeCleaned(q: string, counts: Counts) {
    Calls(counts, q) <= 0 && IsPrivate(LastPart(q)) && !IsPublicOwner(OwnerName(q))
  }

  function Cleanable(names: seq<string>, counts: Counts): (r: seq<string>)
    ensures forall q :: q in r <==> q in names && MayBeCleaned(q, counts)
  {
    if names == [] then []
    else
      var q := names[|names| - 1];
      assert names == names[..|names| - 1] + [q];
      Cleanable(names[..|names| - 1], counts) + if MayBeCleaned(q, counts) then [q] else []
  }

  method FilterCleanupCandidates(candidates: seq<string>, counts: Counts) returns (filtered: seq<string>)
    ensures filtered == Cleanable(candidates, counts)
  {
    filtered := [];
    for i := 0 to |candidates|
      invariant filtered == Cleanable(candidates[..i], counts)
    {
      assert candidates[..i + 1][..i] == candidates[..i];
      var q := candidates[i];
      if Calls(counts, q) > 0 { continue; }
      if !IsPrivate(LastPart(q)) { continue; }
      if IsPublicOwner(OwnerName(q)) { continue; }
      filtered := filtered + [q];
    }
    assert candidates[..|candidates|] == candidates;
  }

  // ---------------------------------------------------------------- dependencies

  ghost predicate Targets(m: ModuleFact, targets: seq<string>) {
    StrictlySorted(targets) && forall t :: t in targets <==> t != "" && ImportNormalization.IsTarget(m.modulePath, m.imports, t)
  }

  /** The normalized imports that candidates are matched with, and the ones used when none matches. */
  ghost predicate StaticImports(m: ModuleFact, available: seq<string>, standIn: seq<string>) {
    && (if m.importFacts != [] then available == NonEmpty(m.importFacts) else Targets(m, available))
    && (if NonEmpty(m.importFacts) != [] then standIn == NonEmpty(m.importFacts) else Targets(m, standIn))
  }

  method NormalizedImports(m: ModuleFact) returns (available: seq<string>, standIn: seq<string>)
    ensures StaticImports(m, available, standIn)
  {
    var facts := NonEmpty(m.importFacts);
    var targets := ImportNormalization.NormalizedImportTargets(m.modulePath, m.imports);
    available := if m.importFacts == [] then targets else facts;
    standIn := if facts != [] then facts else targets;
  }

  function ResolvedDependencies(candidates: seq<string>, available: seq<string>): seq<string> {
    Found(DependenciesOf(candidates, Dedupe(available)))
  }

  function FinalDependencies(candidates: seq<string>, available: seq<string>, standIn: seq<string>): seq<string> {
    var resolved := ResolvedDependencies(candidates, available);
    if resolved != [] then resolved else Take(20, standIn)
  }

  // ---------------------------------------------------------------- drift

  datatype Field = PUBLIC_SYMBOLS | RUNTIME_HOTSPOTS | CLEANUP_CANDIDATES | OUTBOUND_DEPENDENCIES

  const FIELDS := [PUBLIC_SYMBOLS, RUNTIME_HOTSPOTS, CLEANUP_CANDIDATES, OUTBOUND_DEPENDENCIES]

  predicate IsCritical(f: Field) { f != CLEANUP_CANDIDATES }

  /** `_semantic_drift_ratio`, in exact arithmetic. */
  function DriftRatio(original: nat, resolved: nat): real {
    if original == 0 then 0.0
    else (if original > resolved then original - resolved else 0) as real / original as real
  }

  datatype Sizes = Sizes(publicSymbols: nat, runtimeHotspots: nat, cleanupCandidates: nat, outboundDependencies: nat)

  function SizeOf(s: Sizes, f: Field): nat {
    match f
    case PUBLIC_SYMBOLS => s.publicSymbols
    case RUNTIME_HOTSPOTS => s.runtimeHotspots
    case CLEANUP_CANDIDATES => s.cleanupCandidates
    case OUTBOUND_DEPENDENCIES => s.outboundDependencies
  }

  function Lengths(lists: Lists): Sizes {
    Sizes(|lists.publicSymbols|, |lists.runtimeHotspots|, |lists.cleanupCandidates|, |lists.outboundDependencies|)
  }

  predicate IsSevere(original: Sizes, resolved: Sizes, f: Field) {
    DriftRatio(SizeOf(original, f), SizeOf(resolved, f)) >= 0.75 && SizeOf(original, f) > 0
  }

  function SevereIn(fields: seq<Field>, original: Sizes, resolved: Sizes): seq<Field> {
    if fields == [] then []
    else (if IsSevere(original, resolved, fields[0]) then [fields[0]] else []) + SevereIn(fields[1..], original, resolved)
  }

  function Critical(fields: seq<Field>): seq<Field> {
    if fields == [] then [] else (if IsCritical(fields[0]) then [fields[0]] else []) + Critical(fields[1..])
  }

  /** `_drift_repair_plan`: the severely drifted fields, and whether they degrade the analysis. */
  function DriftRepairPlan(original: Sizes, resolved: Sizes): (seq<Field>, bool) {
    var severe := SevereIn(FIELDS, original, resolved);
    (severe, |Critical(severe)| >= 1 || |severe| >= 2)
  }

  // ---------------------------------------------------------------- the sanitizer

  function Grounded(m: ModuleFact, lists: Lists, c: Choices, counts: Counts, available: seq<string>, standIn: seq<string>): Lists {
    Lists(FinalPublic(m, c), FinalHotspots(c, counts), Cleanable(Found(c.cleanupCandidates), counts),
          FinalDependencies(lists.outboundDependencies, available, standIn))
  }

  /** The lists whose lengths are compared with the original ones. */
  function Measured(m: ModuleFact, lists: Lists, c: Choices, counts: Counts, available: seq<string>): Lists {
    Lists(ResolvedPublic(m, c), FinalHotspots(c, counts), Cleanable(Found(c.cleanupCandidates), counts),
          ResolvedDependencies(lists.outboundDependencies, available))
  }

  /** `_normalize_surface_fields`: the final public symbols and the measured lists. */
  method NormalizeSurfaceFields(m: ModuleFact, lists: Lists, counts: Counts, available: seq<string>)
    returns (finalPublic: seq<string>, measured: Lists, ghost c: Choices)
    ensures Searched(m, lists, c)
    ensures finalPublic == FinalPublic(m, c) && measured == Measured(m, lists, c, counts, available)
  {
    var catalog := ModuleSymbolCatalog(m);
    var resolvedPublic, publicChoices := CanonicalizeSymbols(lists.publicSymbols, catalog);
    var resolvedHotspots, hotspotChoices := CanonicalizeSymbols(lists.runtimeHotspots, catalog);
    var resolvedCleanup, cleanupChoices := CanonicalizeSymbols(lists.cleanupCandidates, catalog);
    c := Choices(publicChoices, hotspotChoices, cleanupChoices);
    assert SearchedIn(catalog, m, lists, c);
    if resolvedPublic == [] { resolvedPublic := Fallback(m); }
    finalPublic := CutPublic(m, resolvedPublic, c);
    var hotspots := AppendObserved(resolvedHotspots, counts);
    var cleanup := FilterCleanupCandidates(resolvedCleanup, counts);
    var dependencies := CanonicalizeDependencies(lists.outboundDependencies, available);
    measured := Lists(resolvedPublic, hotspots, cleanup, dependencies);
  }

  method CutPublic(m: ModuleFact, resolved: seq<string>, ghost c: Choices) returns (finalPublic: seq<string>)
    requires resolved == ResolvedPublic(m, c)
    ensures finalPublic == FinalPublic(m, c)
  {
    var filtered := WithoutMocks(resolved);
    if filtered == [] { filtered := resolved; }
    finalPublic := CanonicalPublicSymbols(m, filtered);
    if finalPublic == [] { finalPublic := filtered; }
  }

  /** The grounded lists, whether the runtime signal was lost, and the drift. */
  method GroundLists(m: ModuleFact, lists: Lists, counts: Counts)
    returns (grounded: Lists, signalLost: bool, drift: (seq<Field>, bool), ghost c: Choices, ghost available: seq<string>,
             ghost standIn: seq<string>)
    ensures Searched(m, lists, c) && StaticImports(m, available, standIn)
    ensures grounded == Grounded(m, lists, c, counts, available, standIn)
    ensures signalLost <==> counts != [] && FinalHotspots(c, counts) == []
    ensures drift == DriftRepairPlan(Lengths(lists), Lengths(Measured(m, lists, c, counts, available)))
  {
    var imports, fallback := NormalizedImports(m);
    available, standIn := imports, fallback;
    var finalPublic, measured;
    finalPublic, measured, c := NormalizeSurfaceFields(m, lists, counts, imports);
    drift := DriftRepairPlan(Lengths(lists), Lengths(measured));
    DedupeFixpoint(measured.runtimeHotspots);
    grounded := Lists(finalPublic, Dedupe(measured.runtimeHotspots), measured.cleanupCandidates,
                      if measured.outboundDependencies != [] then measured.outboundDependencies else Take(20, fallback));
    signalLost := counts != [] && grounded.runtimeHotspots == [];
  }

  class LLMModuleAnalysis {
    var modulePath: string
    var lists: Lists
    var purpose: string
    var responsibilities: seq<string>
    var degraded: bool

    constructor (modulePath: string, lists: Lists, purpose: string, responsibilities: seq<string>, degraded: bool)
      ensures this.modulePath == modulePath && this.lists == lists && this.degraded == degraded
      ensures this.purpose == purpose && this.responsibilities == responsibilities
    {
      this.modulePath, this.lists, this.degraded := modulePath, lists, degraded;
      this.purpose, this.responsibilities := purpose, responsibilities;
    }

    /** `_sanitize_module_analysis`, as far as the name lists and the degradation go. The purpose and the
        responsibilities that were selected for the module are given; a missing purpose is the empty string. */
    method Sanitize(m: ModuleFact, counts: Counts, selectedPurpose: string, selectedResponsibilities: seq<string>)
      returns (signalLost: bool, severe: seq<Field>, ghost c: Choices, ghost available: seq<string>, ghost standIn: seq<string>)
      modifies this
      ensures Searched(m, old(lists), c) && StaticImports(m, available, standIn)
      ensures modulePath == m.modulePath && lists == Grounded(m, old(lists), c, counts, available, standIn)
      ensures purpose == selectedPurpose && responsibilities == selectedResponsibilities
      ensures !signalLost
      ensures (severe, degraded) ==
              var plan := DriftRepairPlan(Lengths(old(lists)), Lengths(Measured(m, old(lists), c, counts, available)));
              (plan.0, old(degraded) || plan.1 || (selectedPurpose == "" && selectedResponsibilities == []))
    {
      hide Grounded, Measured, Lengths, DriftRepairPlan, Searched, StaticImports, FinalHotspots;
      var grounded, drift;
      grounded, signalLost, drift, c, available, standIn := GroundLists(m, lists, counts);
      modulePath, lists, severe := m.modulePath, grounded, drift.0;
      purpose, responsibilities := selectedPurpose, selectedResponsibilities;
      if signalLost { degraded := true; }
      if drift.1 { degraded := true; }
      if purpose == "" && responsibilities == [] { degraded := true; }
      SignalKept(m, old(lists), c, counts);
    }
  }

  // ---------------------------------------------------------------- public symbols are declared

  lemma {:induction false} FunctionNamesDeclared(functions: seq<FunctionFact>, f: FunctionFact)
    requires f in functions
    ensures Binding(f.qualifiedName, f.qualifiedName) in FunctionsBindings(functions)
  {
    var last := functions[|functions| - 1];
    if f == last {
      assert FunctionBindings(last)[0] in FunctionBindings(last);
    } else {
      assert functions == functions[..|functions| - 1] + [last];
      FunctionNamesDeclared(functions[..|functions| - 1], f);
    }
  }

  lemma {:induction false} ClassNamesDeclared(classes: seq<ClassFact>, k: ClassFact)
    requires k in classes
    ensures Binding(k.qualifiedName, k.qualifiedName) in ClassesBindings(classes)
  {
    var last := classes[|classes| - 1];
    if k == last {
      assert ClassBindings(last)[0] == Binding(k.qualifiedName, k.qualifiedName);
      assert ClassBindings(last)[0] in ClassBindings(last);
    } else {
      assert classes == classes[..|classes| - 1] + [last];
      ClassNamesDeclared(classes[..|classes| - 1], k);
    }
  }

  lemma TopLevelDeclared(m: ModuleFact, q: string)
    requires TopLevelPublic(m, q) || q in NamesOf(m.functions) || q in ClassNamesOf(m.classes)
    ensures Declares(m, q)
  {
    if f :| f in m.functions && f.qualifiedName == q {
      FunctionNamesDeclared(m.functions, f);
    } else {
      var k :| k in m.classes && k.qualifiedName == q;
      ClassNamesDeclared(m.classes, k);
    }
  }

  lemma FallbackIsDeclared(m: ModuleFact)
    ensures forall q | q in Fallback(m) :: Declares(m, q)
    ensures |Fallback(m)| <= 10
  {
    forall q | q in Fallback(m) ensures Declares(m, q) {
      assert q in WithoutPrivate(NamesOf(m.functions) + ClassNamesOf(m.classes));
      TopLevelDeclared(m, q);
    }
  }

  /** The first ten public names in source order, functions before classes, stand in: `at` says where they are. */
  lemma FallbackExactly(m: ModuleFact) returns (at: seq<nat>)
    ensures var names, r := NamesOf(m.functions) + ClassNamesOf(m.classes), Fallback(m);
            && |r| == (if |at| <= 10 then |at| else 10) && Rising(at)
            && (forall i: nat :: i in at <==> i < |names| && !IsPrivate(LastPart(names[i])))
            && forall k | 0 <= k < |r| :: at[k] < |names| && r[k] == names[at[k]]
  {
    var names := NamesOf(m.functions) + ClassNamesOf(m.classes);
    at := PublicPositions(names);
    assert forall k | 0 <= k < |at| :: at[k] in at;
  }

  ghost predicate Rising(at: seq<nat>) { forall i, j | 0 <= i < j < |at| :: at[i] < at[j] }

  /** `at` is where the kept names stand. */
  ghost predicate StandAt(names: seq<string>, kept: seq<string>, at: seq<nat>) {
    |at| == |kept| && Rising(at) && forall k | 0 <= k < |at| :: at[k] < |names| && kept[k] == names[at[k]]
  }

  lemma {:induction false} PublicPositions(names: seq<string>) returns (at: seq<nat>)
    ensures StandAt(names, WithoutPrivate(names), at) && PublicAt(names, at)
  {
    hide *;
    if names == [] {
      NoPlaces();
      return [];
    }
    var x, tail := names[0], names[1..];
    var rest := PublicPositions(tail);
    WithoutPrivateUnfold(names);
    assert names == [x] + tail;
    var shifted := ShiftedUp(rest);
    OneNameMore(x, tail, WithoutPrivate(tail), rest, shifted);
    OnePlaceMore(x, tail, rest, shifted);
    at := if IsPrivate(LastPart(x)) then shifted else [0] + shifted;
  }

  lemma NoPlaces()
    ensures StandAt([], WithoutPrivate([]), []) && PublicAt([], [])
  {
  }

  /** The list is that of the places of public names. */
  ghost predicate PublicAt(names: seq<string>, at: seq<nat>) {
    forall i: nat :: i in at <==> i < |names| && !IsPrivate(LastPart(names[i]))
  }

  lemma OnePlaceMore(x: string, tail: seq<string>, at: seq<nat>, shifted: seq<nat>)
    requires PublicAt(tail, at) && ShiftedPlaces(at, shifted)
    ensures PublicAt([x] + tail, if IsPrivate(LastPart(x)) then shifted else [0] + shifted)
  {
    hide LastPart, IsPrivate;
    var names := [x] + tail;
    forall i: nat ensures i in [0] + shifted <==> i == 0 || i in shifted {}
    assert forall i: nat | 0 < i < |names| :: names[i] == tail[i - 1];
  }

  lemma OneNameMore(x: string, tail: seq<string>, kept: seq<string>, at: seq<nat>, shifted: seq<nat>)
    requires StandAt(tail, kept, at) && |shifted| == |at| && forall k | 0 <= k < |at| :: shifted[k] == at[k] + 1
    ensures StandAt([x] + tail, kept, shifted) && StandAt([x] + tail, [x] + kept, [0] + shifted)
  {
  }

  lemma WithoutPrivateUnfold(names: seq<string>)
    requires names != []
    ensures WithoutPrivate(names) ==
            if IsPrivate(LastPart(names[0])) then WithoutPrivate(names[1..]) else [names[0]] + WithoutPrivate(names[1..])
  {
  }

  ghost predicate ShiftedPlaces(at: seq<nat>, shifted: seq<nat>) { forall i: nat :: i in shifted <==> i > 0 && i - 1 in at }

  lemma ShiftedUp(at: seq<nat>) returns (shifted: seq<nat>)
    ensures |shifted| == |at| && forall k | 0 <= k < |at| :: shifted[k] == at[k] + 1
    ensures ShiftedPlaces(at, shifted)
  {
    shifted := seq(|at|, k requires 0 <= k < |at| => at[k] + 1);
    forall i: nat ensures i in shifted <==> i > 0 && i - 1 in at {
      if i > 0 && i - 1 in at {
        var k :| 0 <= k < |at| && at[k] == i - 1;
        assert shifted[k] == i;
      }
    }
  }

  /** Names whose last part starts with "Mock" go, unless all do. */
  lemma MocksGo(m: ModuleFact, c: Choices, q: string)
    ensures q in FilteredPublic(m, c) <==>
            && q in ResolvedPublic(m, c)
            && (!("Mock" <= LastPart(q)) || forall x | x in ResolvedPublic(m, c) :: "Mock" <= LastPart(x))
  {
    hide LastPart, ResolvedPublic;
    var resolved := ResolvedPublic(m, c);
    var kept := WithoutMocks(resolved);
    if kept != [] { assert kept[0] in kept; }
    if x :| x in resolved && !IsMock(x) { assert x in kept; }
  }

  /** Whatever the searches found, every public symbol is declared; and if the module has a ranked name, there is
      at least one and at most five, all of them top-level and public. */
  lemma PublicSymbolsAreDeclared(m: ModuleFact, lists: Lists, c: Choices)
    requires Searched(m, lists, c)
    ensures forall q | q in FinalPublic(m, c) :: Declares(m, q)
    ensures RankedNames(m) != [] ==>
              && 1 <= |FinalPublic(m, c)| <= 5
              && forall q | q in FinalPublic(m, c) :: TopLevelPublic(m, q)
  {
    var catalog :| SearchedIn(catalog, m, lists, c);
    ResolvedAreDeclared(lists.publicSymbols, catalog, c.publicSymbols, m);
    FallbackIsDeclared(m);
    SurfaceIsPublic(m, FilteredPublic(m, c));
    forall q | q in FinalPublic(m, c) ensures Declares(m, q) {
      if TopLevelPublic(m, q) { TopLevelDeclared(m, q); }
    }
  }

  // ---------------------------------------------------------------- hotspots keep the runtime signal

  lemma {:induction false} InsertCountMembers(x: Count, s: Counts)
    ensures forall y :: y in InsertCount(x, s) <==> y == x || y in s
  {
    if s != [] {
      assert s == [s[0]] + s[1..];
      InsertCountMembers(x, s[1..]);
    }
  }

  lemma {:induction false} ByCallsMembers(counts: Counts)
    ensures forall y :: y in ByCalls(counts) <==> y in counts
  {
    if counts != [] {
      assert counts == [counts[0]] + counts[1..];
      ByCallsMembers(counts[1..]);
      InsertCountMembers(counts[0], ByCalls(counts[1..]));
    }
  }

  ghost predicate BusiestFirst(s: Counts) { forall i, j | 0 <= i < j < |s| :: Busier(s[i], s[j]) }

  lemma BusierIsTotal(a: Count, b: Count)
    ensures Busier(a, b) || Busier(b, a)
  {
    StrLeqTotal(a.name, b.name);
  }

  lemma BusierIsTransitive(a: Count, b: Count, c: Count)
    requires Busier(a, b) && Busier(b, c)
    ensures Busier(a, c)
  {
    if a.calls == b.calls == c.calls { StrLeqTransitive(a.name, b.name, c.name); }
  }

  lemma {:induction false} InsertCountSorts(x: Count, s: Counts)
    requires BusiestFirst(s)
    ensures BusiestFirst(InsertCount(x, s)) && multiset(InsertCount(x, s)) == multiset(s) + multiset{x}
  {
    hide Busier;
    if s == [] { return; }
    assert s == [s[0]] + s[1..];
    if Busier(x, s[0]) {
      forall i | 0 < i < |s| ensures Busier(x, s[i]) { BusierIsTransitive(x, s[0], s[i]); }
    } else {
      BusierIsTotal(x, s[0]);
      InsertCountSorts(x, s[1..]);
      InsertCountMembers(x, s[1..]);
      var rest := InsertCount(x, s[1..]);
      forall i | 0 <= i < |rest| ensures Busier(s[0], rest[i]) { assert rest[i] in rest; }
    }
  }

  /** Observed symbols are listed each as often as they are counted, more calls first, and by name among equals. */
  lemma {:induction false} ByCallsSorts(counts: Counts)
    ensures multiset(ByCalls(counts)) == multiset(counts)
    ensures forall i, j | 0 <= i < j < |ByCalls(counts)| ::
              var a, b := ByCalls(counts)[i], ByCalls(counts)[j];
              a.calls > b.calls || (a.calls == b.calls && StrLeq(a.name, b.name))
  {
    if counts != [] {
      assert counts == [counts[0]] + counts[1..];
      ByCallsSorts(counts[1..]);
      var rest := ByCalls(counts[1..]);
      assert forall i, j | 0 <= i < j < |rest| :: Busier(rest[i], rest[j]);
      InsertCountSorts(counts[0], rest);
      var all := ByCalls(counts);
      assert forall i, j | 0 <= i < j < |all| :: Busier(all[i], all[j]);
    }
  }

  ghost predicate Observed(counts: Counts, q: string) { exists x | x in counts :: x.name == q }

  lemma ObservedNames(counts: Counts, q: string)
    ensures q in CountNames(ByCalls(counts)) <==> Observed(counts, q)
  {
    ByCallsMembers(counts);
    var sorted := ByCalls(counts);
    if x :| x in counts && x.name == q {
      var i :| 0 <= i < |sorted| && sorted[i] == x;
      assert CountNames(sorted)[i] == q;
    }
    if q in CountNames(sorted) {
      var i :| 0 <= i < |sorted| && CountNames(sorted)[i] == q;
      assert sorted[i] in counts;
    }
  }

  /** The hotspots are every observed symbol and what the model's own hotspots resolve to: each once, and nothing
      that is neither declared nor observed. */
  lemma HotspotsAreObservedOrDeclared(m: ModuleFact, lists: Lists, c: Choices, counts: Counts)
    requires Searched(m, lists, c)
    ensures Distinct(FinalHotspots(c, counts))
    ensures forall q :: q in FinalHotspots(c, counts) <==> q in Found(c.runtimeHotspots) || Observed(counts, q)
    ensures forall q | q in FinalHotspots(c, counts) :: Observed(counts, q) || Declares(m, q)
  {
    var catalog :| SearchedIn(catalog, m, lists, c);
    ResolvedAreDeclared(lists.runtimeHotspots, catalog, c.runtimeHotspots, m);
    forall q ensures q in CountNames(ByCalls(counts)) <==> Observed(counts, q) { ObservedNames(counts, q); }
  }

  /** The runtime signal is never lost: the branch that reports it lost cannot be taken. */
  lemma SignalKept(m: ModuleFact, lists: Lists, c: Choices, counts: Counts)
    requires Searched(m, lists, c)
    ensures counts != [] ==> FinalHotspots(c, counts) != []
  {
    HotspotsAreObservedOrDeclared(m, lists, c, counts);
    if counts != [] { assert counts[0] in counts && Observed(counts, counts[0].name); }
  }

  // ---------------------------------------------------------------- cleanup candidates and dependencies

  lemma {:induction false} CallsOfEntry(counts: Counts, x: Count)
    requires IsDict(counts) && x in counts
    ensures Calls(counts, x.name) == x.calls
  {
    if counts[0] != x {
      assert counts == [counts[0]] + counts[1..];
      CallsOfEntry(counts[1..], x);
    }
  }

  /** Cleanup candidates are declared, private by name, and never seen running. */
  lemma CleanupIsPrivateAndIdle(m: ModuleFact, lists: Lists, c: Choices, counts: Counts)
    requires Searched(m, lists, c)
    ensures forall q | q in Cleanable(Found(c.cleanupCandidates), counts) ::
              Declares(m, q) && IsPrivate(LastPart(q)) && !IsPublicOwner(OwnerName(q))
    ensures IsDict(counts) ==>
              forall q, x | q in Cleanable(Found(c.cleanupCandidates), counts) && x in counts && x.name == q :: x.calls <= 0
  {
    hide Resolves, Found, Cleanable, LastPart, OwnerName;
    var catalog :| SearchedIn(catalog, m, lists, c);
    ResolvedAreDeclared(lists.cleanupCandidates, catalog, c.cleanupCandidates, m);
    if IsDict(counts) {
      forall x | x in counts ensures Calls(counts, x.name) == x.calls { CallsOfEntry(counts, x); }
    }
  }

  /** A name given by its dotted parts stays a cleanup candidate exactly when it was resolved, was not seen running,
      starts with an underscore and does not belong to a class with a capital letter, mocks excepted. */
  lemma CleanupExactly(c: Choices, counts: Counts, parts: seq<string>)
    requires parts != [] && forall i | 0 <= i < |parts| :: '.' !in parts[i]
    ensures var q, last := Join(".", parts), parts[|parts| - 1];
            var owner := if |parts| >= 2 then parts[|parts| - 2] else "";
            q in Cleanable(Found(c.cleanupCandidates), counts) <==>
              && q in Found(c.cleanupCandidates) && Calls(counts, q) <= 0
              && last != "" && last[0] == '_'
              && (owner == "" || !('A' <= owner[0] <= 'Z') || "Mock" <= owner)
  {
    hide Found, Calls, Join;
    SplitJoin('.', parts);
    PartsAreLast(parts);
    OwnerIsBeforeLast(parts);
  }

  lemma OwnerIsBeforeLast(parts: seq<string>)
    requires parts != [] && forall i | 0 <= i < |parts| :: '.' !in parts[i]
    ensures OwnerName(Join(".", parts)) == if |parts| >= 2 then parts[|parts| - 2] else ""
  {
    hide Split, Join;
    SplitJoin('.', parts);
  }

  /** `d` is an import of the module, normalized. */
  ghost predicate IsImport(m: ModuleFact, d: string) {
    d in m.importFacts || ImportNormalization.IsTarget(m.modulePath, m.imports, d)
  }

  /** Dependencies are static imports, and there are some whenever there are imports to stand in. */
  lemma DependenciesAreStatic(m: ModuleFact, candidates: seq<string>, available: seq<string>, standIn: seq<string>)
    requires StaticImports(m, available, standIn)
    ensures var r := FinalDependencies(candidates, available, standIn);
            && (forall d | d in r :: d != "" && IsImport(m, d))
            && (r == [] <==> standIn == [])
            && (ResolvedDependencies(candidates, available) == [] ==> r <= standIn && (|r| == 20 || r == standIn))
  {
    ImportsAreStatic(m, available, standIn);
    DependenciesAreGiven(candidates, available, standIn);
  }

  lemma DependenciesAreGiven(candidates: seq<string>, available: seq<string>, standIn: seq<string>)
    requires available != [] ==> standIn != []
    ensures var r := FinalDependencies(candidates, available, standIn);
            && (forall d | d in r :: d in available || d in standIn) && (r == [] <==> standIn == [])
            && (ResolvedDependencies(candidates, available) == [] ==> r <= standIn && (|r| == 20 || r == standIn))
  {
    DependenciesAreImports(candidates, available);
    var resolved := ResolvedDependencies(candidates, available);
    if resolved == [] {
      assert forall d | d in Take(20, standIn) :: d in standIn;
    } else {
      assert resolved[0] in resolved && resolved[0] in available;
    }
  }

  lemma ImportsAreStatic(m: ModuleFact, available: seq<string>, standIn: seq<string>)
    requires StaticImports(m, available, standIn)
    ensures forall d | d in available || d in standIn :: d != "" && IsImport(m, d)
    ensures available != [] ==> standIn != []
  {
    if m.importFacts == [] { StrictlySortedUnique(available, standIn); }
  }

  // ---------------------------------------------------------------- drift

  /** Severe drift: something was given and at most a quarter of it survived. */
  lemma SevereExactly(original: nat, resolved: nat)
    ensures DriftRatio(original, resolved) >= 0.75 && original > 0 <==> original > 0 && 4 * resolved <= original
  {
    if original > resolved { RatioAtLeast((original - resolved) as real, original as real, 0.75); }
  }

  /** Something was given and at most a quarter of it survived. */
  predicate Lost(original: nat, resolved: nat) { original > 0 && 4 * resolved <= original }

  lemma CriticalOfFields(original: Sizes, resolved: Sizes)
    ensures var severe := SevereIn(FIELDS, original, resolved);
            && (|Critical(severe)| >= 1 <==> exists f :: IsCritical(f) && IsSevere(original, resolved, f))
            && (|severe| >= 2 ==> |Critical(severe)| >= 1)
  {
    var p, h, l, d := IsSevere(original, resolved, PUBLIC_SYMBOLS), IsSevere(original, resolved, RUNTIME_HOTSPOTS),
                      IsSevere(original, resolved, CLEANUP_CANDIDATES), IsSevere(original, resolved, OUTBOUND_DEPENDENCIES);
    var tail := [OUTBOUND_DEPENDENCIES];
    assert SevereIn(tail, original, resolved) == if d then tail else [];
    assert FIELDS[3..] == tail && FIELDS[1..][1..] == FIELDS[2..] && FIELDS[2..][1..] == FIELDS[3..];
    var three := SevereIn(FIELDS[2..], original, resolved);
    assert three == (if l then [CLEANUP_CANDIDATES] else []) + if d then tail else [];
    var two := SevereIn(FIELDS[1..], original, resolved);
    assert two == (if h then [RUNTIME_HOTSPOTS] else []) + three;
    assert SevereIn(FIELDS, original, resolved) == (if p then [PUBLIC_SYMBOLS] else []) + two;
  }

  /** The analysis is degraded for drift exactly when at most a quarter of the public symbols, hotspots or
      dependencies it gave survived; two severe fields never decide. */
  lemma DriftDegradesExactly(original: Lists, resolved: Lists)
    ensures var plan := DriftRepairPlan(Lengths(original), Lengths(resolved));
            && (plan.1 <==> || Lost(|original.publicSymbols|, |resolved.publicSymbols|)
                            || Lost(|original.runtimeHotspots|, |resolved.runtimeHotspots|)
                            || Lost(|original.outboundDependencies|, |resolved.outboundDependencies|))
            && (|plan.0| >= 2 ==> |Critical(plan.0)| >= 1)
  {
    CriticalFieldsDecide(Lengths(original), Lengths(resolved));
    assert forall f :: IsCritical(f) <==> f == PUBLIC_SYMBOLS || f == RUNTIME_HOTSPOTS || f == OUTBOUND_DEPENDENCIES;
    hide DriftRepairPlan;
    assert IsCritical(PUBLIC_SYMBOLS) && IsCritical(RUNTIME_HOTSPOTS) && IsCritical(OUTBOUND_DEPENDENCIES);
  }

  lemma CriticalFieldsDecide(original: Sizes, resolved: Sizes)
    ensures DriftRepairPlan(original, resolved).1 <==> exists f :: IsCritical(f) && Lost(SizeOf(original, f), SizeOf(resolved, f))
    ensures |DriftRepairPlan(original, resolved).0| >= 2 ==> |Critical(DriftRepairPlan(original, resolved).0)| >= 1
  {
    CriticalOfFields(original, resolved);
    forall f ensures IsSevere(original, resolved, f) <==> SizeOf(original, f) > 0 && 4 * SizeOf(resolved, f) <= SizeOf(original, f) {
      SevereExactly(SizeOf(original, f), SizeOf(resolved, f));
    }
  }

  /** When none of the given public symbols exists, the stand-in list is measured: the invention is severe drift
      exactly when four times the stand-ins are no more than what was given. */
  lemma InventedPublicSymbolsFlaggedExactly(m: ModuleFact, lists: Lists, c: Choices, counts: Counts, available: seq<string>)
    requires Searched(m, lists, c) && Found(c.publicSymbols) == [] && lists.publicSymbols != []
    ensures IsSevere(Lengths(lists), Lengths(Measured(m, lists, c, counts, available)), PUBLIC_SYMBOLS)
       <==> 4 * |Fallback(m)| <= |lists.publicSymbols|
  {
    SevereExactly(|lists.publicSymbols|, |Fallback(m)|);
  }
}
