/** Merging the scanned modules and the runtime events into one project schema, and what the merge conserves. */
module SchemaBuilder {
  import opened PyText
  import opened Scanner

  datatype ModuleFact = ModuleFact(modulePath: string, importTargets: seq<string>, imports: seq<string>,
                                   functions: seq<FunctionFact>, classes: seq<ClassRecord>)

  datatype RuntimeEvent = RuntimeEvent(isCall: bool, modulePath: string, qualifiedName: string)

  datatype EdgeKind = IMPORT | RUNTIME_CALL

  datatype EdgeKey = EdgeKey(source: string, target: string, kind: EdgeKind)

  datatype DependencyEdge = DependencyEdge(key: EdgeKey, weight: nat)

  datatype SymbolType = FUNCTION | CLASS

  datatype SymbolSummary = SymbolSummary(qualifiedName: string, symbolType: SymbolType, modulePath: string,
                                         runtimeCallCount: nat)

  datatype ProjectSchema = ProjectSchema(moduleCount: nat, functionCount: nat, classCount: nat, runtimeEventCount: nat,
                                         edges: seq<DependencyEdge>, symbols: seq<SymbolSummary>)

  // ---------------------------------------------------------------- counting

  /** Calls among the events, all of them, by called name, and by module. */
  function Calls(events: seq<RuntimeEvent>): nat {
    if events == [] then 0
    else Calls(events[..|events| - 1]) + if events[|events| - 1].isCall then 1 else 0
  }

  function CallsOf(events: seq<RuntimeEvent>, name: string): nat {
    if events == [] then 0
    else
      var e := events[|events| - 1];
      CallsOf(events[..|events| - 1], name) + if e.isCall && e.qualifiedName == name then 1 else 0
  }

  function CallsIn(events: seq<RuntimeEvent>, modulePath: string): nat {
    if events == [] then 0
    else
      var e := events[|events| - 1];
      CallsIn(events[..|events| - 1], modulePath) + if e.isCall && e.modulePath == modulePath then 1 else 0
  }

  function FunctionSymbol(m: ModuleFact, events: seq<RuntimeEvent>, f: FunctionFact): SymbolSummary {
    SymbolSummary(f.qualifiedName, FUNCTION, m.modulePath, CallsOf(events, f.qualifiedName))
  }

  function FunctionSymbols(m: ModuleFact, events: seq<RuntimeEvent>, fs: seq<FunctionFact>): seq<SymbolSummary> {
    seq(|fs|, i requires 0 <= i < |fs| => FunctionSymbol(m, events, fs[i]))
  }

  /** A class followed by its methods. */
  function ClassSymbols(m: ModuleFact, events: seq<RuntimeEvent>, cs: seq<ClassRecord>): seq<SymbolSummary> {
    if cs == [] then []
    else
      var c := cs[|cs| - 1];
      ClassSymbols(m, events, cs[..|cs| - 1])
      + ([SymbolSummary(c.qualifiedName, CLASS, m.modulePath, 0)] + FunctionSymbols(m, events, c.methods))
  }

  function SymbolsOf(modules: seq<ModuleFact>, events: seq<RuntimeEvent>): seq<SymbolSummary> {
    if modules == [] then []
    else
      var m := modules[|modules| - 1];
      SymbolsOf(modules[..|modules| - 1], events)
      + (FunctionSymbols(m, events, m.functions) + ClassSymbols(m, events, m.classes))
  }

  function MethodCount(cs: seq<ClassRecord>): nat { |MethodsOf(cs)| }

  function FunctionCount(modules: seq<ModuleFact>): nat {
    if modules == [] then 0
    else
      var m := modules[|modules| - 1];
      FunctionCount(modules[..|modules| - 1]) + (|m.functions| + MethodCount(m.classes))
  }

  function ClassCount(modules: seq<ModuleFact>): nat {
    if modules == [] then 0 else ClassCount(modules[..|modules| - 1]) + |modules[|modules| - 1].classes|
  }

  // ---------------------------------------------------------------- edges

  /** A dictionary of edges with its insertion order. */
  ghost predicate EdgeTable(order: seq<EdgeKey>, weights: map<EdgeKey, nat>) {
    Distinct(order) && forall k :: k in order <==> k in weights
  }

  function EdgeList(order: seq<EdgeKey>, weights: map<EdgeKey, nat>): seq<DependencyEdge>
    requires forall i | 0 <= i < |order| :: order[i] in weights
  {
    seq(|order|, i requires 0 <= i < |order| => DependencyEdge(order[i], weights[order[i]]))
  }

  function RuntimeWeight(edges: seq<DependencyEdge>): nat {
    if edges == [] then 0
    else
      var e := edges[|edges| - 1];
      RuntimeWeight(edges[..|edges| - 1]) + if e.key.kind == RUNTIME_CALL then e.weight else 0
  }

  function ImportTargets(m: ModuleFact): seq<string> {
    if m.importTargets != [] then m.importTargets else m.imports
  }

  /** The module imports the target: as a resolved import, or as a written one when it has no resolved imports. */
  ghost predicate ImportsKey(modules: seq<ModuleFact>, k: EdgeKey) {
    exists i | 0 <= i < |modules| ::
      && k.source == modules[i].modulePath
      && (k.target in modules[i].importTargets || (modules[i].importTargets == [] && k.target in modules[i].imports))
  }

  function RuntimeKey(modulePath: string): EdgeKey { EdgeKey("runtime", modulePath, RUNTIME_CALL) }

  method AddImportEdges(modules: seq<ModuleFact>) returns (order: seq<EdgeKey>, weights: map<EdgeKey, nat>)
    ensures EdgeTable(order, weights)
    ensures forall k :: k in weights <==> k.kind == IMPORT && ImportsKey(modules, k)
    ensures forall k | k in weights :: weights[k] == 1
  {
    order, weights := [], map[];
    for i := 0 to |modules|
      invariant EdgeTable(order, weights)
      invariant forall k :: k in weights <==> k.kind == IMPORT && ImportsKey(modules[..i], k)
      invariant forall k | k in weights :: weights[k] == 1
    {
      var m := modules[i];
      var targets := ImportTargets(m);
      for j := 0 to |targets|
        invariant EdgeTable(order, weights)
        invariant forall k :: k in weights <==>
                    k.kind == IMPORT && (ImportsKey(modules[..i], k) || (k.source == m.modulePath && k.target in targets[..j]))
        invariant forall k | k in weights :: weights[k] == 1
      {
        var key := EdgeKey(m.modulePath, targets[j], IMPORT);
        if key !in weights { order := order + [key]; }
        weights := weights[key := 1];
        assert targets[..j + 1] == targets[..j] + [targets[j]];
      }
      assert targets[..|targets|] == targets;
      forall k ensures ImportsKey(modules[..i + 1], k) <==>
                       ImportsKey(modules[..i], k) || (k.source == m.modulePath && k.target in targets)
      {
        ImportsOneMore(modules, i, k);
      }
    }
    assert modules[..|modules|] == modules;
  }

  lemma ImportsOneMore(modules: seq<ModuleFact>, i: nat, k: EdgeKey)
    requires i < |modules|
    ensures ImportsKey(modules[..i + 1], k) <==>
            ImportsKey(modules[..i], k) || (k.source == modules[i].modulePath && k.target in ImportTargets(modules[i]))
  {
    var front, more := modules[..i], modules[..i + 1];
    assert forall j | 0 <= j < i :: front[j] == more[j];
    assert more[i] == modules[i];
    if ImportsKey(front, k) {
      var j :| 0 <= j < |front| && k.source == front[j].modulePath && k.target in ImportTargets(front[j]);
      assert more[j] == front[j] && front[j] == modules[j];
    }
  }

  lemma {:induction false} BumpWeight(order: seq<EdgeKey>, weights: map<EdgeKey, nat>, key: EdgeKey)
    requires Distinct(order) && (forall i | 0 <= i < |order| :: order[i] in weights)
    requires key in weights && key.kind == RUNTIME_CALL
    ensures RuntimeWeight(EdgeList(order, weights[key := weights[key] + 1])) ==
            RuntimeWeight(EdgeList(order, weights)) + if key in order then 1 else 0
  {
    if order != [] {
      var n := |order| - 1;
      var after := weights[key := weights[key] + 1];
      BumpWeight(order[..n], weights, key);
      assert order == order[..n] + [order[n]];
      assert EdgeList(order, weights)[..n] == EdgeList(order[..n], weights);
      assert EdgeList(order, after)[..n] == EdgeList(order[..n], after);
    }
  }

  lemma AppendEdge(order: seq<EdgeKey>, weights: map<EdgeKey, nat>, key: EdgeKey)
    requires (forall i | 0 <= i < |order| :: order[i] in weights) && key !in order && key.kind == RUNTIME_CALL
    ensures RuntimeWeight(EdgeList(order + [key], weights[key := 0])) == RuntimeWeight(EdgeList(order, weights))
  {
    var after := EdgeList(order + [key], weights[key := 0]);
    assert after[..|order|] == EdgeList(order, weights);
  }

  /** One more call into a module: the edge is made with weight 0 if it is new, then its weight grows by one. */
  method CountCall(order: seq<EdgeKey>, weights: map<EdgeKey, nat>, modulePath: string)
    returns (order': seq<EdgeKey>, weights': map<EdgeKey, nat>)
    requires EdgeTable(order, weights)
    ensures EdgeTable(order', weights')
    ensures var key := RuntimeKey(modulePath);
            weights' == weights[key := (if key in weights then weights[key] else 0) + 1]
    ensures RuntimeWeight(EdgeList(order', weights')) == RuntimeWeight(EdgeList(order, weights)) + 1
  {
    var key := RuntimeKey(modulePath);
    order', weights' := order, weights;
    if key !in weights' {
      AppendEdge(order, weights, key);
      order' := order' + [key];
      weights' := weights'[key := 0];
    }
    BumpWeight(order', weights', key);
    weights' := weights'[key := weights'[key] + 1];
  }

  /** A module's runtime edge is present exactly when it was called, and weighs the number of its calls. */
  ghost predicate CountedEdges(events: seq<RuntimeEvent>, weights0: map<EdgeKey, nat>, weights: map<EdgeKey, nat>) {
    && (forall k :: k in weights <==> k in weights0 || (k == RuntimeKey(k.target) && CallsIn(events, k.target) > 0))
    && (forall k | k in weights :: weights[k] == if k in weights0 then weights0[k] else CallsIn(events, k.target))
  }

  lemma CallsInOneMore(events: seq<RuntimeEvent>, i: nat, target: string)
    requires i < |events|
    ensures CallsIn(events[..i + 1], target) ==
            CallsIn(events[..i], target) + if events[i].isCall && events[i].modulePath == target then 1 else 0
  {
    assert events[..i + 1][..i] == events[..i];
  }

  lemma CountedOneMore(events: seq<RuntimeEvent>, i: nat, weights0: map<EdgeKey, nat>, weights: map<EdgeKey, nat>,
                       weights': map<EdgeKey, nat>)
    requires i < |events| && CountedEdges(events[..i], weights0, weights)
    requires forall k | k in weights0 :: k.kind == IMPORT
    requires var key := RuntimeKey(events[i].modulePath);
             weights' == if events[i].isCall then weights[key := (if key in weights then weights[key] else 0) + 1] else weights
    ensures CountedEdges(events[..i + 1], weights0, weights')
  {
    forall target ensures CallsIn(events[..i + 1], target) ==
            CallsIn(events[..i], target) + if events[i].isCall && events[i].modulePath == target then 1 else 0
    {
      CallsInOneMore(events, i, target);
    }
  }

  method AddRuntimeEdges(events: seq<RuntimeEvent>, order0: seq<EdgeKey>, weights0: map<EdgeKey, nat>)
    returns (order: seq<EdgeKey>, weights: map<EdgeKey, nat>)
    requires EdgeTable(order0, weights0) && forall k | k in weights0 :: k.kind == IMPORT
    ensures EdgeTable(order, weights) && CountedEdges(events, weights0, weights)
    ensures RuntimeWeight(EdgeList(order, weights)) == Calls(events)
  {
    order, weights := order0, weights0;
    NoRuntimeWeight(order, weights);
    for i := 0 to |events|
      invariant EdgeTable(order, weights) && CountedEdges(events[..i], weights0, weights)
      invariant RuntimeWeight(EdgeList(order, weights)) == Calls(events[..i])
    {
      ghost var before := weights;
      if events[i].isCall {
        order, weights := CountCall(order, weights, events[i].modulePath);
      }
      CountedOneMore(events, i, weights0, before, weights);
      assert events[..i + 1][..i] == events[..i];
    }
    assert events[..|events|] == events;
  }

  lemma {:induction false} NoRuntimeWeight(order: seq<EdgeKey>, weights: map<EdgeKey, nat>)
    requires forall i | 0 <= i < |order| :: order[i] in weights && order[i].kind == IMPORT
    ensures RuntimeWeight(EdgeList(order, weights)) == 0
  {
    if order != [] {
      var n := |order| - 1;
      NoRuntimeWeight(order[..n], weights);
      assert EdgeList(order, weights)[..n] == EdgeList(order[..n], weights);
    }
  }

  // ---------------------------------------------------------------- symbols

  method CollectSymbols(modules: seq<ModuleFact>, events: seq<RuntimeEvent>)
    returns (symbols: seq<SymbolSummary>, functionCount: nat, classCount: nat)
    ensures symbols == SymbolsOf(modules, events)
    ensures functionCount == FunctionCount(modules) && classCount == ClassCount(modules)
    ensures |symbols| == functionCount + classCount
  {
    symbols, functionCount, classCount := [], 0, 0;
    for i := 0 to |modules|
      invariant symbols == SymbolsOf(modules[..i], events)
      invariant functionCount == FunctionCount(modules[..i]) && classCount == ClassCount(modules[..i])
      invariant |symbols| == functionCount + classCount
    {
      var m := modules[i];
      ghost var before, fns, cls := symbols, functionCount, classCount;
      for j := 0 to |m.functions|
        invariant symbols == before + FunctionSymbols(m, events, m.functions[..j])
        invariant functionCount == fns + j
      {
        functionCount := functionCount + 1;
        symbols := symbols + [FunctionSymbol(m, events, m.functions[j])];
        assert FunctionSymbols(m, events, m.functions[..j + 1]) ==
               FunctionSymbols(m, events, m.functions[..j]) + [FunctionSymbol(m, events, m.functions[j])];
      }
      assert m.functions[..|m.functions|] == m.functions;
      ghost var withFunctions := symbols;
      for j := 0 to |m.classes|
        invariant symbols == withFunctions + ClassSymbols(m, events, m.classes[..j])
        invariant classCount == cls + j && functionCount == fns + |m.functions| + MethodCount(m.classes[..j])
        invariant |symbols| == |withFunctions| + j + MethodCount(m.classes[..j])
      {
        var added, methods := AddClass(m, events, m.classes[j]);
        assert m.classes[..j + 1][..j] == m.classes[..j];
        Chain(withFunctions, ClassSymbols(m, events, m.classes[..j]), added);
        symbols := symbols + added;
        classCount := classCount + 1;
        functionCount := functionCount + methods;
      }
      assert m.classes[..|m.classes|] == m.classes;
      Chain(before, FunctionSymbols(m, events, m.functions), ClassSymbols(m, events, m.classes));
      assert modules[..i + 1][..i] == modules[..i];
    }
    assert modules[..|modules|] == modules;
  }

  /** The summaries of one class, and how many of them are methods. */
  method AddClass(m: ModuleFact, events: seq<RuntimeEvent>, c: ClassRecord)
    returns (added: seq<SymbolSummary>, methods: nat)
    ensures added == [SymbolSummary(c.qualifiedName, CLASS, m.modulePath, 0)] + FunctionSymbols(m, events, c.methods)
    ensures methods == |c.methods|
  {
    var head := [SymbolSummary(c.qualifiedName, CLASS, m.modulePath, 0)];
    added, methods := head, 0;
    for j := 0 to |c.methods|
      invariant added == head + FunctionSymbols(m, events, c.methods[..j]) && methods == j
    {
      methods := methods + 1;
      added := added + [FunctionSymbol(m, events, c.methods[j])];
      assert FunctionSymbols(m, events, c.methods[..j + 1]) ==
             FunctionSymbols(m, events, c.methods[..j]) + [FunctionSymbol(m, events, c.methods[j])];
    }
    assert c.methods[..|c.methods|] == c.methods;
  }

  lemma EdgeListMembers(order: seq<EdgeKey>, weights: map<EdgeKey, nat>)
    requires EdgeTable(order, weights)
    ensures forall e :: e in EdgeList(order, weights) <==> e.key in weights && e.weight == weights[e.key]
  {
    forall e ensures e in EdgeList(order, weights) <==> e.key in weights && e.weight == weights[e.key] {
      if e.key in weights && e.weight == weights[e.key] {
        assert e.key in order;
        var i :| 0 <= i < |order| && order[i] == e.key;
        assert EdgeList(order, weights)[i] == e;
      }
    }
  }

  // ---------------------------------------------------------------- what the symbols say of the facts

  /** What identifies a symbol, besides its kind. */
  datatype SymbolName = SymbolName(qualifiedName: string, modulePath: string)

  /** The names of the symbols of one kind, with multiplicity. */
  function NamesOf(kind: SymbolType, symbols: seq<SymbolSummary>): multiset<SymbolName> {
    if symbols == [] then multiset{}
    else
      var s := symbols[|symbols| - 1];
      NamesOf(kind, symbols[..|symbols| - 1])
      + if s.symbolType == kind then multiset{SymbolName(s.qualifiedName, s.modulePath)} else multiset{}
  }

  /** The names of functions scanned in one module. */
  function FunctionNames(modulePath: string, fs: seq<FunctionFact>): multiset<SymbolName> {
    if fs == [] then multiset{}
    else FunctionNames(modulePath, fs[..|fs| - 1]) + multiset{SymbolName(fs[|fs| - 1].qualifiedName, modulePath)}
  }

  function ClassNames(modulePath: string, cs: seq<ClassRecord>): multiset<SymbolName> {
    if cs == [] then multiset{}
    else ClassNames(modulePath, cs[..|cs| - 1]) + multiset{SymbolName(cs[|cs| - 1].qualifiedName, modulePath)}
  }

  /** The names of everything scanned: of functions and methods, and of classes. */
  function ScannedFunctions(modules: seq<ModuleFact>): multiset<SymbolName> {
    if modules == [] then multiset{}
    else
      var m := modules[|modules| - 1];
      ScannedFunctions(modules[..|modules| - 1])
      + (FunctionNames(m.modulePath, m.functions) + FunctionNames(m.modulePath, MethodsOf(m.classes)))
  }

  function ScannedClasses(modules: seq<ModuleFact>): multiset<SymbolName> {
    if modules == [] then multiset{}
    else ScannedClasses(modules[..|modules| - 1]) + ClassNames(modules[|modules| - 1].modulePath, modules[|modules| - 1].classes)
  }

  lemma {:induction false} NamesOfConcat(kind: SymbolType, a: seq<SymbolSummary>, b: seq<SymbolSummary>)
    ensures NamesOf(kind, a + b) == NamesOf(kind, a) + NamesOf(kind, b)
  {
    if b == [] {
      assert a + b == a;
    } else {
      assert (a + b)[..|a + b| - 1] == a + b[..|b| - 1];
      NamesOfConcat(kind, a, b[..|b| - 1]);
    }
  }

  lemma {:induction false} NamesPermute(kind: SymbolType, s: seq<SymbolSummary>, t: seq<SymbolSummary>)
    requires multiset(s) == multiset(t)
    ensures NamesOf(kind, s) == NamesOf(kind, t)
  {
    if s == [] {
      assert |multiset(t)| == 0;
    } else {
      var n := |s| - 1;
      assert s == s[..n] + [s[n]];
      var i := TakeOutLast(s, t);
      var a, b := t[..i], t[i + 1..];
      assert t == (a + [s[n]]) + b;
      NamesPermute(kind, s[..n], a + b);
      NamesOfConcat(kind, a + [s[n]], b);
      NamesOfConcat(kind, a, [s[n]]);
      NamesOfConcat(kind, a, b);
      NamesOfConcat(kind, s[..n], [s[n]]);
    }
  }

  lemma {:induction false} FunctionNamesConcat(modulePath: string, a: seq<FunctionFact>, b: seq<FunctionFact>)
    ensures FunctionNames(modulePath, a + b) == FunctionNames(modulePath, a) + FunctionNames(modulePath, b)
  {
    if b == [] {
      assert a + b == a;
    } else {
      assert (a + b)[..|a + b| - 1] == a + b[..|b| - 1];
      FunctionNamesConcat(modulePath, a, b[..|b| - 1]);
    }
  }

  lemma {:induction false} FunctionNamesPermute(modulePath: string, s: seq<FunctionFact>, t: seq<FunctionFact>)
    requires multiset(s) == multiset(t)
    ensures FunctionNames(modulePath, s) == FunctionNames(modulePath, t)
  {
    if s == [] {
      assert |multiset(t)| == 0;
    } else {
      var n := |s| - 1;
      assert s == s[..n] + [s[n]];
      var i := TakeOutLast(s, t);
      var a, b := t[..i], t[i + 1..];
      assert t == (a + [s[n]]) + b;
      FunctionNamesPermute(modulePath, s[..n], a + b);
      FunctionNamesConcat(modulePath, a + [s[n]], b);
      FunctionNamesConcat(modulePath, a, [s[n]]);
      FunctionNamesConcat(modulePath, a, b);
      FunctionNamesConcat(modulePath, s[..n], [s[n]]);
    }
  }

  lemma {:induction false} NamesOfFunctionSymbols(m: ModuleFact, events: seq<RuntimeEvent>, fs: seq<FunctionFact>)
    ensures NamesOf(FUNCTION, FunctionSymbols(m, events, fs)) == FunctionNames(m.modulePath, fs)
    ensures NamesOf(CLASS, FunctionSymbols(m, events, fs)) == multiset{}
  {
    if fs != [] {
      var n := |fs| - 1;
      NamesOfFunctionSymbols(m, events, fs[..n]);
      assert FunctionSymbols(m, events, fs)[..n] == FunctionSymbols(m, events, fs[..n]);
    }
  }

  lemma {:induction false} NamesOfClassSymbols(m: ModuleFact, events: seq<RuntimeEvent>, cs: seq<ClassRecord>)
    ensures NamesOf(FUNCTION, ClassSymbols(m, events, cs)) == FunctionNames(m.modulePath, MethodsOf(cs))
    ensures NamesOf(CLASS, ClassSymbols(m, events, cs)) == ClassNames(m.modulePath, cs)
  {
    if cs != [] {
      var n := |cs| - 1;
      var c := cs[n];
      var before, methods := ClassSymbols(m, events, cs[..n]), FunctionSymbols(m, events, c.methods);
      var head := [SymbolSummary(c.qualifiedName, CLASS, m.modulePath, 0)];
      NamesOfClassSymbols(m, events, cs[..n]);
      NamesOfFunctionSymbols(m, events, c.methods);
      FunctionNamesConcat(m.modulePath, MethodsOf(cs[..n]), c.methods);
      NamesOfOne(head[0]);
      hide FunctionSymbols;
      forall kind
        ensures NamesOf(kind, before + (head + methods)) == NamesOf(kind, before) + (NamesOf(kind, head) + NamesOf(kind, methods))
      {
        NamesOfConcat(kind, before, head + methods);
        NamesOfConcat(kind, head, methods);
      }
    }
  }

  lemma NamesOfOne(s: SymbolSummary)
    ensures forall kind :: NamesOf(kind, [s]) ==
              if s.symbolType == kind then multiset{SymbolName(s.qualifiedName, s.modulePath)} else multiset{}
  {
    assert forall kind :: NamesOf(kind, [s][..0]) == multiset{};
  }

  /** Before sorting, the symbols name what was scanned. */
  lemma {:induction false} NamesOfSymbols(modules: seq<ModuleFact>, events: seq<RuntimeEvent>)
    ensures NamesOf(FUNCTION, SymbolsOf(modules, events)) == ScannedFunctions(modules)
    ensures NamesOf(CLASS, SymbolsOf(modules, events)) == ScannedClasses(modules)
  {
    if modules != [] {
      var n := |modules| - 1;
      var m := modules[n];
      var before, functions, classes :=
        SymbolsOf(modules[..n], events), FunctionSymbols(m, events, m.functions), ClassSymbols(m, events, m.classes);
      NamesOfSymbols(modules[..n], events);
      NamesOfFunctionSymbols(m, events, m.functions);
      NamesOfClassSymbols(m, events, m.classes);
      hide FunctionSymbols, ClassSymbols;
      forall kind
        ensures NamesOf(kind, before + (functions + classes)) == NamesOf(kind, before) + (NamesOf(kind, functions) + NamesOf(kind, classes))
      {
        NamesOfConcat(kind, before, functions + classes);
        NamesOfConcat(kind, functions, classes);
      }
    }
  }

  lemma {:induction false} NamesOfSize(symbols: seq<SymbolSummary>)
    ensures |NamesOf(FUNCTION, symbols)| + |NamesOf(CLASS, symbols)| == |symbols|
  {
    if symbols != [] { NamesOfSize(symbols[..|symbols| - 1]); }
  }

  // ---------------------------------------------------------------- counts as numbers of events

  /** Which events are calls, calls of a name, calls into a module. */
  ghost function CallIndices(events: seq<RuntimeEvent>): set<nat> { set i: nat | i < |events| && events[i].isCall }

  ghost function CallsNamed(events: seq<RuntimeEvent>, name: string): set<nat> {
    set i: nat | i < |events| && events[i].isCall && events[i].qualifiedName == name
  }

  ghost function CallsInto(events: seq<RuntimeEvent>, modulePath: string): set<nat> {
    set i: nat | i < |events| && events[i].isCall && events[i].modulePath == modulePath
  }

  lemma CallsAreEvents(events: seq<RuntimeEvent>, x: string)
    ensures Calls(events) == |CallIndices(events)|
    ensures CallsOf(events, x) == |CallsNamed(events, x)|
    ensures CallsIn(events, x) == |CallsInto(events, x)|
  {
    CountAll(events);
    CountNamed(events, x);
    CountInto(events, x);
  }

  lemma {:induction false} CountAll(events: seq<RuntimeEvent>)
    ensures Calls(events) == |CallIndices(events)|
  {
    if events != [] {
      var n := |events| - 1;
      CountAll(events[..n]);
      assert CallIndices(events) == CallIndices(events[..n]) + if events[n].isCall then {n} else {};
    }
  }

  lemma {:induction false} CountNamed(events: seq<RuntimeEvent>, x: string)
    ensures CallsOf(events, x) == |CallsNamed(events, x)|
  {
    if events != [] {
      var n := |events| - 1;
      CountNamed(events[..n], x);
      assert CallsNamed(events, x) ==
             CallsNamed(events[..n], x) + if events[n].isCall && events[n].qualifiedName == x then {n} else {};
    }
  }

  lemma {:induction false} CountInto(events: seq<RuntimeEvent>, x: string)
    ensures CallsIn(events, x) == |CallsInto(events, x)|
  {
    if events != [] {
      var n := |events| - 1;
      CountInto(events[..n], x);
      assert CallsInto(events, x) ==
             CallsInto(events[..n], x) + if events[n].isCall && events[n].modulePath == x then {n} else {};
    }
  }

  // ---------------------------------------------------------------- conservation

  /** The runtime counts of all symbols together. */
  function RuntimeCounts(symbols: seq<SymbolSummary>): nat {
    if symbols == [] then 0 else RuntimeCounts(symbols[..|symbols| - 1]) + symbols[|symbols| - 1].runtimeCallCount
  }

  /** How many function symbols carry the name. */
  function FunctionsNamed(symbols: seq<SymbolSummary>, name: string): nat {
    if symbols == [] then 0
    else
      var s := symbols[|symbols| - 1];
      FunctionsNamed(symbols[..|symbols| - 1], name) + if s.symbolType == FUNCTION && s.qualifiedName == name then 1 else 0
  }

  /** Every call counted once for every function symbol that carries its name. */
  function CallsReaching(symbols: seq<SymbolSummary>, events: seq<RuntimeEvent>): nat {
    if events == [] then 0
    else
      var e := events[|events| - 1];
      CallsReaching(symbols, events[..|events| - 1]) + if e.isCall then FunctionsNamed(symbols, e.qualifiedName) else 0
  }

  /** Function symbols count the calls of their name, classes count none. */
  ghost predicate Counted(symbols: seq<SymbolSummary>, events: seq<RuntimeEvent>) {
    forall s | s in symbols :: s.runtimeCallCount == if s.symbolType == FUNCTION then CallsOf(events, s.qualifiedName) else 0
  }

  lemma {:induction false} ClassSymbolsCounted(m: ModuleFact, events: seq<RuntimeEvent>, cs: seq<ClassRecord>)
    ensures Counted(ClassSymbols(m, events, cs), events)
  {
    if cs != [] { ClassSymbolsCounted(m, events, cs[..|cs| - 1]); }
  }

  lemma {:induction false} SymbolsCounted(modules: seq<ModuleFact>, events: seq<RuntimeEvent>)
    ensures Counted(SymbolsOf(modules, events), events)
  {
    if modules != [] {
      SymbolsCounted(modules[..|modules| - 1], events);
      ClassSymbolsCounted(modules[|modules| - 1], events, modules[|modules| - 1].classes);
    }
  }

  /** One more symbol is reached by the calls of its name. */
  lemma {:induction false} ReachedBySnoc(symbols: seq<SymbolSummary>, s: SymbolSummary, events: seq<RuntimeEvent>)
    ensures CallsReaching(symbols + [s], events) ==
            CallsReaching(symbols, events) + if s.symbolType == FUNCTION then CallsOf(events, s.qualifiedName) else 0
  {
    if events != [] {
      ReachedBySnoc(symbols, s, events[..|events| - 1]);
      assert (symbols + [s])[..|symbols|] == symbols;
    }
  }

  lemma {:induction false} NothingReached(events: seq<RuntimeEvent>)
    ensures CallsReaching([], events) == 0
  {
    if events != [] { NothingReached(events[..|events| - 1]); }
  }

  /** Counting symbol by symbol or call by call gives the same total. */
  lemma {:induction false} RuntimeCountsAreCalls(symbols: seq<SymbolSummary>, events: seq<RuntimeEvent>)
    requires Counted(symbols, events)
    ensures RuntimeCounts(symbols) == CallsReaching(symbols, events)
  {
    if symbols == [] {
      NothingReached(events);
    } else {
      var n := |symbols| - 1;
      RuntimeCountsAreCalls(symbols[..n], events);
      ReachedBySnoc(symbols[..n], symbols[n], events);
      assert symbols == symbols[..n] + [symbols[n]];
    }
  }

  lemma {:induction false} EachCallOnce(symbols: seq<SymbolSummary>, events: seq<RuntimeEvent>)
    requires forall e | e in events && e.isCall :: FunctionsNamed(symbols, e.qualifiedName) == 1
    ensures CallsReaching(symbols, events) == Calls(events)
  {
    if events != [] {
      var e := events[|events| - 1];
      assert e in events;
      EachCallOnce(symbols, events[..|events| - 1]);
    }
  }

  lemma CountedPermutes(s: seq<SymbolSummary>, t: seq<SymbolSummary>, events: seq<RuntimeEvent>)
    requires multiset(s) == multiset(t) && Counted(s, events)
    ensures Counted(t, events)
  {
    forall x | x in t ensures x in s { assert x in multiset(s); }
  }

  /** The runtime counts of the schema's symbols add up to the calls, each counted once per function symbol of its
      name; to the weights of its runtime edges when every called name is exactly one function symbol. */
  ghost predicate RuntimeConserved(schema: ProjectSchema, events: seq<RuntimeEvent>) {
    && RuntimeWeight(schema.edges) == |CallIndices(events)|
    && RuntimeCounts(schema.symbols) == CallsReaching(schema.symbols, events)
    && ((forall e | e in events && e.isCall :: FunctionsNamed(schema.symbols, e.qualifiedName) == 1)
        ==> RuntimeCounts(schema.symbols) == RuntimeWeight(schema.edges))
  }

  lemma RuntimeConservation(schema: ProjectSchema, modules: seq<ModuleFact>, events: seq<RuntimeEvent>)
    requires multiset(schema.symbols) == multiset(SymbolsOf(modules, events)) && RuntimeWeight(schema.edges) == Calls(events)
    ensures RuntimeConserved(schema, events)
  {
    CallsAreEvents(events, "");
    SymbolsCounted(modules, events);
    CountedPermutes(SymbolsOf(modules, events), schema.symbols, events);
    RuntimeCountsAreCalls(schema.symbols, events);
    if forall e | e in events && e.isCall :: FunctionsNamed(schema.symbols, e.qualifiedName) == 1 {
      EachCallOnce(schema.symbols, events);
    }
  }

  // ---------------------------------------------------------------- the schema

  function NameOf(s: SymbolSummary): string { s.qualifiedName }

  /** The function symbols carry the names of the scanned functions and methods, the class symbols those of the
      scanned classes; a function symbol counts the calls of its name. */
  ghost predicate SymbolsOfFacts(schema: ProjectSchema, modules: seq<ModuleFact>, events: seq<RuntimeEvent>) {
    && NamesOf(FUNCTION, schema.symbols) == ScannedFunctions(modules)
    && NamesOf(CLASS, schema.symbols) == ScannedClasses(modules)
    && (forall s | s in schema.symbols ::
          s.runtimeCallCount == if s.symbolType == FUNCTION then |CallsNamed(events, s.qualifiedName)| else 0)
  }

  /** Sorting by name keeps what the symbols say. */
  lemma SymbolsSayFacts(schema: ProjectSchema, modules: seq<ModuleFact>, events: seq<RuntimeEvent>)
    requires multiset(schema.symbols) == multiset(SymbolsOf(modules, events))
    ensures SymbolsOfFacts(schema, modules, events)
  {
    NamesOfSymbols(modules, events);
    NamesPermute(FUNCTION, schema.symbols, SymbolsOf(modules, events));
    NamesPermute(CLASS, schema.symbols, SymbolsOf(modules, events));
    SymbolsCounted(modules, events);
    CountedPermutes(SymbolsOf(modules, events), schema.symbols, events);
    forall s | s in schema.symbols
      ensures s.runtimeCallCount == if s.symbolType == FUNCTION then |CallsNamed(events, s.qualifiedName)| else 0
    {
      CallsAreEvents(events, s.qualifiedName);
    }
  }

  /** As many functions and classes are counted as are named. */
  lemma {:induction false} CountsAreScanned(modules: seq<ModuleFact>)
    ensures FunctionCount(modules) == |ScannedFunctions(modules)| && ClassCount(modules) == |ScannedClasses(modules)|
  {
    if modules != [] {
      var m := modules[|modules| - 1];
      CountsAreScanned(modules[..|modules| - 1]);
      FunctionNamesSize(m.modulePath, m.functions);
      FunctionNamesSize(m.modulePath, MethodsOf(m.classes));
      ClassNamesSize(m.modulePath, m.classes);
    }
  }

  lemma {:induction false} FunctionNamesSize(modulePath: string, fs: seq<FunctionFact>)
    ensures |FunctionNames(modulePath, fs)| == |fs|
  {
    if fs != [] { FunctionNamesSize(modulePath, fs[..|fs| - 1]); }
  }

  lemma {:induction false} ClassNamesSize(modulePath: string, cs: seq<ClassRecord>)
    ensures |ClassNames(modulePath, cs)| == |cs|
  {
    if cs != [] { ClassNamesSize(modulePath, cs[..|cs| - 1]); }
  }

  method BuildSchema(modules: seq<ModuleFact>, events: seq<RuntimeEvent>) returns (schema: ProjectSchema)
    ensures schema.moduleCount == |modules| && schema.runtimeEventCount == |events|
    ensures schema.functionCount == |ScannedFunctions(modules)| && schema.classCount == |ScannedClasses(modules)|
    ensures SymbolsOfFacts(schema, modules, events) && RuntimeConserved(schema, events)
    ensures forall i, j | 0 <= i < j < |schema.symbols| ::
              StrLeq(schema.symbols[i].qualifiedName, schema.symbols[j].qualifiedName)
    ensures multiset(schema.symbols) == multiset(SymbolsOf(modules, events))
    ensures forall name :: KeyedBy(NameOf, name, schema.symbols) == KeyedBy(NameOf, name, SymbolsOf(modules, events))
    ensures forall i, j | 0 <= i < j < |schema.edges| :: schema.edges[i].key != schema.edges[j].key
    ensures forall e :: e in schema.edges <==>
              if e.key.kind == IMPORT then e.weight == 1 && ImportsKey(modules, e.key)
              else e.key.source == "runtime" && e.weight == |CallsInto(events, e.key.target)| > 0
  {
    CountsAreScanned(modules);
    forall x: string ensures CallsIn(events, x) == |CallsInto(events, x)| { CallsAreEvents(events, x); }
    var order, weights := AddImportEdges(modules);
    order, weights := AddRuntimeEdges(events, order, weights);
    var symbols, functionCount, classCount := CollectSymbols(modules, events);
    SortByCorrect(NameOf, symbols);
    schema := ProjectSchema(|modules|, functionCount, classCount, |events|, EdgeList(order, weights), SortBy(NameOf, symbols));
    RuntimeConservation(schema, modules, events);
    SymbolsSayFacts(schema, modules, events);
    forall name ensures KeyedBy(NameOf, name, schema.symbols) == KeyedBy(NameOf, name, SymbolsOf(modules, events)) {
      SortIsStable(NameOf, name, symbols);
    }
    forall i, j | 0 <= i < j < |schema.symbols|
      ensures StrLeq(schema.symbols[i].qualifiedName, schema.symbols[j].qualifiedName)
    {
      assert StrLeq(NameOf(schema.symbols[i]), NameOf(schema.symbols[j]));
    }
    EdgeListMembers(order, weights);
  }

  // ---------------------------------------------------------------- from source files to the schema

  function Scanned(modulePath: string, tree: Node): ModuleFact {
    ModuleFact(modulePath, [], [], LocalFunctions(modulePath, [], tree), Classes(modulePath, [], tree))
  }

  /** The functions and methods scanned in one module are its function definitions, its classes its class definitions. */
  lemma ScanNamesDefinitions(modulePath: string, tree: Node)
    ensures var m := Scanned(modulePath, tree);
            && FunctionNames(modulePath, m.functions) + FunctionNames(modulePath, MethodsOf(m.classes))
               == FunctionNames(modulePath, FunctionDefs(modulePath, [], tree))
            && |m.functions| + MethodCount(m.classes) == |FunctionDefs(modulePath, [], tree)|
            && |m.classes| == |Spots(CLASSES, tree)|
  {
    var m, defs := Scanned(modulePath, tree), FunctionDefs(modulePath, [], tree);
    var all := m.functions + MethodsOf(m.classes);
    EveryFunctionOnce(modulePath, [], tree);
    EveryClassOnce(modulePath, [], tree);
    assert multiset(all) == multiset(defs);
    assert |multiset(all)| == |all|;
    FunctionNamesConcat(modulePath, m.functions, MethodsOf(m.classes));
    FunctionNamesPermute(modulePath, all, defs);
  }

  /** A parsed source file. */
  datatype Source = Source(modulePath: string, tree: Node)

  function ScannedAll(files: seq<Source>): seq<ModuleFact> {
    seq(|files|, i requires 0 <= i < |files| => Scanned(files[i].modulePath, files[i].tree))
  }

  /** The function definitions of all files, wherever they stand, and the class definitions. */
  function DefinedFunctions(files: seq<Source>): multiset<SymbolName> {
    if files == [] then multiset{}
    else
      var f := files[|files| - 1];
      DefinedFunctions(files[..|files| - 1]) + FunctionNames(f.modulePath, FunctionDefs(f.modulePath, [], f.tree))
  }

  function DefinedClasses(files: seq<Source>): multiset<SymbolName> {
    if files == [] then multiset{}
    else
      var f := files[|files| - 1];
      DefinedClasses(files[..|files| - 1]) + ClassNames(f.modulePath, Classes(f.modulePath, [], f.tree))
  }

  /** From source trees to the schema: over all parsed modules, what is scanned is what the trees define. */
  lemma {:induction false} AllScansNameDefinitions(files: seq<Source>)
    ensures ScannedFunctions(ScannedAll(files)) == DefinedFunctions(files)
    ensures ScannedClasses(ScannedAll(files)) == DefinedClasses(files)
  {
    if files != [] {
      var n := |files| - 1;
      AllScansNameDefinitions(files[..n]);
      assert ScannedAll(files)[..n] == ScannedAll(files[..n]);
      ScanNamesDefinitions(files[n].modulePath, files[n].tree);
    }
  }

  /** The whole way: parse trees and events in, a schema out. */
  method BuildSchemaOf(files: seq<Source>, events: seq<RuntimeEvent>) returns (schema: ProjectSchema)
    ensures NamesOf(FUNCTION, schema.symbols) == DefinedFunctions(files)
    ensures NamesOf(CLASS, schema.symbols) == DefinedClasses(files)
    ensures schema.functionCount == |DefinedFunctions(files)| && schema.classCount == |DefinedClasses(files)|
    ensures |schema.symbols| == schema.functionCount + schema.classCount
    ensures RuntimeConserved(schema, events)
  {
    AllScansNameDefinitions(files);
    schema := BuildSchema(ScannedAll(files), events);
    NamesOfSize(schema.symbols);
  }
}
