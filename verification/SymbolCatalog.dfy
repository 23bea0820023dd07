/**
 The names a module's symbols go by, and tracing what a model called symbols and imports back to them.

 One search of the source runs over a Python set, whose order is arbitrary: `Resolves` is a relation, and every
 theorem holds for whatever the search finds.
 */
module SymbolCatalog {
  import opened Options
  import opened PyText

  // ---------------------------------------------------------------- data

  datatype FunctionFact = FunctionFact(name: string, qualifiedName: string)

  /** A missing docstring is the empty string. */
  datatype ClassFact = ClassFact(name: string, qualifiedName: string, docstring: string, methods: seq<FunctionFact>)

  /** `importFacts` holds their normalized imports. */
  datatype ModuleFact = ModuleFact(modulePath: string, functions: seq<FunctionFact>, classes: seq<ClassFact>,
                                   imports: seq<string>, importFacts: seq<string>)

  // ---------------------------------------------------------------- the symbol catalog

  /** The symbol may be called `key`. */
  datatype Binding = Binding(key: string, symbol: string)

  type Catalog = map<string, string>

  function FunctionBindings(f: FunctionFact): seq<Binding> {
    [Binding(f.qualifiedName, f.qualifiedName), Binding(f.name, f.qualifiedName)]
  }

  function MethodBindings(owner: string, f: FunctionFact): seq<Binding> {
    FunctionBindings(f) + [Binding(owner + "." + f.name, f.qualifiedName)]
  }

  function FunctionsBindings(functions: seq<FunctionFact>): seq<Binding> {
    if functions == [] then []
    else FunctionsBindings(functions[..|functions| - 1]) + FunctionBindings(functions[|functions| - 1])
  }

  function MethodsBindings(owner: string, methods: seq<FunctionFact>): seq<Binding> {
    if methods == [] then []
    else MethodsBindings(owner, methods[..|methods| - 1]) + MethodBindings(owner, methods[|methods| - 1])
  }

  function ClassBindings(k: ClassFact): seq<Binding> {
    FunctionBindings(FunctionFact(k.name, k.qualifiedName)) + MethodsBindings(k.name, k.methods)
  }

  function ClassesBindings(classes: seq<ClassFact>): seq<Binding> {
    if classes == [] then []
    else ClassesBindings(classes[..|classes| - 1]) + ClassBindings(classes[|classes| - 1])
  }

  /** What every symbol of the module may be called. */
  function Bindings(m: ModuleFact): seq<Binding> { FunctionsBindings(m.functions) + ClassesBindings(m.classes) }

  /** `q` is the qualified name of a function, class or method of the module. */
  ghost predicate Declares(m: ModuleFact, q: string) { Binding(q, q) in Bindings(m) }

  /** `key` means `symbol` when later bindings hide earlier ones. */
  ghost predicate Latest(bindings: seq<Binding>, key: string, symbol: string) {
    exists i | 0 <= i < |bindings| :: bindings[i] == Binding(key, symbol) && forall j | i < j < |bindings| :: bindings[j].key != key
  }

  /** The catalog finds the latest symbol of every name, and nothing else. */
  ghost predicate Catalogs(catalog: Catalog, bindings: seq<Binding>) {
    && (forall key | key in catalog :: Latest(bindings, key, catalog[key]))
    && (forall i | 0 <= i < |bindings| :: bindings[i].key in catalog)
  }

  lemma Entered(catalog: Catalog, bindings: seq<Binding>, b: Binding)
    requires Catalogs(catalog, bindings)
    ensures Catalogs(catalog[b.key := b.symbol], bindings + [b])
  {
    var after, all := catalog[b.key := b.symbol], bindings + [b];
    forall key | key in after ensures Latest(all, key, after[key]) {
      if key == b.key {
        assert all[|bindings|] == Binding(key, after[key]);
      } else {
        var i :| 0 <= i < |bindings| && bindings[i] == Binding(key, catalog[key]) && forall j | i < j < |bindings| :: bindings[j].key != key;
        assert all[i] == Binding(key, after[key]);
      }
    }
  }

  lemma FunctionEntered(catalog: Catalog, bindings: seq<Binding>, f: FunctionFact)
    requires Catalogs(catalog, bindings)
    ensures Catalogs(catalog[f.qualifiedName := f.qualifiedName][f.name := f.qualifiedName], bindings + FunctionBindings(f))
  {
    var b, c := Binding(f.qualifiedName, f.qualifiedName), Binding(f.name, f.qualifiedName);
    Entered(catalog, bindings, b);
    Entered(catalog[b.key := b.symbol], bindings + [b], c);
    assert bindings + [b] + [c] == bindings + FunctionBindings(f);
  }

  lemma MethodEntered(catalog: Catalog, bindings: seq<Binding>, owner: string, f: FunctionFact)
    requires Catalogs(catalog, bindings)
    ensures Catalogs(catalog[f.qualifiedName := f.qualifiedName][f.name := f.qualifiedName][owner + "." + f.name := f.qualifiedName],
                     bindings + MethodBindings(owner, f))
  {
    var b := Binding(owner + "." + f.name, f.qualifiedName);
    FunctionEntered(catalog, bindings, f);
    Entered(catalog[f.qualifiedName := f.qualifiedName][f.name := f.qualifiedName], bindings + FunctionBindings(f), b);
    assert bindings + FunctionBindings(f) + [b] == bindings + MethodBindings(owner, f);
  }

  /** `_module_symbol_catalog` */
  method ModuleSymbolCatalog(m: ModuleFact) returns (catalog: Catalog)
    ensures Catalogs(catalog, Bindings(m))
  {
    catalog := EnterFunctions(m.functions);
    ghost var ofFunctions := FunctionsBindings(m.functions);
    assert ofFunctions + ClassesBindings(m.classes[..0]) == ofFunctions;
    for i := 0 to |m.classes|
      invariant Catalogs(catalog, ofFunctions + ClassesBindings(m.classes[..i]))
    {
      catalog := EnterClass(catalog, ofFunctions + ClassesBindings(m.classes[..i]), m.classes[i]);
      OneMoreClass(ofFunctions, m.classes, i);
    }
    assert m.classes[..|m.classes|] == m.classes;
  }

  lemma OneMoreClass(before: seq<Binding>, classes: seq<ClassFact>, i: nat)
    requires i < |classes|
    ensures before + ClassesBindings(classes[..i + 1]) == before + ClassesBindings(classes[..i]) + ClassBindings(classes[i])
  {
    assert classes[..i + 1][..i] == classes[..i];
  }

  method EnterFunctions(functions: seq<FunctionFact>) returns (catalog: Catalog)
    ensures Catalogs(catalog, FunctionsBindings(functions))
  {
    catalog := map[];
    for i := 0 to |functions|
      invariant Catalogs(catalog, FunctionsBindings(functions[..i]))
    {
      var f := functions[i];
      FunctionEntered(catalog, FunctionsBindings(functions[..i]), f);
      assert functions[..i + 1][..i] == functions[..i];
      catalog := catalog[f.qualifiedName := f.qualifiedName][f.name := f.qualifiedName];
    }
    assert functions[..|functions|] == functions;
  }

  method EnterClass(catalog: Catalog, ghost bindings: seq<Binding>, k: ClassFact) returns (extended: Catalog)
    requires Catalogs(catalog, bindings)
    ensures Catalogs(extended, bindings + ClassBindings(k))
  {
    extended := catalog[k.qualifiedName := k.qualifiedName][k.name := k.qualifiedName];
    ghost var own := bindings + FunctionBindings(FunctionFact(k.name, k.qualifiedName));
    FunctionEntered(catalog, bindings, FunctionFact(k.name, k.qualifiedName));
    assert own + MethodsBindings(k.name, k.methods[..0]) == own;
    for i := 0 to |k.methods|
      invariant Catalogs(extended, own + MethodsBindings(k.name, k.methods[..i]))
    {
      var f := k.methods[i];
      MethodEntered(extended, own + MethodsBindings(k.name, k.methods[..i]), k.name, f);
      assert k.methods[..i + 1][..i] == k.methods[..i];
      assert own + MethodsBindings(k.name, k.methods[..i]) + MethodBindings(k.name, f) == own + MethodsBindings(k.name, k.methods[..i + 1]);
      extended := extended[f.qualifiedName := f.qualifiedName][f.name := f.qualifiedName][k.name + "." + f.name := f.qualifiedName];
    }
    assert k.methods[..|k.methods|] == k.methods;
    assert own + MethodsBindings(k.name, k.methods) == bindings + ClassBindings(k);
  }

  /** A function goes by its qualified and its bare name; a method also as `Class.method`. */
  predicate Names(f: FunctionFact, b: Binding) { b.symbol == f.qualifiedName && (b.key == f.qualifiedName || b.key == f.name) }

  predicate NamesMethod(owner: string, f: FunctionFact, b: Binding) {
    Names(f, b) || (b.symbol == f.qualifiedName && b.key == owner + "." + f.name)
  }

  predicate NamesClass(k: ClassFact, b: Binding) { b.symbol == k.qualifiedName && (b.key == k.qualifiedName || b.key == k.name) }

  /** The bindings are exactly the names of functions, classes and methods. */
  lemma BindingsExactly(m: ModuleFact, b: Binding)
    ensures b in Bindings(m) <==>
            || (exists f :: f in m.functions && Names(f, b))
            || (exists k :: k in m.classes && NamesClass(k, b))
            || (exists k, f :: k in m.classes && f in k.methods && NamesMethod(k.name, f, b))
  {
    FunctionsBoundExactly(m.functions, b);
    ClassesBoundExactly(m.classes, b);
  }

  lemma {:induction false} FunctionsBoundExactly(functions: seq<FunctionFact>, b: Binding)
    ensures b in FunctionsBindings(functions) <==> exists f :: f in functions && Names(f, b)
  {
    if functions != [] {
      var n := |functions| - 1;
      FunctionsBoundExactly(functions[..n], b);
      assert functions == functions[..n] + [functions[n]];
      assert b in FunctionBindings(functions[n]) <==> Names(functions[n], b);
    }
  }

  lemma {:induction false} MethodsBoundExactly(owner: string, methods: seq<FunctionFact>, b: Binding)
    ensures b in MethodsBindings(owner, methods) <==> exists f :: f in methods && NamesMethod(owner, f, b)
  {
    if methods != [] {
      var n := |methods| - 1;
      MethodsBoundExactly(owner, methods[..n], b);
      assert methods == methods[..n] + [methods[n]];
      MethodBoundExactly(owner, methods[n], b);
    }
  }

  lemma MethodBoundExactly(owner: string, f: FunctionFact, b: Binding)
    ensures b in MethodBindings(owner, f) <==> NamesMethod(owner, f, b)
  {
    assert b in FunctionBindings(f) <==> Names(f, b);
  }

  lemma {:induction false} ClassesBoundExactly(classes: seq<ClassFact>, b: Binding)
    ensures b in ClassesBindings(classes) <==>
            || (exists k :: k in classes && NamesClass(k, b))
            || (exists k, f :: k in classes && f in k.methods && NamesMethod(k.name, f, b))
  {
    if classes != [] {
      var n := |classes| - 1;
      ClassesBoundExactly(classes[..n], b);
      hide Names, NamesMethod, MethodsBindings;
      ClassBoundExactly(classes[n], b);
      assert classes == classes[..n] + [classes[n]];
    }
  }

  lemma ClassBoundExactly(k: ClassFact, b: Binding)
    ensures b in ClassBindings(k) <==> NamesClass(k, b) || exists f :: f in k.methods && NamesMethod(k.name, f, b)
  {
    MethodsBoundExactly(k.name, k.methods, b);
    assert b in FunctionBindings(FunctionFact(k.name, k.qualifiedName)) <==> NamesClass(k, b);
  }

  /** A catalog only leads to declared symbols, and knows every qualified name. */
  lemma CatalogIsGrounded(catalog: Catalog, m: ModuleFact)
    requires Catalogs(catalog, Bindings(m))
    ensures forall key | key in catalog :: Declares(m, catalog[key])
    ensures forall q | Declares(m, q) :: q in catalog
  {
    forall key | key in catalog ensures Declares(m, catalog[key]) {
      BoundSymbolsAreDeclared(m, Binding(key, catalog[key]));
    }
  }

  /** Every binding of a symbol comes with the binding of its qualified name. */
  lemma BoundSymbolsAreDeclared(m: ModuleFact, b: Binding)
    requires b in Bindings(m)
    ensures Declares(m, b.symbol)
  {
    if b in FunctionsBindings(m.functions) {
      FunctionsBoundByName(m.functions, b);
    } else {
      ClassesBoundByName(m.classes, b);
    }
  }

  lemma {:induction false} FunctionsBoundByName(functions: seq<FunctionFact>, b: Binding)
    requires b in FunctionsBindings(functions)
    ensures Binding(b.symbol, b.symbol) in FunctionsBindings(functions)
  {
    if b in FunctionsBindings(functions[..|functions| - 1]) {
      FunctionsBoundByName(functions[..|functions| - 1], b);
    }
  }

  lemma {:induction false} MethodsBoundByName(owner: string, methods: seq<FunctionFact>, b: Binding)
    requires b in MethodsBindings(owner, methods)
    ensures Binding(b.symbol, b.symbol) in MethodsBindings(owner, methods)
  {
    if b in MethodsBindings(owner, methods[..|methods| - 1]) {
      MethodsBoundByName(owner, methods[..|methods| - 1], b);
    } else {
      assert b in MethodBindings(owner, methods[|methods| - 1]);
      assert FunctionBindings(methods[|methods| - 1])[0] in MethodBindings(owner, methods[|methods| - 1]);
    }
  }

  lemma {:induction false} ClassesBoundByName(classes: seq<ClassFact>, b: Binding)
    requires b in ClassesBindings(classes)
    ensures Binding(b.symbol, b.symbol) in ClassesBindings(classes)
  {
    var k := classes[|classes| - 1];
    if b in ClassesBindings(classes[..|classes| - 1]) {
      ClassesBoundByName(classes[..|classes| - 1], b);
    } else if b in MethodsBindings(k.name, k.methods) {
      MethodsBoundByName(k.name, k.methods, b);
      assert Binding(b.symbol, b.symbol) in ClassBindings(k);
    } else {
      assert b in FunctionBindings(FunctionFact(k.name, k.qualifiedName));
      assert Binding(k.qualifiedName, k.qualifiedName) in ClassBindings(k);
    }
  }

  // ---------------------------------------------------------------- when a qualified name leads elsewhere

  /** Bare names have no dot, as identifiers; qualified names have one. */
  ghost predicate WellNamed(m: ModuleFact) {
    && PlainNames(m.functions)
    && forall k | k in m.classes :: '.' !in k.name && PlainNames(k.methods)
  }

  ghost predicate PlainNames(functions: seq<FunctionFact>) { forall f | f in functions :: '.' !in f.name }

  ghost predicate HasName(functions: seq<FunctionFact>, q: string) {
    exists j :: 0 <= j < |functions| && functions[j].qualifiedName == q
  }

  /** The class or one of its methods has the qualified name. */
  ghost predicate ClassHasName(k: ClassFact, q: string) { k.qualifiedName == q || HasName(k.methods, q) }

  ghost predicate HidesAt(owner: string, methods: seq<FunctionFact>, j: int, q: string)
    requires 0 <= j < |methods|
  {
    owner + "." + methods[j].name == q && methods[j].qualifiedName != q && !HasName(methods[j + 1..], q)
  }

  /** A method takes `q` as `Class.method` for itself, and no later method is really called `q`. */
  ghost predicate MethodHides(owner: string, methods: seq<FunctionFact>, q: string) {
    exists j :: 0 <= j < |methods| && HidesAt(owner, methods, j, q)
  }

  ghost predicate ClassHidesAt(classes: seq<ClassFact>, i: int, q: string)
    requires 0 <= i < |classes|
  {
    MethodHides(classes[i].name, classes[i].methods, q) && forall k | k in classes[i + 1..] :: !ClassHasName(k, q)
  }

  /** Some class hides `q` behind one of its methods, and nothing after that method is really called `q`. */
  ghost predicate Hidden(m: ModuleFact, q: string) {
    exists i :: 0 <= i < |m.classes| && ClassHidesAt(m.classes, i, q)
  }

  /** The symbol of the last binding of a key. */
  function LastSymbol(bindings: seq<Binding>, key: string): Option<string> {
    if bindings == [] then None
    else if bindings[|bindings| - 1].key == key then Some(bindings[|bindings| - 1].symbol)
    else LastSymbol(bindings[..|bindings| - 1], key)
  }

  lemma {:induction false} LastSymbolOf(bindings: seq<Binding>, key: string, symbol: string)
    requires Latest(bindings, key, symbol)
    ensures LastSymbol(bindings, key) == Some(symbol)
  {
    var n := |bindings| - 1;
    var i :| 0 <= i < |bindings| && bindings[i] == Binding(key, symbol) && forall j | i < j < |bindings| :: bindings[j].key != key;
    if i < n {
      assert bindings[..n][i] == Binding(key, symbol);
      LastSymbolOf(bindings[..n], key, symbol);
    }
  }

  lemma {:induction false} LastSymbolAppend(a: seq<Binding>, b: seq<Binding>, key: string)
    ensures LastSymbol(a + b, key) == if LastSymbol(b, key).Some? then LastSymbol(b, key) else LastSymbol(a, key)
  {
    if b == [] {
      assert a + b == a;
    } else {
      assert (a + b)[..|a + b| - 1] == a + b[..|b| - 1];
      LastSymbolAppend(a, b[..|b| - 1], key);
    }
  }

  lemma LastOfFunction(f: FunctionFact, q: string)
    requires '.' !in f.name && '.' in q
    ensures LastSymbol(FunctionBindings(f), q) == if f.qualifiedName == q then Some(q) else None
  {
    var b, c := Binding(f.qualifiedName, f.qualifiedName), Binding(f.name, f.qualifiedName);
    assert FunctionBindings(f) == [b] + [c];
    LastSymbolAppend([b], [c], q);
    LastOfOne(b, q);
    LastOfOne(c, q);
  }

  lemma LastOfOne(b: Binding, key: string)
    ensures LastSymbol([b], key) == if b.key == key then Some(b.symbol) else None
  {
    assert [b][..0] == [];
  }

  lemma LastOfMethod(owner: string, f: FunctionFact, q: string)
    requires '.' !in f.name && '.' in q
    ensures LastSymbol(MethodBindings(owner, f), q) ==
            if owner + "." + f.name == q then Some(f.qualifiedName) else if f.qualifiedName == q then Some(q) else None
  {
    var b := Binding(owner + "." + f.name, f.qualifiedName);
    LastSymbolAppend(FunctionBindings(f), [b], q);
    LastOfFunction(f, q);
    LastOfOne(b, q);
  }

  lemma {:induction false} LastOfFunctions(functions: seq<FunctionFact>, q: string)
    requires PlainNames(functions) && '.' in q
    ensures LastSymbol(FunctionsBindings(functions), q) == if HasName(functions, q) then Some(q) else None
  {
    if functions != [] {
      var n := |functions| - 1;
      var front, f := functions[..n], functions[n];
      assert functions == front + [f];
      LastOfFunctions(front, q);
      LastOfFunction(f, q);
      LastSymbolAppend(FunctionsBindings(front), FunctionBindings(f), q);
      HasNameSnoc(front, f, q);
    }
  }

  lemma HasNameSnoc(front: seq<FunctionFact>, f: FunctionFact, q: string)
    ensures HasName(front + [f], q) <==> HasName(front, q) || f.qualifiedName == q
  {
    var all := front + [f];
    if j :| 0 <= j < |front| && front[j].qualifiedName == q { assert all[j].qualifiedName == q; }
    if f.qualifiedName == q { assert all[|front|].qualifiedName == q; }
  }

  lemma MethodHidesSnoc(owner: string, front: seq<FunctionFact>, f: FunctionFact, q: string)
    ensures MethodHides(owner, front + [f], q) <==>
            (owner + "." + f.name == q && f.qualifiedName != q) || (MethodHides(owner, front, q) && f.qualifiedName != q)
  {
    var all, n := front + [f], |front|;
    assert all[n..][1..] == [] && all[n + 1..] == [];
    assert HidesAt(owner, all, n, q) <==> owner + "." + f.name == q && f.qualifiedName != q;
    forall j | 0 <= j < n ensures HidesAt(owner, all, j, q) <==> HidesAt(owner, front, j, q) && f.qualifiedName != q {
      assert all[j + 1..] == front[j + 1..] + [f];
      HasNameSnoc(front[j + 1..], f, q);
    }
    if j :| 0 <= j < n && HidesAt(owner, front, j, q) && f.qualifiedName != q { assert HidesAt(owner, all, j, q); }
  }

  /** The methods of a class leave `q` hidden, with its own symbol, or alone. */
  lemma {:induction false} LastOfMethods(owner: string, methods: seq<FunctionFact>, q: string)
    requires PlainNames(methods) && '.' in q
    ensures var last := LastSymbol(MethodsBindings(owner, methods), q);
            && (MethodHides(owner, methods, q) <==> last.Some? && last.value != q)
            && (HasName(methods, q) ==> last.Some?)
            && (last == Some(q) ==> HasName(methods, q))
  {
    if methods != [] {
      var n := |methods| - 1;
      var front, f := methods[..n], methods[n];
      assert methods == front + [f];
      LastOfMethods(owner, front, q);
      LastOfMethod(owner, f, q);
      LastSymbolAppend(MethodsBindings(owner, front), MethodBindings(owner, f), q);
      HasNameSnoc(front, f, q);
      MethodHidesSnoc(owner, front, f, q);
    }
  }

  lemma LastOfClass(k: ClassFact, q: string)
    requires '.' !in k.name && PlainNames(k.methods) && '.' in q
    ensures var last := LastSymbol(ClassBindings(k), q);
            && (MethodHides(k.name, k.methods, q) <==> last.Some? && last.value != q)
            && (ClassHasName(k, q) ==> last.Some?)
            && (last == Some(q) ==> ClassHasName(k, q))
  {
    var own := FunctionFact(k.name, k.qualifiedName);
    LastSymbolAppend(FunctionBindings(own), MethodsBindings(k.name, k.methods), q);
    LastOfFunction(own, q);
    LastOfMethods(k.name, k.methods, q);
  }

  ghost predicate SomeClassHides(classes: seq<ClassFact>, q: string) {
    exists i :: 0 <= i < |classes| && ClassHidesAt(classes, i, q)
  }

  lemma SomeClassHidesSnoc(front: seq<ClassFact>, k: ClassFact, q: string)
    ensures SomeClassHides(front + [k], q) <==>
            MethodHides(k.name, k.methods, q) || (SomeClassHides(front, q) && !ClassHasName(k, q))
  {
    var all, n := front + [k], |front|;
    assert all[n + 1..] == [];
    assert ClassHidesAt(all, n, q) <==> MethodHides(k.name, k.methods, q);
    forall i | 0 <= i < n ensures ClassHidesAt(all, i, q) <==> ClassHidesAt(front, i, q) && !ClassHasName(k, q) {
      assert all[i + 1..] == front[i + 1..] + [k];
    }
    if i :| 0 <= i < n && ClassHidesAt(front, i, q) && !ClassHasName(k, q) { assert ClassHidesAt(all, i, q); }
  }

  lemma {:induction false} LastOfClasses(classes: seq<ClassFact>, q: string)
    requires (forall k | k in classes :: '.' !in k.name && PlainNames(k.methods)) && '.' in q
    ensures var last := LastSymbol(ClassesBindings(classes), q);
            SomeClassHides(classes, q) <==> last.Some? && last.value != q
  {
    if classes != [] {
      var n := |classes| - 1;
      var front, k := classes[..n], classes[n];
      assert classes == front + [k];
      LastOfClasses(front, q);
      LastOfClass(k, q);
      LastSymbolAppend(ClassesBindings(front), ClassBindings(k), q);
      SomeClassHidesSnoc(front, k, q);
    }
  }

  /** A declared qualified name leads to its own symbol if and only if it is not hidden: no class has a method that
      takes it as `Class.method` for another symbol, after everything that is really called so. */
  lemma QualifiedNameFoundExactly(catalog: Catalog, m: ModuleFact, q: string)
    requires Catalogs(catalog, Bindings(m)) && WellNamed(m) && Declares(m, q) && '.' in q
    ensures q in catalog && (catalog[q] == q <==> !Hidden(m, q))
  {
    hide Bindings, ClassesBindings, FunctionsBindings, LastSymbol, SomeClassHides, Hidden, Latest;
    CatalogIsGrounded(catalog, m);
    LastSymbolOf(Bindings(m), q, catalog[q]);
    LastOfModule(m, q);
  }

  lemma LastOfModule(m: ModuleFact, q: string)
    requires WellNamed(m) && '.' in q
    ensures var last := LastSymbol(Bindings(m), q);
            last.Some? ==> (last.value == q <==> !Hidden(m, q))
  {
    LastSymbolAppend(FunctionsBindings(m.functions), ClassesBindings(m.classes), q);
    LastOfFunctions(m.functions, q);
    LastOfClasses(m.classes, q);
    assert Hidden(m, q) <==> SomeClassHides(m.classes, q);
  }

  /** For a function that no class or method shares its name with: found if and only if no class has a method that
      is `Class.method` under this name. */
  lemma FunctionNameFoundExactly(catalog: Catalog, m: ModuleFact, q: string)
    requires Catalogs(catalog, Bindings(m)) && WellNamed(m) && '.' in q && Declares(m, q)
    requires forall k | k in m.classes :: !ClassHasName(k, q)
    ensures catalog[q] == q <==> forall k, f | k in m.classes && f in k.methods :: k.name + "." + f.name != q
  {
    hide Bindings, Latest;
    QualifiedNameFoundExactly(catalog, m, q);
    if Hidden(m, q) {
      var i :| 0 <= i < |m.classes| && ClassHidesAt(m.classes, i, q);
      var k := m.classes[i];
      var j :| 0 <= j < |k.methods| && HidesAt(k.name, k.methods, j, q);
      assert k in m.classes && k.methods[j] in k.methods;
    }
    if k, f :| k in m.classes && f in k.methods && k.name + "." + f.name == q {
      HiddenByMethod(m, k, f, q);
    }
  }

  lemma HiddenByMethod(m: ModuleFact, k: ClassFact, f: FunctionFact, q: string)
    requires k in m.classes && f in k.methods && k.name + "." + f.name == q
    requires forall c | c in m.classes :: !ClassHasName(c, q)
    ensures Hidden(m, q)
  {
    var i :| 0 <= i < |m.classes| && m.classes[i] == k;
    var j :| 0 <= j < |k.methods| && k.methods[j] == f;
    assert !ClassHasName(k, q) && f.qualifiedName != q;
    HasNameTail(k.methods, j + 1, q);
    assert HidesAt(k.name, k.methods, j, q);
    assert ClassHidesAt(m.classes, i, q);
  }

  lemma HasNameTail(functions: seq<FunctionFact>, i: nat, q: string)
    requires i <= |functions|
    ensures HasName(functions[i..], q) ==> HasName(functions, q)
  {
    var tail := functions[i..];
    if j :| 0 <= j < |tail| && tail[j].qualifiedName == q { assert functions[i + j].qualifiedName == q; }
  }

  /** Module `m` with a function `f` and a class `m` that has a method `f`: the function cannot be found. */
  lemma FunctionHiddenByMethod(catalog: Catalog, m: ModuleFact)
    requires m.functions == [FunctionFact("f", "m.f")] && m.classes == [ClassFact("m", "m.m", "", [FunctionFact("f", "m.m.f")])]
    requires Catalogs(catalog, Bindings(m))
    ensures Declares(m, "m.f") && "m.f" in catalog && catalog["m.f"] == "m.m.f"
  {
    var f, k := FunctionFact("f", "m.f"), m.classes[0];
    assert FunctionsBindings(m.functions) == FunctionBindings(f);
    assert MethodsBindings("m", k.methods) == MethodBindings("m", k.methods[0]);
    assert ClassesBindings(m.classes) == ClassBindings(k);
    var all := Bindings(m);
    assert all[0] == Binding("m.f", "m.f");
    assert |all| == 7 && all[6] == Binding("m" + "." + "f", "m.m.f");
    assert "m" + "." + "f" == "m.f";
  }

  /** Module `m` with a class `A` and after it a class `m` that has a method `A`: the class cannot be found. */
  lemma ClassHiddenByMethod(catalog: Catalog, m: ModuleFact)
    requires m.functions == [] && m.classes == [ClassFact("A", "m.A", "", []), ClassFact("m", "m.m", "", [FunctionFact("A", "m.m.A")])]
    requires Catalogs(catalog, Bindings(m))
    ensures Declares(m, "m.A") && "m.A" in catalog && catalog["m.A"] == "m.m.A"
  {
    ClassHiddenBindings(m);
    hide Bindings;
    assert Bindings(m)[0] in Bindings(m);
  }

  lemma ClassHiddenBindings(m: ModuleFact)
    requires m.functions == [] && m.classes == [ClassFact("A", "m.A", "", []), ClassFact("m", "m.m", "", [FunctionFact("A", "m.m.A")])]
    ensures var all := Bindings(m); |all| == 7 && all[0] == Binding("m.A", "m.A") && all[6] == Binding("m.A", "m.m.A")
  {
    var a, k := m.classes[0], m.classes[1];
    assert m.classes[..1] == [a] && [a][..0] == [];
    assert ClassesBindings([a]) == ClassBindings(a);
    assert MethodsBindings("m", k.methods) == MethodBindings("m", k.methods[0]);
    assert ClassesBindings(m.classes) == ClassBindings(a) + ClassBindings(k);
    var all := Bindings(m);
    assert all[0] == Binding("m.A", "m.A");
    DottedA();
    assert |all| == 7 && all[6] == Binding("m" + "." + "A", "m.m.A");
  }

  lemma DottedA()
    ensures "m" + "." + "A" == "m.A"
  {
  }

  // ---------------------------------------------------------------- resolving symbols

  function LastPart(dotted: string): string {
    var parts := Split('.', dotted);
    parts[|parts| - 1]
  }

  /** The last part follows the last dot, if there is one. */
  lemma LastPartOf(dotted: string) returns (head: string)
    ensures '.' !in LastPart(dotted) && (dotted == LastPart(dotted) || dotted == head + "." + LastPart(dotted))
  {
    var parts := Split('.', dotted);
    JoinSplit('.', dotted);
    head := Join(".", parts[..|parts| - 1]);
    if |parts| > 1 {
      JoinConcat(".", parts[..|parts| - 1], [parts[|parts| - 1]]);
      assert parts == parts[..|parts| - 1] + [parts[|parts| - 1]];
    }
  }

  lemma LastPartAlone(last: string)
    requires '.' !in last
    ensures LastPart(last) == last
  {
    SplitWithout('.', last);
  }

  lemma {:induction false} LastPartAfter(head: string, last: string)
    requires '.' !in last
    ensures LastPart(head + "." + last) == last
  {
    var parts := Split('.', head) + [last];
    JoinSplit('.', head);
    JoinConcat(".", Split('.', head), [last]);
    SplitJoin('.', parts);
  }

  /** `".".join(value.split(".")[-2:])` */
  function LastTwoParts(dotted: string): string {
    var parts := Split('.', dotted);
    Join(".", if |parts| > 2 then parts[|parts| - 2..] else parts)
  }

  /** The last parts of a dotted name. */
  lemma PartsAreLast(parts: seq<string>)
    requires parts != [] && forall i | 0 <= i < |parts| :: '.' !in parts[i]
    ensures LastPart(Join(".", parts)) == parts[|parts| - 1]
    ensures |parts| >= 2 ==> LastTwoParts(Join(".", parts)) == parts[|parts| - 2] + "." + parts[|parts| - 1]
    ensures |parts| == 1 ==> LastTwoParts(Join(".", parts)) == parts[0]
  {
    hide *;
    SplitJoin('.', parts);
    var n := |parts|;
    if n == 1 {
      LastPartOfOne(Join(".", parts), parts);
    } else {
      LastPartsOfMore(Join(".", parts), parts);
    }
  }

  lemma LastPartOfOne(dotted: string, parts: seq<string>)
    requires |parts| == 1 && Split('.', dotted) == parts
    ensures LastPart(dotted) == LastTwoParts(dotted) == parts[0]
  {
    LastPartsUnfold(dotted, parts);
    hide *;
    assert parts[..] == [parts[0]];
    JoinedOne(parts[0]);
  }

  lemma LastPartsOfMore(dotted: string, parts: seq<string>)
    requires |parts| >= 2 && Split('.', dotted) == parts
    ensures LastPart(dotted) == parts[|parts| - 1] && LastTwoParts(dotted) == parts[|parts| - 2] + "." + parts[|parts| - 1]
  {
    LastPartsUnfold(dotted, parts);
    hide *;
    var n := |parts|;
    assert parts[n - 2..] == [parts[n - 2], parts[n - 1]];
    JoinedTwo(parts[n - 2], parts[n - 1]);
  }

  lemma LastPartsUnfold(dotted: string, parts: seq<string>)
    requires parts != [] && Split('.', dotted) == parts
    ensures LastPart(dotted) == parts[|parts| - 1]
    ensures LastTwoParts(dotted) == if |parts| >= 2 then Join(".", parts[|parts| - 2..]) else Join(".", parts[..])
  {
    hide Split, Join;
    assert parts[..] == parts && (|parts| == 2 ==> parts[0..] == parts);
  }

  lemma JoinedOne(x: string)
    ensures Join(".", [x]) == x
  {
  }

  lemma JoinedTwo(x: string, y: string)
    ensures Join(".", [x, y]) == x + "." + y
  {
    assert [x, y][1..] == [y];
  }

  /** What the catalog says of a name, of its last two parts, or of its last part. */
  function LookUp(value: string, catalog: Catalog): Option<string> {
    if value in catalog then Some(catalog[value])
    else if LastTwoParts(value) in catalog && catalog[LastTwoParts(value)] != "" then Some(catalog[LastTwoParts(value)])
    else if LastPart(value) in catalog then Some(catalog[LastPart(value)])
    else None
  }

  predicate EndsLike(known: string, value: string) { EndsWith(known, value) || EndsWith(known, LastTwoParts(value)) }

  /** The first of the two tests decides nothing: a name ends like a value if it ends in the last two parts of it. */
  lemma EndsLikeExactly(known: string, value: string)
    ensures EndsLike(known, value) <==> EndsWith(known, LastTwoParts(value))
  {
    var parts := Split('.', value);
    JoinSplit('.', value);
    hide Split, EndsWith;
    if |parts| > 2 {
      var n := |parts| - 2;
      assert parts == parts[..n] + parts[n..];
      JoinConcat(".", parts[..n], parts[n..]);
      EndsWithEnd(known, Join(".", parts[..n]) + ".", Join(".", parts[n..]));
    }
  }

  lemma EndsWithEnd(s: string, front: string, end: string)
    ensures EndsWith(s, front + end) ==> EndsWith(s, end)
  {
    if EndsWith(s, front + end) {
      var k := |s| - |front + end|;
      assert s[|s| - |end|..] == s[k..][|front|..];
    }
  }

  /** `symbol` is what a candidate can be resolved to; nothing is the empty string. */
  ghost predicate Resolves(candidate: string, catalog: Catalog, symbol: string) {
    var value := Strip(candidate);
    if value == "" then symbol == ""
    else
      match LookUp(value, catalog)
      case Some(found) => symbol == found
      case None => SearchMayFind(value, catalog, symbol)
  }

  /** Any symbol that ends like the name, or nothing when none does. */
  ghost predicate SearchMayFind(value: string, catalog: Catalog, symbol: string) {
    || (symbol in catalog.Values && EndsLike(symbol, value))
    || (symbol == "" && forall known | known in catalog.Values :: !EndsLike(known, value))
  }

  lemma ResolvedIsInCatalog(candidate: string, catalog: Catalog, symbol: string)
    requires Resolves(candidate, catalog, symbol)
    ensures symbol == "" || symbol in catalog.Values
  {
  }

  ghost predicate AllResolve(candidates: seq<string>, catalog: Catalog, choices: seq<string>) {
    |choices| == |candidates| && forall i | 0 <= i < |candidates| :: Resolves(candidates[i], catalog, choices[i])
  }

  /** The choices without the empty ones, each once. */
  function Found(choices: seq<string>): seq<string> { Dedupe(NonEmpty(choices)) }

  method ResolveSymbol(candidate: string, catalog: Catalog) returns (symbol: string)
    ensures Resolves(candidate, catalog, symbol)
  {
    var value := Strip(candidate);
    if value == "" { return ""; }
    match LookUp(value, catalog) {
      case Some(found) => return found;
      case None =>
    }
    var remaining := catalog.Values;
    while remaining != {}
      invariant remaining <= catalog.Values
      invariant forall known | known in catalog.Values && known !in remaining :: !EndsLike(known, value)
    {
      var known :| known in remaining;
      if EndsLike(known, value) { return known; }
      remaining := remaining - {known};
    }
    return "";
  }

  lemma {:induction false} NonEmptySnoc(parts: seq<string>, part: string)
    ensures NonEmpty(parts + [part]) == NonEmpty(parts) + if part == "" then [] else [part]
  {
    if parts == [] {
      assert [part][1..] == [];
    } else {
      NonEmptySnoc(parts[1..], part);
      assert (parts + [part])[1..] == parts[1..] + [part];
    }
  }

  lemma FoundSnoc(choices: seq<string>, choice: string)
    ensures Found(choices + [choice]) == AddNew(Found(choices), choice)
  {
    NonEmptySnoc(choices, choice);
    var kept := NonEmpty(choices);
    if choice == "" {
      assert kept + [] == kept;
    } else {
      assert (kept + [choice])[..|kept|] == kept;
    }
  }

  /** `_canonicalize_symbols`; `choices` is what each candidate was resolved to. */
  method CanonicalizeSymbols(candidates: seq<string>, catalog: Catalog) returns (resolved: seq<string>, ghost choices: seq<string>)
    ensures AllResolve(candidates, catalog, choices)
    ensures resolved == Found(choices)
    ensures Distinct(resolved) && forall q | q in resolved :: q in catalog.Values
  {
    resolved, choices := [], [];
    for i := 0 to |candidates|
      invariant AllResolve(candidates[..i], catalog, choices)
      invariant resolved == Found(choices)
    {
      var symbol := ResolveSymbol(candidates[i], catalog);
      FoundSnoc(choices, symbol);
      OneMoreResolves(candidates, catalog, choices, i, symbol);
      choices := choices + [symbol];
      resolved := AddNew(resolved, symbol);
    }
    assert candidates[..|candidates|] == candidates;
    FoundInCatalog(candidates, catalog, choices);
  }

  lemma FoundInCatalog(candidates: seq<string>, catalog: Catalog, choices: seq<string>)
    requires AllResolve(candidates, catalog, choices)
    ensures forall q | q in Found(choices) :: q != "" && q in catalog.Values
  {
    forall q | q in Found(choices) ensures q in catalog.Values {
      var i :| 0 <= i < |choices| && choices[i] == q;
      ResolvedIsInCatalog(candidates[i], catalog, choices[i]);
    }
  }

  /** Append a name unless it is empty or there. */
  function AddNew(resolved: seq<string>, name: string): seq<string> {
    if name == "" || name in resolved then resolved else resolved + [name]
  }

  lemma OneMoreResolves(candidates: seq<string>, catalog: Catalog, choices: seq<string>, i: nat, symbol: string)
    requires i < |candidates| && AllResolve(candidates[..i], catalog, choices) && Resolves(candidates[i], catalog, symbol)
    ensures AllResolve(candidates[..i + 1], catalog, choices + [symbol])
  {
    var cs, all := candidates[..i + 1], choices + [symbol];
    forall j | 0 <= j <= i ensures Resolves(cs[j], catalog, all[j]) {
      if j < i { assert Resolves(candidates[..i][j], catalog, choices[j]); }
    }
  }

  /** Whatever the search found, every resolved name is a declared symbol, listed once. */
  lemma ResolvedAreDeclared(candidates: seq<string>, catalog: Catalog, choices: seq<string>, m: ModuleFact)
    requires Catalogs(catalog, Bindings(m)) && AllResolve(candidates, catalog, choices)
    ensures Distinct(Found(choices)) && |Found(choices)| <= |candidates|
    ensures forall q | q in Found(choices) :: q != "" && Declares(m, q)
  {
    CatalogIsGrounded(catalog, m);
    FoundInCatalog(candidates, catalog, choices);
    FoundIsNoLonger(choices);
  }

  /** A candidate that is a known name is never dropped, and means what the catalog says. */
  lemma KnownNamesStay(candidates: seq<string>, catalog: Catalog, choices: seq<string>, i: nat)
    requires AllResolve(candidates, catalog, choices) && i < |candidates|
    requires var value := Strip(candidates[i]); value != "" && value in catalog && catalog[value] != ""
    ensures catalog[Strip(candidates[i])] in Found(choices)
  {
    assert Resolves(candidates[i], catalog, choices[i]);
    assert choices[i] in choices;
  }

  lemma {:induction false} FoundIsNoLonger(choices: seq<string>)
    ensures |Found(choices)| <= |choices|
  {
    if choices != [] {
      var front, last := choices[..|choices| - 1], choices[|choices| - 1];
      assert choices == front + [last];
      FoundIsNoLonger(front);
      FoundSnoc(front, last);
    }
  }

  // ---------------------------------------------------------------- resolving dependencies

  function FirstMatch(value: string, available: seq<string>): (r: string)
    ensures r == "" || r in available
  {
    if available == [] then ""
    else if EndsWith(available[0], value) || EndsWith(available[0], LastPart(value)) then available[0]
    else FirstMatch(value, available[1..])
  }

  /** The match is the first import that ends in the last part of the value; `i` is its place. */
  lemma {:induction false} FirstMatchExactly(value: string, available: seq<string>) returns (i: nat)
    ensures i <= |available| && FirstMatch(value, available) == if i < |available| then available[i] else ""
    ensures i < |available| ==> EndsWith(available[i], LastPart(value))
    ensures forall j | 0 <= j < i :: !EndsWith(available[j], LastPart(value))
  {
    if available == [] { return 0; }
    hide EndsWith, LastPart;
    EndsInLastPart(available[0], value);
    if EndsWith(available[0], LastPart(value)) { return 0; }
    i := FirstMatchExactly(value, available[1..]);
    i := i + 1;
  }

  lemma EndsInLastPart(s: string, value: string)
    ensures EndsWith(s, value) ==> EndsWith(s, LastPart(value))
  {
    var head := LastPartOf(value);
    hide EndsWith, LastPart;
    if value == head + "." + LastPart(value) { EndsWithEnd(s, head + ".", LastPart(value)); }
  }

  /** The import a candidate stands for, or nothing. */
  function DependencyOf(candidate: string, available: seq<string>): (r: string)
    ensures r == "" || r in available
  {
    var value := Strip(candidate);
    if value == "" then "" else if value in available then value else FirstMatch(value, available)
  }

  function DependenciesOf(candidates: seq<string>, available: seq<string>): seq<string> {
    seq(|candidates|, i requires 0 <= i < |candidates| => DependencyOf(candidates[i], available))
  }

  method FindImport(value: string, available: seq<string>) returns (found: string)
    ensures found == FirstMatch(value, available)
  {
    for i := 0 to |available|
      invariant FirstMatch(value, available) == FirstMatch(value, available[i..])
    {
      if EndsWith(available[i], value) || EndsWith(available[i], LastPart(value)) { return available[i]; }
    }
    return "";
  }

  lemma OneMoreDependency(candidates: seq<string>, available: seq<string>, i: nat)
    requires i < |candidates|
    ensures Found(DependenciesOf(candidates[..i + 1], available))
         == AddNew(Found(DependenciesOf(candidates[..i], available)), DependencyOf(candidates[i], available))
  {
    hide DependencyOf, Found, AddNew;
    var choices, last := DependenciesOf(candidates[..i], available), DependencyOf(candidates[i], available);
    assert DependenciesOf(candidates[..i + 1], available) == choices + [last];
    FoundSnoc(choices, last);
  }

  /** `_canonicalize_dependencies` */
  method CanonicalizeDependencies(candidates: seq<string>, imports: seq<string>) returns (resolved: seq<string>)
    ensures resolved == Found(DependenciesOf(candidates, Dedupe(imports)))
  {
    var available := Dedupe(imports);
    resolved := [];
    for i := 0 to |candidates|
      invariant resolved == Found(DependenciesOf(candidates[..i], available))
    {
      var value := Strip(candidates[i]);
      if value != "" {
        var canonical := value;
        if value !in available { canonical := FindImport(value, available); }
        resolved := AddNew(resolved, canonical);
      }
      OneMoreDependency(candidates, available, i);
    }
    assert candidates[..|candidates|] == candidates;
  }

  /** Every resolved dependency is an import, listed once, and a candidate that is an import stays. */
  lemma DependenciesAreImports(candidates: seq<string>, imports: seq<string>)
    ensures var resolved := Found(DependenciesOf(candidates, Dedupe(imports)));
            && Distinct(resolved) && |resolved| <= |candidates|
            && (forall d | d in resolved :: d != "" && d in imports)
            && (forall c | c in candidates && Strip(c) in imports && Strip(c) != "" :: Strip(c) in resolved)
  {
    var choices := DependenciesOf(candidates, Dedupe(imports));
    FoundIsNoLonger(choices);
    forall c | c in candidates && Strip(c) in imports && Strip(c) != "" ensures Strip(c) in Found(choices) {
      var i :| 0 <= i < |candidates| && candidates[i] == c;
      assert choices[i] == Strip(c);
    }
  }
}
