/**
 The public symbols of a module: its top-level names ranked by a score, cut down to the ones a model named,
 completed with entrypoints, and at most five.
 */
module PublicSurface {
  import PurposeText
  import opened PyText
  import opened SymbolCatalog

  // ---------------------------------------------------------------- ranking

  datatype Ranked = Ranked(score: int, name: string)

  /** `a` comes before `b` in a list of `(score, name)` sorted in reverse. */
  predicate Before(a: Ranked, b: Ranked) { a.score > b.score || (a.score == b.score && StrLeq(b.name, a.name)) }

  ghost predicate InOrder(s: seq<Ranked>) { forall i, j :: 0 <= i < j < |s| ==> Before(s[i], s[j]) }

  lemma BeforeIsTotal(a: Ranked, b: Ranked)
    ensures Before(a, b) || Before(b, a)
    ensures Before(a, b) && Before(b, a) ==> a == b
  {
    StrLeqTotal(a.name, b.name);
  }

  lemma BeforeIsTransitive(a: Ranked, b: Ranked, c: Ranked)
    requires Before(a, b) && Before(b, c)
    ensures Before(a, c)
  {
    if a.score == b.score == c.score { StrLeqTransitive(c.name, b.name, a.name); }
  }

  function Insert(x: Ranked, s: seq<Ranked>): seq<Ranked> {
    if s == [] then [x] else if Before(x, s[0]) then [x] + s else [s[0]] + Insert(x, s[1..])
  }

  /** `sorted(s, reverse=True)` on pairs of score and name. */
  function Ranking(s: seq<Ranked>): seq<Ranked> {
    if s == [] then [] else Insert(s[0], Ranking(s[1..]))
  }

  lemma {:induction false} InsertContents(x: Ranked, s: seq<Ranked>)
    ensures multiset(Insert(x, s)) == multiset([x] + s)
  {
    if s != [] {
      assert s == [s[0]] + s[1..];
      InsertContents(x, s[1..]);
    }
  }

  lemma {:induction false} InsertKeepsOrder(x: Ranked, s: seq<Ranked>)
    requires InOrder(s)
    ensures InOrder(Insert(x, s))
  {
    if s == [] {
    } else if Before(x, s[0]) {
      forall i | 0 <= i < |s| ensures Before(x, s[i]) {
        if i > 0 { BeforeIsTransitive(x, s[0], s[i]); }
      }
    } else {
      BeforeIsTotal(x, s[0]);
      var rest := Insert(x, s[1..]);
      InsertKeepsOrder(x, s[1..]);
      InsertContents(x, s[1..]);
      forall i | 0 <= i < |rest| ensures Before(s[0], rest[i]) {
        assert rest[i] in multiset(rest);
        assert rest[i] in multiset([x] + s[1..]);
      }
    }
  }

  lemma {:induction false} RankingSorts(s: seq<Ranked>)
    ensures multiset(Ranking(s)) == multiset(s) && InOrder(Ranking(s))
    ensures forall x :: x in Ranking(s) <==> x in s
  {
    if s != [] {
      assert s == [s[0]] + s[1..];
      RankingSorts(s[1..]);
      InsertContents(s[0], Ranking(s[1..]));
      InsertKeepsOrder(s[0], Ranking(s[1..]));
    }
    forall x ensures x in Ranking(s) <==> x in s {
      assert x in multiset(Ranking(s)) <==> x in multiset(s);
    }
  }

  // ---------------------------------------------------------------- scores

  predicate IsPrivate(name: string) { name != "" && name[0] == '_' }

  function PublicMethods(methods: seq<FunctionFact>): nat {
    if methods == [] then 0 else (if IsPrivate(methods[0].name) then 0 else 1) + PublicMethods(methods[1..])
  }

  predicate HasSummary(k: ClassFact) { PurposeText.FirstSentence(k.docstring) != "" }

  predicate IsSubstantial(k: ClassFact) { PublicMethods(k.methods) > 0 || |k.methods| >= 2 || HasSummary(k) }

  predicate HasSubstantialClass(m: ModuleFact) {
    exists i | 0 <= i < |m.classes| :: !IsPrivate(m.classes[i].name) && IsSubstantial(m.classes[i])
  }

  const HELPER_SUFFIXES := ["status", "code", "reason", "result", "response", "request", "event", "payload", "config", "report"]

  predicate EndsLikeHelper(name: string) {
    exists i | 0 <= i < |HELPER_SUFFIXES| :: EndsWith(PurposeText.Lower(name), HELPER_SUFFIXES[i])
  }

  function ClassScore(k: ClassFact, substantialElsewhere: bool): int {
    var public := PublicMethods(k.methods);
    50 + public * 10 + |k.methods|
    + (if HasSummary(k) then 15 else 0)
    - (if "mock" <= PurposeText.Lower(k.name) then 100 else 0)
    - (if substantialElsewhere && public == 0 && |k.methods| <= 1 then 40 else 0)
    - (if substantialElsewhere && EndsLikeHelper(k.name) then 25 else 0)
  }

  const ENTRYPOINT_NAMES := ["main", "app", "cli", "run", "serve", "start"]

  predicate IsEntrypoint(qualifiedName: string) { LastPart(qualifiedName) in ENTRYPOINT_NAMES }

  function FunctionScore(f: FunctionFact): int { if IsEntrypoint(f.qualifiedName) then 50 else 30 }

  function PublicClasses(classes: seq<ClassFact>, substantial: bool): seq<Ranked> {
    if classes == [] then []
    else
      var k := classes[0];
      (if IsPrivate(k.name) then [] else [Ranked(ClassScore(k, substantial), k.qualifiedName)]) + PublicClasses(classes[1..], substantial)
  }

  function PublicFunctions(functions: seq<FunctionFact>): seq<Ranked> {
    if functions == [] then []
    else
      var f := functions[0];
      (if IsPrivate(f.name) then [] else [Ranked(FunctionScore(f), f.qualifiedName)]) + PublicFunctions(functions[1..])
  }

  /** The names with a positive score; functions always have one. */
  function Names(ranking: seq<Ranked>): (r: seq<string>)
    ensures forall q :: q in r <==> exists x | x in ranking :: x.score > 0 && x.name == q
  {
    if ranking == [] then []
    else
      assert ranking == [ranking[0]] + ranking[1..];
      (if ranking[0].score > 0 then [ranking[0].name] else []) + Names(ranking[1..])
  }

  function RankedClasses(m: ModuleFact): seq<string> { Names(Ranking(PublicClasses(m.classes, HasSubstantialClass(m)))) }

  function RankedFunctions(m: ModuleFact): seq<string> { Names(Ranking(PublicFunctions(m.functions))) }

  /** Classes before functions, each by score and name. */
  function RankedNames(m: ModuleFact): seq<string> { RankedClasses(m) + RankedFunctions(m) }

  // ---------------------------------------------------------------- choosing

  const MAX_PUBLIC_SYMBOLS := 5

  function Take<T>(n: nat, s: seq<T>): seq<T> { if |s| <= n then s else s[..n] }

  /** The names that are wanted, each once. */
  function Wanted(names: seq<string>, candidates: seq<string>): seq<string> {
    if names == [] then []
    else
      var front := Wanted(names[..|names| - 1], candidates);
      var q := names[|names| - 1];
      if q in candidates && q !in front then front + [q] else front
  }

  /** Entrypoints are appended while there is room. */
  function WithEntrypoints(chosen: seq<string>, functions: seq<string>): seq<string> {
    if functions == [] then chosen
    else
      var before := WithEntrypoints(chosen, functions[..|functions| - 1]);
      var q := functions[|functions| - 1];
      if |before| < MAX_PUBLIC_SYMBOLS && IsEntrypoint(q) && q !in before then before + [q] else before
  }

  function Chosen(m: ModuleFact, candidates: seq<string>): seq<string> {
    var wanted := Wanted(RankedNames(m), candidates);
    if IsEntrypoint(m.modulePath) then WithEntrypoints(wanted, RankedFunctions(m)) else wanted
  }

  function Surface(m: ModuleFact, candidates: seq<string>): seq<string> {
    Take(MAX_PUBLIC_SYMBOLS, if Chosen(m, candidates) != [] then Chosen(m, candidates) else RankedNames(m))
  }

  method AppendWanted(canonical: seq<string>, names: seq<string>, candidates: seq<string>, ghost before: seq<string>)
    returns (r: seq<string>)
    requires canonical == Wanted(before, candidates)
    ensures r == Wanted(before + names, candidates)
  {
    r := canonical;
    assert before + names[..0] == before;
    for i := 0 to |names|
      invariant r == Wanted(before + names[..i], candidates)
    {
      assert (before + names[..i + 1])[..|before| + i] == before + names[..i];
      if names[i] in candidates && names[i] !in r { r := r + [names[i]]; }
    }
    assert names[..|names|] == names;
  }

  method AppendEntrypoints(canonical: seq<string>, functions: seq<string>) returns (r: seq<string>)
    ensures r == WithEntrypoints(canonical, functions)
  {
    r := canonical;
    for i := 0 to |functions|
      invariant r == WithEntrypoints(canonical, functions[..i])
    {
      assert functions[..i + 1][..i] == functions[..i];
      if |r| >= MAX_PUBLIC_SYMBOLS {
        FullStays(canonical, functions, i);
        break;
      }
      if IsEntrypoint(functions[i]) && functions[i] !in r { r := r + [functions[i]]; }
    }
    assert functions[..|functions|] == functions;
  }

  lemma {:induction false} FullStays(chosen: seq<string>, functions: seq<string>, i: nat)
    requires i <= |functions| && |WithEntrypoints(chosen, functions[..i])| >= MAX_PUBLIC_SYMBOLS
    ensures WithEntrypoints(chosen, functions) == WithEntrypoints(chosen, functions[..i])
    decreases |functions|
  {
    if i == |functions| {
      assert functions[..i] == functions;
    } else {
      var front := functions[..|functions| - 1];
      assert front[..i] == functions[..i];
      FullStays(chosen, front, i);
    }
  }

  /** `_canonical_public_symbols` */
  method CanonicalPublicSymbols(m: ModuleFact, candidates: seq<string>) returns (r: seq<string>)
    ensures r == Surface(m, candidates)
  {
    var classes, functions := RankedClasses(m), RankedFunctions(m);
    var canonical := AppendWanted([], classes, candidates, []);
    assert [] + classes == classes;
    canonical := AppendWanted(canonical, functions, candidates, classes);
    if IsEntrypoint(m.modulePath) { canonical := AppendEntrypoints(canonical, functions); }
    if canonical != [] {
      r := Take(MAX_PUBLIC_SYMBOLS, canonical);
    } else {
      r := Take(MAX_PUBLIC_SYMBOLS, classes + functions);
    }
  }

  // ---------------------------------------------------------------- what the surface is

  ghost predicate PublicFunction(f: FunctionFact, q: string) { !IsPrivate(f.name) && f.qualifiedName == q }

  ghost predicate PublicClass(k: ClassFact, q: string) { !IsPrivate(k.name) && k.qualifiedName == q }

  /** A top-level function or class whose name does not start with an underscore. */
  ghost predicate TopLevelPublic(m: ModuleFact, q: string) {
    (exists f | f in m.functions :: PublicFunction(f, q)) || (exists k | k in m.classes :: PublicClass(k, q))
  }

  lemma {:induction false} PublicClassesAre(classes: seq<ClassFact>, substantial: bool, x: Ranked)
    ensures x in PublicClasses(classes, substantial)
       <==> exists k | k in classes :: !IsPrivate(k.name) && x == Ranked(ClassScore(k, substantial), k.qualifiedName)
  {
    if classes != [] {
      assert classes == [classes[0]] + classes[1..];
      PublicClassesAre(classes[1..], substantial, x);
    }
  }

  lemma {:induction false} PublicFunctionsAre(functions: seq<FunctionFact>, x: Ranked)
    ensures x in PublicFunctions(functions)
       <==> exists f | f in functions :: !IsPrivate(f.name) && x == Ranked(FunctionScore(f), f.qualifiedName)
  {
    if functions != [] {
      assert functions == [functions[0]] + functions[1..];
      PublicFunctionsAre(functions[1..], x);
    }
  }

  lemma RankingNames(s: seq<Ranked>, q: string)
    ensures q in Names(Ranking(s)) <==> exists x | x in s :: x.score > 0 && x.name == q
  {
    RankingSorts(s);
    var names := Names(Ranking(s));
    if q in names {
      var x :| x in Ranking(s) && x.score > 0 && x.name == q;
      assert x in s;
    }
    if x :| x in s && x.score > 0 && x.name == q { assert x in Ranking(s); }
  }

  /** Exactly the public functions are ranked. */
  lemma RankedFunctionsExactly(m: ModuleFact, q: string)
    ensures q in RankedFunctions(m) <==> exists f | f in m.functions :: PublicFunction(f, q)
  {
    var functions := PublicFunctions(m.functions);
    RankingNames(functions, q);
    if x :| x in functions && x.score > 0 && x.name == q {
      PublicFunctionsAre(m.functions, x);
      var f :| f in m.functions && !IsPrivate(f.name) && x == Ranked(FunctionScore(f), f.qualifiedName);
      assert PublicFunction(f, q);
    }
    if f :| f in m.functions && PublicFunction(f, q) {
      PublicFunctionsAre(m.functions, Ranked(FunctionScore(f), q));
      assert Ranked(FunctionScore(f), q) in functions;
    }
  }

  /** Exactly the public classes with a positive score are ranked. */
  lemma RankedClassesExactly(m: ModuleFact, q: string)
    ensures q in RankedClasses(m)
       <==> exists k | k in m.classes :: PublicClass(k, q) && ClassScore(k, HasSubstantialClass(m)) > 0
  {
    var substantial := HasSubstantialClass(m);
    var classes := PublicClasses(m.classes, substantial);
    RankingNames(classes, q);
    if x :| x in classes && x.score > 0 && x.name == q {
      PublicClassesAre(m.classes, substantial, x);
      var k :| k in m.classes && !IsPrivate(k.name) && x == Ranked(ClassScore(k, substantial), k.qualifiedName);
      assert PublicClass(k, q);
    }
    if k :| k in m.classes && PublicClass(k, q) && ClassScore(k, substantial) > 0 {
      PublicClassesAre(m.classes, substantial, Ranked(ClassScore(k, substantial), q));
      assert Ranked(ClassScore(k, substantial), q) in classes;
    }
  }

  // ---------------------------------------------------------------- what the scores mean

  lemma {:induction false} NamesOfPositive(ranking: seq<Ranked>)
    requires forall x | x in ranking :: x.score > 0
    ensures |Names(ranking)| == |ranking| && forall i | 0 <= i < |ranking| :: Names(ranking)[i] == ranking[i].name
  {
    if ranking != [] {
      assert ranking[0] in ranking;
      NamesOfPositive(ranking[1..]);
    }
  }

  /** The last dotted part is one of the six names of entrypoints. */
  ghost predicate NamedLikeEntrypoint(q: string) { exists head, last :: EntrypointBehind(q, head, last) }

  ghost predicate EntrypointBehind(q: string, head: string, last: string) {
    && (last == "main" || last == "app" || last == "cli" || last == "run" || last == "serve" || last == "start")
    && (q == last || q == head + "." + last)
  }

  lemma EntrypointsExactly(q: string)
    ensures IsEntrypoint(q) <==> NamedLikeEntrypoint(q)
  {
    if IsEntrypoint(q) {
      var last := LastPart(q);
      var head := LastPartOf(q);
      assert EntrypointBehind(q, head, last);
    }
    if NamedLikeEntrypoint(q) {
      var head, last :| EntrypointBehind(q, head, last);
      NoDots(last);
      if q == last { LastPartAlone(last); } else { LastPartAfter(head, last); }
    }
  }

  lemma NoDots(last: string)
    requires last == "main" || last == "app" || last == "cli" || last == "run" || last == "serve" || last == "start"
    ensures '.' !in last && last in ENTRYPOINT_NAMES
  {
    assert forall i | 0 <= i < |last| :: 'a' <= last[i] <= 'z';
  }

  /** Functions named like an entrypoint come before the others; among equals, names fall. */
  lemma FunctionsInOrder(m: ModuleFact, i: nat, j: nat)
    requires i < j < |RankedFunctions(m)|
    ensures var a, b := RankedFunctions(m)[i], RankedFunctions(m)[j];
            (IsEntrypoint(a) && !IsEntrypoint(b)) || (IsEntrypoint(a) == IsEntrypoint(b) && StrLeq(b, a))
  {
    var functions := PublicFunctions(m.functions);
    RankingSorts(functions);
    forall x | x in Ranking(functions) ensures x.score == if IsEntrypoint(x.name) then 50 else 30 {
      assert x in functions;
      PublicFunctionsAre(m.functions, x);
    }
    hide IsEntrypoint, PublicFunctions, Ranking;
    NamesOfPositive(Ranking(functions));
    var x, y := Ranking(functions)[i], Ranking(functions)[j];
    assert x in Ranking(functions) && y in Ranking(functions) && Before(x, y);
  }

  /** The methods without a leading underscore. */
  ghost function PublicMethodIndices(methods: seq<FunctionFact>): set<nat> {
    set i: nat | i < |methods| && (methods[i].name == "" || methods[i].name[0] != '_')
  }

  lemma {:induction false} PublicMethodSnoc(methods: seq<FunctionFact>, f: FunctionFact)
    ensures PublicMethods(methods + [f]) == PublicMethods(methods) + if IsPrivate(f.name) then 0 else 1
  {
    if methods != [] {
      assert (methods + [f])[1..] == methods[1..] + [f];
      PublicMethodSnoc(methods[1..], f);
    }
  }

  lemma {:induction false} PublicMethodsAreIndices(methods: seq<FunctionFact>)
    ensures PublicMethods(methods) == |PublicMethodIndices(methods)| <= |methods|
  {
    if methods != [] {
      var n := |methods| - 1;
      PublicMethodsAreIndices(methods[..n]);
      PublicMethodSnoc(methods[..n], methods[n]);
      assert methods == methods[..n] + [methods[n]];
      assert PublicMethodIndices(methods) == PublicMethodIndices(methods[..n]) + if IsPrivate(methods[n].name) then {} else {n};
    }
  }

  /** A class counts as substantial with a public method, with two methods of any kind, or with a docstring that has a
      first sentence; one such class with a public name is enough. */
  lemma SubstantialExactly(m: ModuleFact)
    ensures HasSubstantialClass(m) <==>
            exists k :: && k in m.classes && (k.name == "" || k.name[0] != '_')
                        && (PublicMethodIndices(k.methods) != {} || |k.methods| >= 2 || PurposeText.FirstSentence(k.docstring) != "")
  {
    hide PurposeText.FirstSentence;
    forall k: ClassFact ensures IsSubstantial(k) <==>
              PublicMethodIndices(k.methods) != {} || |k.methods| >= 2 || PurposeText.FirstSentence(k.docstring) != ""
    {
      PublicMethodsAreIndices(k.methods);
    }
    hide IsSubstantial;
    if HasSubstantialClass(m) {
      var i :| 0 <= i < |m.classes| && !IsPrivate(m.classes[i].name) && IsSubstantial(m.classes[i]);
      assert m.classes[i] in m.classes;
    }
  }

  /** The ten endings of helper names, in any letter case. */
  lemma HelperEndings(name: string)
    ensures var l := PurposeText.Lower(name);
            EndsLikeHelper(name) <==>
              || EndsWith(l, "status") || EndsWith(l, "code") || EndsWith(l, "reason") || EndsWith(l, "result")
              || EndsWith(l, "response") || EndsWith(l, "request") || EndsWith(l, "event") || EndsWith(l, "payload")
              || EndsWith(l, "config") || EndsWith(l, "report")
  {
    var l := PurposeText.Lower(name);
    hide EndsWith, PurposeText.Lower;
    forall i: nat | i < 10 ensures HELPER_SUFFIXES[i] ==
        ["status", "code", "reason", "result", "response", "request", "event", "payload", "config", "report"][i] {}
    if EndsWith(l, "status") { assert EndsWith(l, HELPER_SUFFIXES[0]); }
    if EndsWith(l, "code") { assert EndsWith(l, HELPER_SUFFIXES[1]); }
    if EndsWith(l, "reason") { assert EndsWith(l, HELPER_SUFFIXES[2]); }
    if EndsWith(l, "result") { assert EndsWith(l, HELPER_SUFFIXES[3]); }
    if EndsWith(l, "response") { assert EndsWith(l, HELPER_SUFFIXES[4]); }
    if EndsWith(l, "request") { assert EndsWith(l, HELPER_SUFFIXES[5]); }
    if EndsWith(l, "event") { assert EndsWith(l, HELPER_SUFFIXES[6]); }
    if EndsWith(l, "payload") { assert EndsWith(l, HELPER_SUFFIXES[7]); }
    if EndsWith(l, "config") { assert EndsWith(l, HELPER_SUFFIXES[8]); }
    if EndsWith(l, "report") { assert EndsWith(l, HELPER_SUFFIXES[9]); }
  }

  ghost predicate LooksLikeMock(k: ClassFact) { "mock" <= PurposeText.Lower(k.name) }

  /** Without a "mock" name, a class is left out of the ranking exactly when there is a substantial one, it is named
      like a helper, and it has no public method and not both a method and a docstring. With a "mock" name it needs
      enough methods to stay. */
  lemma LeftOutExactly(k: ClassFact, substantialElsewhere: bool)
    ensures var public, all := |PublicMethodIndices(k.methods)|, |k.methods|;
            var summary := if HasSummary(k) then 15 else 0;
            if !LooksLikeMock(k) then
              ClassScore(k, substantialElsewhere) <= 0 <==>
                substantialElsewhere && EndsLikeHelper(k.name) && public == 0 && (all == 0 || (all == 1 && !HasSummary(k)))
            else
              ClassScore(k, substantialElsewhere) <= 0 <==>
                10 * public + all + summary <= 50 + (if substantialElsewhere && EndsLikeHelper(k.name) then 25 else 0)
  {
    PublicMethodsAreIndices(k.methods);
    hide EndsLikeHelper, HasSummary, PublicMethods;
  }

  /** A further method, public or not, makes a class rank higher; next to a substantial class, its second method or
      first public one matters most. A docstring is worth more than one public method and less than two. */
  lemma MethodsAndDocstringsCount(k: ClassFact, f: FunctionFact, substantialElsewhere: bool)
    ensures var more := k.(methods := k.methods + [f]);
            var gain := ClassScore(more, substantialElsewhere) - ClassScore(k, substantialElsewhere);
            var thin := PublicMethodIndices(k.methods) == {} && |k.methods| <= 1;
            var stillThin := thin && IsPrivate(f.name) && k.methods == [];
            gain == (if IsPrivate(f.name) then 1 else 11) + (if substantialElsewhere && thin && !stillThin then 40 else 0)
    ensures forall text | !HasSummary(k) && HasSummary(k.(docstring := text)) ::
              ClassScore(k.(docstring := text), substantialElsewhere) == ClassScore(k, substantialElsewhere) + 15
  {
    PublicMethodSnoc(k.methods, f);
    PublicMethodsAreIndices(k.methods);
    hide EndsLikeHelper, PublicMethods, PurposeText.FirstSentence;
  }

  lemma RankedArePublic(m: ModuleFact)
    ensures forall q | q in RankedNames(m) :: TopLevelPublic(m, q)
  {
    forall q | q in RankedNames(m) ensures TopLevelPublic(m, q) {
      RankedFunctionsExactly(m, q);
      RankedClassesExactly(m, q);
    }
  }

  lemma {:induction false} WantedAre(names: seq<string>, candidates: seq<string>)
    ensures forall q :: q in Wanted(names, candidates) <==> q in names && q in candidates
    ensures Distinct(Wanted(names, candidates))
  {
    if names != [] {
      assert names == names[..|names| - 1] + [names[|names| - 1]];
      WantedAre(names[..|names| - 1], candidates);
    }
  }

  lemma {:induction false} EntrypointsAdded(chosen: seq<string>, functions: seq<string>)
    ensures chosen <= WithEntrypoints(chosen, functions)
    ensures forall q | q in WithEntrypoints(chosen, functions) && q !in chosen :: q in functions && IsEntrypoint(q)
    ensures Distinct(chosen) ==> Distinct(WithEntrypoints(chosen, functions))
  {
    if functions != [] {
      assert functions == functions[..|functions| - 1] + [functions[|functions| - 1]];
      EntrypointsAdded(chosen, functions[..|functions| - 1]);
    }
  }

  /** At most five top-level public names; when the model named one of them, only names it gave (the best ranked
      first) and, in an entrypoint module, entrypoints; nothing exactly when the module has no ranked name. */
  lemma SurfaceIsPublic(m: ModuleFact, candidates: seq<string>)
    ensures var r := Surface(m, candidates);
            && |r| <= 5
            && (forall q | q in r :: TopLevelPublic(m, q))
            && (r == [] <==> RankedNames(m) == [])
    ensures (exists q :: q in RankedNames(m) && q in candidates) ==>
              var r := Surface(m, candidates);
              && Distinct(r)
              && Take(MAX_PUBLIC_SYMBOLS, Wanted(RankedNames(m), candidates)) <= r
              && (forall q | q in r && q !in candidates :: IsEntrypoint(m.modulePath) && IsEntrypoint(q))
  {
    hide RankedClasses, RankedFunctions, Wanted, WithEntrypoints, IsEntrypoint, TopLevelPublic;
    RankedArePublic(m);
    var wanted := Wanted(RankedNames(m), candidates);
    WantedAre(RankedNames(m), candidates);
    EntrypointsAdded(wanted, RankedFunctions(m));
    if q :| q in RankedNames(m) && q in candidates { assert q in wanted; }
    if Chosen(m, candidates) != [] { assert Chosen(m, candidates)[0] in Chosen(m, candidates); }
  }
}
