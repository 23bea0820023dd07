/**
 The AST visitor that records functions, classes and module-level names. It is a mutable traversal with a
 stack of open classes and a function depth; what it leaves behind is given by three pure recursions.
 */
module Scanner {
  import opened PyText

  // ---------------------------------------------------------------- syntax trees and facts

  /** `children` is what `generic_visit` walks, in field order. The targets of an assignment are its first
      children: as many as it has for `Assign`, one for `AnnAssign`. */
  datatype Node =
    | ClassDef(name: string, children: seq<Node>)
    | FunctionDef(name: string, isAsync: bool, children: seq<Node>)
    | Assign(targetCount: nat, children: seq<Node>)
    | AnnAssign(children: seq<Node>)
    | Name(id: string)
    | Other(children: seq<Node>)

  function Targets(n: Node): seq<Node>
    requires n.Assign? || n.AnnAssign?
  {
    var count := if n.AnnAssign? then 1 else n.targetCount;
    if count <= |n.children| then n.children[..count] else n.children
  }

  datatype FunctionFact = FunctionFact(name: string, qualifiedName: string, isAsync: bool)

  datatype ClassRecord = ClassRecord(name: string, qualifiedName: string, methods: seq<FunctionFact>)

  /** The fact object shared by the visitor's list of classes and its stack of open ones. */
  class ClassFact {
    const name: string
    const qualifiedName: string
    var methods: seq<FunctionFact>

    constructor (name: string, qualifiedName: string)
      ensures Record() == ClassRecord(name, qualifiedName, [])
      ensures this.name == name
    {
      this.name, this.qualifiedName, methods := name, qualifiedName, [];
    }

    function Record(): ClassRecord
      reads this
    {
      ClassRecord(name, qualifiedName, methods)
    }
  }

  function Names(stack: seq<ClassFact>): seq<string> {
    seq(|stack|, i requires 0 <= i < |stack| => stack[i].name)
  }

  /** Module path, enclosing class names if there are any, own name. */
  function Qualified(modulePath: string, owners: seq<string>, name: string): string {
    var owner := Join(".", owners);
    if owner == "" then modulePath + "." + name else modulePath + "." + owner + "." + name
  }

  // ---------------------------------------------------------------- the pure recursions

  /** Functions whose innermost enclosing class is the one the walk started in (nested functions included). */
  function LocalFunctions(modulePath: string, owners: seq<string>, n: Node): seq<FunctionFact>
    decreases n, 1
  {
    match n
    case ClassDef(_, _) => []
    case FunctionDef(name, isAsync, children) =>
      [FunctionFact(name, Qualified(modulePath, owners, name), isAsync)] + LocalFunctionsIn(modulePath, owners, children)
    case Assign(_, children) => LocalFunctionsIn(modulePath, owners, children)
    case AnnAssign(children) => LocalFunctionsIn(modulePath, owners, children)
    case Name(_) => []
    case Other(children) => LocalFunctionsIn(modulePath, owners, children)
  }

  function LocalFunctionsIn(modulePath: string, owners: seq<string>, ns: seq<Node>): seq<FunctionFact>
    decreases ns, 0
  {
    if ns == [] then []
    else LocalFunctionsIn(modulePath, owners, ns[..|ns| - 1]) + LocalFunctions(modulePath, owners, ns[|ns| - 1])
  }

  /** Every class in pre-order, with the functions local to it. */
  function Classes(modulePath: string, owners: seq<string>, n: Node): seq<ClassRecord>
    decreases n, 1
  {
    match n
    case ClassDef(name, children) =>
      [ClassRecord(name, Qualified(modulePath, owners, name), LocalFunctionsIn(modulePath, owners + [name], children))]
      + ClassesIn(modulePath, owners + [name], children)
    case FunctionDef(_, _, children) => ClassesIn(modulePath, owners, children)
    case Assign(_, children) => ClassesIn(modulePath, owners, children)
    case AnnAssign(children) => ClassesIn(modulePath, owners, children)
    case Name(_) => []
    case Other(children) => ClassesIn(modulePath, owners, children)
  }

  function ClassesIn(modulePath: string, owners: seq<string>, ns: seq<Node>): seq<ClassRecord>
    decreases ns, 0
  {
    if ns == [] then []
    else ClassesIn(modulePath, owners, ns[..|ns| - 1]) + Classes(modulePath, owners, ns[|ns| - 1])
  }

  function TargetNames(targets: seq<Node>): seq<string> {
    if targets == [] then []
    else
      var last := targets[|targets| - 1];
      TargetNames(targets[..|targets| - 1]) + if last.Name? then [last.id] else []
  }

  /** Names assigned outside every class and every function. */
  function BoundNames(n: Node): seq<string>
    decreases n, 1
  {
    match n
    case ClassDef(_, _) => []
    case FunctionDef(_, _, _) => []
    case Assign(_, children) => TargetNames(Targets(n)) + BoundNamesIn(children)
    case AnnAssign(children) => TargetNames(Targets(n)) + BoundNamesIn(children)
    case Name(_) => []
    case Other(children) => BoundNamesIn(children)
  }

  function BoundNamesIn(ns: seq<Node>): seq<string>
    decreases ns, 0
  {
    if ns == [] then [] else BoundNamesIn(ns[..|ns| - 1]) + BoundNames(ns[|ns| - 1])
  }

  /** What a class definition leaves behind. */
  lemma ClassDefFacts(modulePath: string, owners: seq<string>, n: Node)
    requires n.ClassDef?
    ensures LocalFunctions(modulePath, owners, n) == [] && BoundNames(n) == []
    ensures Classes(modulePath, owners, n) ==
            [ClassRecord(n.name, Qualified(modulePath, owners, n.name), LocalFunctionsIn(modulePath, owners + [n.name], n.children))]
            + ClassesIn(modulePath, owners + [n.name], n.children)
  {
  }

  // ---------------------------------------------------------------- the visitor

  class ModuleVisitor {
    const modulePath: string
    var functions: seq<FunctionFact>
    var classes: seq<ClassFact>
    var assignments: seq<string>
    var classStack: seq<ClassFact>
    var functionDepth: nat

    constructor (modulePath: string)
      ensures this.modulePath == modulePath
      ensures functions == [] && classes == [] && assignments == [] && classStack == [] && functionDepth == 0
    {
      this.modulePath := modulePath;
      functions, classes, assignments, classStack, functionDepth := [], [], [], [], 0;
    }

    function Owners(): seq<string>
      reads this
    {
      Names(classStack)
    }

    /** The class whose methods may grow. */
    function Innermost(): set<ClassFact>
      reads this
    {
      if classStack == [] then {} else {classStack[|classStack| - 1]}
    }

    /** What a traversal of something with the given local functions, classes and bound names leaves behind. */
    twostate predicate Recorded(local: seq<FunctionFact>, added: seq<ClassRecord>, bound: seq<string>)
      reads this, Innermost(), classes
    {
      && classStack == old(classStack) && functionDepth == old(functionDepth)
      && functions == old(functions) + (if classStack == [] then local else [])
      && (classStack != [] ==>
            classStack[|classStack| - 1].methods == old(classStack[|classStack| - 1].methods) + local)
      && assignments == old(assignments) + (if classStack == [] && functionDepth == 0 then bound else [])
      && |classes| == |old(classes)| + |added| && classes[..|old(classes)|] == old(classes)
      && (forall i | |old(classes)| <= i < |classes| :: fresh(classes[i]) && classes[i].Record() == added[i - |old(classes)|])
    }

    method Visit(n: Node)
      modifies this, Innermost()
      ensures Recorded(LocalFunctions(modulePath, old(Owners()), n), Classes(modulePath, old(Owners()), n), BoundNames(n))
      decreases n, 1
    {
      match n
      case ClassDef(name, children) => VisitClassDef(n);
      case FunctionDef(name, isAsync, children) => VisitFunction(n);
      case Assign(_, _) => VisitAssign(n);
      case AnnAssign(_) => VisitAssign(n);
      case Name(_) =>
      case Other(children) => GenericVisit(children);
    }

    method GenericVisit(ns: seq<Node>)
      modifies this, Innermost()
      ensures Recorded(LocalFunctionsIn(modulePath, old(Owners()), ns), ClassesIn(modulePath, old(Owners()), ns), BoundNamesIn(ns))
      decreases ns, 0
    {
      ghost var owners := Owners();
      for i := 0 to |ns|
        invariant Recorded(LocalFunctionsIn(modulePath, owners, ns[..i]), ClassesIn(modulePath, owners, ns[..i]), BoundNamesIn(ns[..i]))
      {
        label Before:
        ghost var f, c, b := LocalFunctionsIn(modulePath, owners, ns[..i]), ClassesIn(modulePath, owners, ns[..i]), BoundNamesIn(ns[..i]);
        Visit(ns[i]);
        assert ns[..i + 1][..i] == ns[..i];
        assert old@Before(functions) == old(functions) + (if classStack == [] then f else []);
        Chain(old(functions), f, LocalFunctions(modulePath, owners, ns[i]));
        Chain(old(assignments), b, BoundNames(ns[i]));
        assert forall j | 0 <= j < |old@Before(classes)| :: classes[j] == old@Before(classes)[j];
        forall j | |old(classes)| <= j < |old@Before(classes)|
          ensures fresh(classes[j]) && classes[j].Record() == c[j - |old(classes)|]
        {
          assert classes[j] == old@Before(classes)[j] && classes[j] !in Innermost();
        }
      }
      assert ns[..|ns|] == ns;
    }

    method VisitClassDef(n: Node)
      requires n.ClassDef?
      modifies this, Innermost()
      ensures Recorded(LocalFunctions(modulePath, old(Owners()), n), Classes(modulePath, old(Owners()), n), BoundNames(n))
      decreases n, 0
    {
      ClassDefFacts(modulePath, Owners(), n);
      hide LocalFunctions, LocalFunctionsIn, Classes, ClassesIn, BoundNames, BoundNamesIn, Qualified;
      ghost var owners := Owners();
      var classFact := new ClassFact(n.name, Qualified(modulePath, Owners(), n.name));
      classes := classes + [classFact];
      classStack := classStack + [classFact];
      assert Owners() == owners + [n.name];
      label Before:
      GenericVisit(n.children);
      classStack := classStack[..|classStack| - 1];
      assert forall j | 0 <= j < |old@Before(classes)| :: classes[j] == old@Before(classes)[j];
      assert classes[|old(classes)|] == classFact;
    }

    method VisitFunction(n: Node)
      requires n.FunctionDef?
      modifies this, Innermost()
      ensures Recorded(LocalFunctions(modulePath, old(Owners()), n), Classes(modulePath, old(Owners()), n), BoundNames(n))
      decreases n, 0
    {
      ghost var owners := Owners();
      var fact := FunctionFact(n.name, Qualified(modulePath, Owners(), n.name), n.isAsync);
      if classStack != [] {
        var currentClass := classStack[|classStack| - 1];
        currentClass.methods := currentClass.methods + [fact];
      } else {
        functions := functions + [fact];
      }
      functionDepth := functionDepth + 1;
      GenericVisit(n.children);
      functionDepth := functionDepth - 1;
      Chain(old(functions), [fact], LocalFunctionsIn(modulePath, owners, n.children));
    }

    method RecordTargets(targets: seq<Node>)
      modifies `assignments
      ensures assignments == old(assignments) + (if classStack == [] && functionDepth == 0 then TargetNames(targets) else [])
    {
      if classStack == [] && functionDepth == 0 {
        for i := 0 to |targets|
          invariant assignments == old(assignments) + TargetNames(targets[..i])
        {
          assert targets[..i + 1][..i] == targets[..i];
          if targets[i].Name? { assignments := assignments + [targets[i].id]; }
        }
        assert targets[..|targets|] == targets;
      }
    }

    /** `visit_Assign` and `visit_AnnAssign` */
    method VisitAssign(n: Node)
      requires n.Assign? || n.AnnAssign?
      modifies this, Innermost()
      ensures Recorded(LocalFunctions(modulePath, old(Owners()), n), Classes(modulePath, old(Owners()), n), BoundNames(n))
      decreases n, 0
    {
      RecordTargets(Targets(n));
      GenericVisit(n.children);
      Chain(old(assignments), TargetNames(Targets(n)), BoundNamesIn(n.children));
    }
  }

  function Records(classes: seq<ClassFact>): seq<ClassRecord>
    reads classes
  {
    seq(|classes|, i requires 0 <= i < |classes| reads classes => classes[i].Record())
  }

  /** Scanning a whole module: nothing is left open, and every fact is where the pure recursions put it. */
  method ScanModule(modulePath: string, tree: Node)
    returns (functions: seq<FunctionFact>, classes: seq<ClassRecord>, assignments: seq<string>)
    ensures functions == LocalFunctions(modulePath, [], tree)
    ensures classes == Classes(modulePath, [], tree)
    ensures assignments == BoundNames(tree)
  {
    hide LocalFunctions, Classes, BoundNames;
    var visitor := new ModuleVisitor(modulePath);
    visitor.Visit(tree);
    assert visitor.Owners() == [];
    functions, classes, assignments := visitor.functions, Records(visitor.classes), visitor.assignments;
  }

  // ---------------------------------------------------------------- every definition once

  /** All function definitions of a tree, each under its own enclosing classes, wherever they are recorded. */
  function FunctionDefs(modulePath: string, owners: seq<string>, n: Node): seq<FunctionFact>
    decreases n, 1
  {
    match n
    case ClassDef(name, children) => FunctionDefsIn(modulePath, owners + [name], children)
    case FunctionDef(name, isAsync, children) =>
      [FunctionFact(name, Qualified(modulePath, owners, name), isAsync)] + FunctionDefsIn(modulePath, owners, children)
    case Assign(_, children) => FunctionDefsIn(modulePath, owners, children)
    case AnnAssign(children) => FunctionDefsIn(modulePath, owners, children)
    case Name(_) => []
    case Other(children) => FunctionDefsIn(modulePath, owners, children)
  }

  function FunctionDefsIn(modulePath: string, owners: seq<string>, ns: seq<Node>): seq<FunctionFact>
    decreases ns, 0
  {
    if ns == [] then []
    else FunctionDefsIn(modulePath, owners, ns[..|ns| - 1]) + FunctionDefs(modulePath, owners, ns[|ns| - 1])
  }

  /** The methods of all the given classes. */
  function MethodsOf(cs: seq<ClassRecord>): seq<FunctionFact> {
    if cs == [] then [] else MethodsOf(cs[..|cs| - 1]) + cs[|cs| - 1].methods
  }

  lemma {:induction false} MethodsOfConcat(a: seq<ClassRecord>, b: seq<ClassRecord>)
    ensures MethodsOf(a + b) == MethodsOf(a) + MethodsOf(b)
  {
    if b == [] {
      assert a + b == a;
    } else {
      assert (a + b)[..|a + b| - 1] == a + b[..|b| - 1];
      MethodsOfConcat(a, b[..|b| - 1]);
      Chain(MethodsOf(a), MethodsOf(b[..|b| - 1]), b[|b| - 1].methods);
    }
  }

  /** Every function definition is recorded exactly once: as a module-level function or as a method. */
  lemma {:induction false} EveryFunctionOnce(modulePath: string, owners: seq<string>, n: Node)
    ensures multiset(LocalFunctions(modulePath, owners, n)) + multiset(MethodsOf(Classes(modulePath, owners, n)))
            == multiset(FunctionDefs(modulePath, owners, n))
    decreases n, 1
  {
    match n
    case ClassDef(name, children) =>
      EveryFunctionOnceIn(modulePath, owners + [name], children);
      var record := ClassRecord(name, Qualified(modulePath, owners, name), LocalFunctionsIn(modulePath, owners + [name], children));
      MethodsOfConcat([record], ClassesIn(modulePath, owners + [name], children));
      assert MethodsOf([record]) == MethodsOf([]) + record.methods;
    case FunctionDef(name, isAsync, children) =>
      EveryFunctionOnceIn(modulePath, owners, children);
    case Assign(_, children) => EveryFunctionOnceIn(modulePath, owners, children);
    case AnnAssign(children) => EveryFunctionOnceIn(modulePath, owners, children);
    case Name(_) =>
    case Other(children) =>
      EveryFunctionOnceIn(modulePath, owners, children);
  }

  lemma {:induction false} EveryFunctionOnceIn(modulePath: string, owners: seq<string>, ns: seq<Node>)
    ensures multiset(LocalFunctionsIn(modulePath, owners, ns)) + multiset(MethodsOf(ClassesIn(modulePath, owners, ns)))
            == multiset(FunctionDefsIn(modulePath, owners, ns))
    decreases ns, 0
  {
    if ns != [] {
      var k := |ns| - 1;
      EveryFunctionOnceIn(modulePath, owners, ns[..k]);
      EveryFunctionOnce(modulePath, owners, ns[k]);
      MethodsOfConcat(ClassesIn(modulePath, owners, ns[..k]), Classes(modulePath, owners, ns[k]));
    }
  }

  // ---------------------------------------------------------------- what is recorded, by position

  /** A position in a tree: which child to take, level by level. */
  type Path = seq<nat>

  function Kids(n: Node): (r: seq<Node>)
    ensures forall i | 0 <= i < |r| :: r[i] < n
  {
    if n.Name? then [] else n.children
  }

  predicate IsPath(n: Node, p: Path)
    decreases |p|
  {
    p == [] || (p[0] < |Kids(n)| && IsPath(Kids(n)[p[0]], p[1..]))
  }

  function At(n: Node, p: Path): Node
    requires IsPath(n, p)
    decreases |p|
  {
    if p == [] then n else At(Kids(n)[p[0]], p[1..])
  }

  /** The classes that enclose the position, outermost first. */
  function OwnersOn(n: Node, p: Path): seq<string>
    requires IsPath(n, p)
    decreases |p|
  {
    if p == [] then [] else (if n.ClassDef? then [n.name] else []) + OwnersOn(Kids(n)[p[0]], p[1..])
  }

  /** Parents before children, then from left to right. */
  predicate Before(p: Path, q: Path)
    decreases |q|
  {
    q != [] && (p == [] || p[0] < q[0] || (p[0] == q[0] && Before(p[1..], q[1..])))
  }

  /** What is looked for. */
  datatype Goal = CLASSES | FUNCTIONS | DEFINITIONS | BINDINGS

  /** A node, and for a binding which of its children is the bound name. */
  datatype Spot = Spot(path: Path, index: nat)

  /** A class definition; a function definition; or a name that is a target of an assignment: one of the first
      `targetCount` children, or of an annotated one: the first child. */
  predicate IsMark(goal: Goal, n: Node, k: nat) {
    match goal
    case CLASSES => n.ClassDef? && k == 0
    case FUNCTIONS => n.FunctionDef? && k == 0
    case DEFINITIONS => n.FunctionDef? && k == 0
    case BINDINGS =>
      (n.Assign? || n.AnnAssign?) && k < |n.children| && n.children[k].Name? && (if n.Assign? then k < n.targetCount else k == 0)
  }

  /** Local functions are looked for outside inner classes, bindings outside classes and functions. */
  predicate Stops(goal: Goal, n: Node) {
    ((goal == FUNCTIONS || goal == BINDINGS) && n.ClassDef?) || (goal == BINDINGS && n.FunctionDef?)
  }

  /** Nothing above the position stops the search. */
  ghost predicate Open(goal: Goal, n: Node, p: Path)
    requires IsPath(n, p)
  {
    forall k | 0 <= k < |p| :: IsPath(n, p[..k]) && !Stops(goal, At(n, p[..k]))
  }

  ghost predicate IsSpot(goal: Goal, n: Node, s: Spot) {
    IsPath(n, s.path) && Open(goal, n, s.path) && IsMark(goal, At(n, s.path), s.index)
  }

  ghost predicate SpotBefore(s: Spot, t: Spot) { Before(s.path, t.path) || (s.path == t.path && s.index < t.index) }

  ghost predicate InWalkOrder(spots: seq<Spot>) { forall i, j | 0 <= i < j < |spots| :: SpotBefore(spots[i], spots[j]) }

  function MarksUpTo(goal: Goal, n: Node, m: nat): (r: seq<nat>)
    ensures forall k: nat :: k in r <==> k < m && IsMark(goal, n, k)
    ensures forall i, j | 0 <= i < j < |r| :: r[i] < r[j]
  {
    if m == 0 then []
    else
      var before := MarksUpTo(goal, n, m - 1);
      assert forall i | 0 <= i < |before| :: before[i] in before;
      before + if IsMark(goal, n, m - 1) then [m - 1] else []
  }

  /** The marks of a node itself. */
  function Here(goal: Goal, n: Node): seq<Spot> {
    var marks := MarksUpTo(goal, n, |Kids(n)| + 1);
    seq(|marks|, i requires 0 <= i < |marks| => Spot([], marks[i]))
  }

  /** Spots below the i-th child. */
  function Below(i: nat, spots: seq<Spot>): seq<Spot> {
    seq(|spots|, k requires 0 <= k < |spots| => Spot([i] + spots[k].path, spots[k].index))
  }

  /** The spots of a tree, in the order of the walk. */
  function Spots(goal: Goal, n: Node): seq<Spot>
    decreases n, 1
  {
    Here(goal, n) + if n.Name? || Stops(goal, n) then [] else SpotsIn(goal, n.children)
  }

  function SpotsIn(goal: Goal, ns: seq<Node>): seq<Spot>
    decreases ns, 0
  {
    if ns == [] then [] else SpotsIn(goal, ns[..|ns| - 1]) + Below(|ns| - 1, Spots(goal, ns[|ns| - 1]))
  }

  /** A spot below one of the trees. */
  ghost predicate SpotBelow(goal: Goal, ns: seq<Node>, s: Spot) {
    s.path != [] && s.path[0] < |ns| && IsSpot(goal, ns[s.path[0]], Spot(s.path[1..], s.index))
  }

  lemma MarksAreHere(goal: Goal, n: Node, s: Spot)
    ensures s in Here(goal, n) <==> s.path == [] && IsMark(goal, n, s.index)
  {
    MarksAreEarly(goal, n, s.index);
    var marks := MarksUpTo(goal, n, |Kids(n)| + 1);
    assert s.index in marks <==> IsMark(goal, n, s.index);
    var spots := Here(goal, n);
    assert |spots| == |marks| && forall i | 0 <= i < |marks| :: spots[i] == Spot([], marks[i]);
    hide *;
    if s.path == [] && s.index in marks {
      var i :| 0 <= i < |marks| && marks[i] == s.index;
      assert spots[i] == s;
    }
  }

  lemma MarksAreEarly(goal: Goal, n: Node, k: nat)
    ensures IsMark(goal, n, k) ==> k < |Kids(n)| + 1
  {
  }

  lemma SpotAbove(goal: Goal, n: Node, s: Spot)
    ensures s.path == [] ==> (IsSpot(goal, n, s) <==> IsMark(goal, n, s.index))
    ensures s.path != [] ==> (IsSpot(goal, n, s) <==> !Stops(goal, n) && SpotBelow(goal, Kids(n), s))
  {
    var p := s.path;
    if p != [] && IsPath(n, p) {
      var q := p[1..];
      var kid := Kids(n)[p[0]];
      OpenAbove(goal, n, p);
    }
  }

  lemma OpenAbove(goal: Goal, n: Node, p: Path)
    requires p != [] && IsPath(n, p)
    ensures Open(goal, n, p) <==> !Stops(goal, n) && Open(goal, Kids(n)[p[0]], p[1..])
  {
    var q := p[1..];
    var kid := Kids(n)[p[0]];
    forall k | 0 < k < |p| ensures IsPath(n, p[..k]) <==> IsPath(kid, q[..k - 1]) {
      assert p[..k][0] == p[0] && p[..k][1..] == q[..k - 1];
    }
    forall k | 0 < k < |p| && IsPath(n, p[..k]) ensures At(n, p[..k]) == At(kid, q[..k - 1]) {
      assert p[..k][0] == p[0] && p[..k][1..] == q[..k - 1];
    }
    assert p[..0] == [];
    if Open(goal, n, p) {
      assert !Stops(goal, At(n, p[..0]));
      forall k | 0 <= k < |q| ensures IsPath(kid, q[..k]) && !Stops(goal, At(kid, q[..k])) { assert IsPath(n, p[..k + 1]); }
    }
    if !Stops(goal, n) && Open(goal, kid, q) {
      forall k | 0 <= k < |p| ensures IsPath(n, p[..k]) && !Stops(goal, At(n, p[..k])) {
        if k > 0 { assert IsPath(kid, q[..k - 1]); }
      }
    }
  }

  lemma BelowMembers(i: nat, spots: seq<Spot>)
    ensures forall s :: s in Below(i, spots) <==> s.path != [] && s.path[0] == i && Spot(s.path[1..], s.index) in spots
    ensures InWalkOrder(spots) ==> InWalkOrder(Below(i, spots))
  {
    var below := Below(i, spots);
    assert forall k | 0 <= k < |spots| :: below[k].path[1..] == spots[k].path && below[k].path[0] == i;
    forall s ensures s in below <==> s.path != [] && s.path[0] == i && Spot(s.path[1..], s.index) in spots {
      if s.path != [] && s.path[0] == i && Spot(s.path[1..], s.index) in spots {
        var k :| 0 <= k < |spots| && spots[k] == Spot(s.path[1..], s.index);
        assert below[k] == Spot([i] + s.path[1..], s.index) == s;
      }
    }
  }

  /** Exactly the spots are listed, in the order of the walk, so each once. */
  lemma {:induction false} SpotsExactly(goal: Goal, n: Node)
    ensures InWalkOrder(Spots(goal, n)) && Distinct(Spots(goal, n))
    ensures forall s :: s in Spots(goal, n) <==> IsSpot(goal, n, s)
    decreases n, 1
  {
    var here := Here(goal, n);
    var below := if n.Name? || Stops(goal, n) then [] else SpotsIn(goal, n.children);
    if !n.Name? && !Stops(goal, n) { SpotsInExactly(goal, n.children); }
    forall s ensures s in here + below <==> IsSpot(goal, n, s) {
      assert s in here + below <==> s in here || s in below;
      MarksAreHere(goal, n, s);
      SpotAbove(goal, n, s);
    }
    InOrderJoined(here, below);
    OrderedIsDistinct(here + below);
  }

  lemma InOrderJoined(a: seq<Spot>, b: seq<Spot>)
    requires InWalkOrder(a) && InWalkOrder(b) && forall s, t | s in a && t in b :: SpotBefore(s, t)
    ensures InWalkOrder(a + b)
  {
    var all := a + b;
    forall i: nat, j: nat | i < j < |all| ensures SpotBefore(all[i], all[j]) {
      if i < |a| <= j { assert a[i] in a && b[j - |a|] in b; }
    }
  }

  lemma {:induction false} NotBeforeItself(p: Path)
    ensures !Before(p, p)
  {
    if p != [] { NotBeforeItself(p[1..]); }
  }

  lemma OrderedIsDistinct(spots: seq<Spot>)
    requires InWalkOrder(spots)
    ensures Distinct(spots)
  {
    forall i, j | 0 <= i < j < |spots| ensures spots[i] != spots[j] { NotBeforeItself(spots[i].path); }
  }

  lemma {:induction false} SpotsInExactly(goal: Goal, ns: seq<Node>)
    ensures InWalkOrder(SpotsIn(goal, ns))
    ensures forall s :: s in SpotsIn(goal, ns) <==> SpotBelow(goal, ns, s)
    decreases ns, 0
  {
    if ns == [] { return; }
    var k := |ns| - 1;
    SpotsInExactly(goal, ns[..k]);
    SpotsExactly(goal, ns[k]);
    var front, last := SpotsIn(goal, ns[..k]), Below(k, Spots(goal, ns[k]));
    BelowMembers(k, Spots(goal, ns[k]));
    hide IsSpot;
    forall s ensures s in front + last <==> SpotBelow(goal, ns, s) {
      assert s in front + last <==> s in front || s in last;
      if s.path != [] && s.path[0] < k { assert ns[..k][s.path[0]] == ns[s.path[0]]; }
    }
    InOrderJoined(front, last);
  }

  // ---------------------------------------------------------------- functions by position

  /** The fact is that of the function definition at the spot. */
  ghost predicate RecordsFunctionAt(modulePath: string, owners: seq<string>, n: Node, s: Spot, f: FunctionFact) {
    && IsSpot(FUNCTIONS, n, s)
    && f == FunctionFact(At(n, s.path).name, Qualified(modulePath, owners, At(n, s.path).name), At(n, s.path).isAsync)
  }

  ghost predicate FunctionBelow(modulePath: string, owners: seq<string>, ns: seq<Node>, s: Spot, f: FunctionFact) {
    s.path != [] && s.path[0] < |ns| && RecordsFunctionAt(modulePath, owners, ns[s.path[0]], Spot(s.path[1..], s.index), f)
  }

  /** Functions are recorded one for one, in the order of the walk. */
  lemma {:induction false} LocalFunctionsByPosition(modulePath: string, owners: seq<string>, n: Node)
    ensures |LocalFunctions(modulePath, owners, n)| == |Spots(FUNCTIONS, n)|
    ensures forall i | 0 <= i < |Spots(FUNCTIONS, n)| ::
              RecordsFunctionAt(modulePath, owners, n, Spots(FUNCTIONS, n)[i], LocalFunctions(modulePath, owners, n)[i])
    decreases n, 1
  {
    hide Spots, SpotsIn, LocalFunctions, LocalFunctionsIn, Qualified, Here, RecordsFunctionAt, FunctionBelow;
    NothingElseHere(FUNCTIONS, n);
    FunctionsUnfold(modulePath, owners, n);
    if n.Name? || n.ClassDef? { return; }
    LocalFunctionsInByPosition(modulePath, owners, n.children);
    var here, rest, facts := Here(FUNCTIONS, n), SpotsIn(FUNCTIONS, n.children), LocalFunctionsIn(modulePath, owners, n.children);
    var own := if n.FunctionDef? then [FunctionFact(n.name, Qualified(modulePath, owners, n.name), n.isAsync)] else [];
    forall i | 0 <= i < |here + rest| ensures RecordsFunctionAt(modulePath, owners, n, (here + rest)[i], (own + facts)[i]) {
      if i < |here| {
        FunctionHere(modulePath, owners, n);
      } else {
        FunctionSeenFromAbove(modulePath, owners, n, rest[i - |here|], facts[i - |here|]);
      }
    }
  }

  lemma FunctionsUnfold(modulePath: string, owners: seq<string>, n: Node)
    ensures n.Name? || n.ClassDef? ==> Spots(FUNCTIONS, n) == [] && LocalFunctions(modulePath, owners, n) == []
    ensures !n.Name? && !n.ClassDef? ==>
              && Spots(FUNCTIONS, n) == Here(FUNCTIONS, n) + SpotsIn(FUNCTIONS, n.children)
              && LocalFunctions(modulePath, owners, n) ==
                 (if n.FunctionDef? then [FunctionFact(n.name, Qualified(modulePath, owners, n.name), n.isAsync)] else [])
                 + LocalFunctionsIn(modulePath, owners, n.children)
  {
    hide Qualified, LocalFunctionsIn, SpotsIn, Here;
    NothingElseHere(FUNCTIONS, n);
  }

  lemma FunctionHere(modulePath: string, owners: seq<string>, n: Node)
    requires n.FunctionDef?
    ensures RecordsFunctionAt(modulePath, owners, n, Spot([], 0),
                              FunctionFact(n.name, Qualified(modulePath, owners, n.name), n.isAsync))
  {
    SpotAbove(FUNCTIONS, n, Spot([], 0));
    hide Qualified, IsSpot;
  }

  lemma FunctionSeenFromAbove(modulePath: string, owners: seq<string>, n: Node, s: Spot, f: FunctionFact)
    requires !n.ClassDef? && FunctionBelow(modulePath, owners, Kids(n), s, f)
    ensures RecordsFunctionAt(modulePath, owners, n, s, f)
  {
    SpotAbove(FUNCTIONS, n, s);
    hide IsSpot, Qualified;
    assert IsPath(n, s.path) by { SpotHasPath(FUNCTIONS, n, s); }
    assert At(n, s.path) == At(Kids(n)[s.path[0]], s.path[1..]);
  }

  lemma SpotHasPath(goal: Goal, n: Node, s: Spot)
    requires IsSpot(goal, n, s)
    ensures IsPath(n, s.path)
  {
  }

  /** A node is itself a spot at most once, except for bindings. */
  lemma NothingElseHere(goal: Goal, n: Node)
    ensures goal != BINDINGS ==> Here(goal, n) == if IsMark(goal, n, 0) then [Spot([], 0)] else []
  {
    if goal != BINDINGS { OnlyFirstMark(goal, n, |Kids(n)| + 1); }
  }

  lemma {:induction false} OnlyFirstMark(goal: Goal, n: Node, m: nat)
    requires goal != BINDINGS && m > 0
    ensures MarksUpTo(goal, n, m) == if IsMark(goal, n, 0) then [0] else []
  {
    if m > 1 {
      OnlyFirstMark(goal, n, m - 1);
    } else {
      assert MarksUpTo(goal, n, 0) == [];
    }
  }

  lemma LocalFunctionsInUnfold(modulePath: string, owners: seq<string>, ns: seq<Node>)
    requires ns != []
    ensures var k := |ns| - 1;
            && SpotsIn(FUNCTIONS, ns) == SpotsIn(FUNCTIONS, ns[..k]) + Below(k, Spots(FUNCTIONS, ns[k]))
            && LocalFunctionsIn(modulePath, owners, ns) == LocalFunctionsIn(modulePath, owners, ns[..k]) + LocalFunctions(modulePath, owners, ns[k])
  {
  }

  /** What is recorded among the first trees is recorded among all, and what is recorded in one of them as well. */
  lemma FunctionBelowMore(modulePath: string, owners: seq<string>, ns: seq<Node>, k: nat, s: Spot, f: FunctionFact)
    requires k < |ns|
    ensures FunctionBelow(modulePath, owners, ns[..k], s, f) ==> FunctionBelow(modulePath, owners, ns, s, f)
    ensures RecordsFunctionAt(modulePath, owners, ns[k], s, f) ==> FunctionBelow(modulePath, owners, ns, Spot([k] + s.path, s.index), f)
  {
    hide RecordsFunctionAt;
    assert ([k] + s.path)[1..] == s.path;
    if s.path != [] && s.path[0] < k { assert ns[..k][s.path[0]] == ns[s.path[0]]; }
  }

  lemma FunctionsJoined(modulePath: string, owners: seq<string>, ns: seq<Node>, k: nat, front: seq<Spot>,
                        facts: seq<FunctionFact>, last: seq<Spot>, more: seq<FunctionFact>)
    requires k < |ns| && |front| == |facts| && |last| == |more|
    requires forall i | 0 <= i < |front| :: FunctionBelow(modulePath, owners, ns[..k], front[i], facts[i])
    requires forall i | 0 <= i < |last| :: RecordsFunctionAt(modulePath, owners, ns[k], last[i], more[i])
    ensures var spots, all := front + Below(k, last), facts + more;
            |spots| == |all| && forall i | 0 <= i < |spots| :: FunctionBelow(modulePath, owners, ns, spots[i], all[i])
  {
    hide FunctionBelow, RecordsFunctionAt;
    var spots, all := front + Below(k, last), facts + more;
    forall i | 0 <= i < |spots| ensures FunctionBelow(modulePath, owners, ns, spots[i], all[i]) {
      if i < |front| {
        FunctionBelowMore(modulePath, owners, ns, k, front[i], facts[i]);
      } else {
        BelowOne(k, last, i - |front|);
        FunctionBelowMore(modulePath, owners, ns, k, last[i - |front|], more[i - |front|]);
      }
    }
  }

  lemma {:induction false} LocalFunctionsInByPosition(modulePath: string, owners: seq<string>, ns: seq<Node>)
    ensures |LocalFunctionsIn(modulePath, owners, ns)| == |SpotsIn(FUNCTIONS, ns)|
    ensures forall i | 0 <= i < |SpotsIn(FUNCTIONS, ns)| ::
              FunctionBelow(modulePath, owners, ns, SpotsIn(FUNCTIONS, ns)[i], LocalFunctionsIn(modulePath, owners, ns)[i])
    decreases ns, 0
  {
    if ns == [] { return; }
    hide FunctionBelow, RecordsFunctionAt, Spots, SpotsIn, LocalFunctions, LocalFunctionsIn;
    var k := |ns| - 1;
    LocalFunctionsInUnfold(modulePath, owners, ns);
    LocalFunctionsInByPosition(modulePath, owners, ns[..k]);
    LocalFunctionsByPosition(modulePath, owners, ns[k]);
    var front, last := SpotsIn(FUNCTIONS, ns[..k]), Spots(FUNCTIONS, ns[k]);
    var facts, more := LocalFunctionsIn(modulePath, owners, ns[..k]), LocalFunctions(modulePath, owners, ns[k]);
    FunctionsJoined(modulePath, owners, ns, k, front, facts, last, more);
  }

  lemma BelowOne(k: nat, spots: seq<Spot>, i: nat)
    requires i < |spots|
    ensures Below(k, spots)[i] == Spot([k] + spots[i].path, spots[i].index)
  {
  }

  // ---------------------------------------------------------------- classes by position

  /** The record is that of the class definition at the spot: under the classes that enclose it, and with the
      functions of its own body one for one. */
  ghost predicate RecordsClassAt(modulePath: string, owners: seq<string>, n: Node, s: Spot, c: ClassRecord) {
    && IsSpot(CLASSES, n, s)
    && var enclosing, definition := owners + OwnersOn(n, s.path), At(n, s.path);
       && c.name == definition.name && c.qualifiedName == Qualified(modulePath, enclosing, definition.name)
       && MethodsOfBody(modulePath, enclosing + [definition.name], definition.children, c.methods)
  }

  ghost predicate MethodsOfBody(modulePath: string, owners: seq<string>, body: seq<Node>, methods: seq<FunctionFact>) {
    && |methods| == |SpotsIn(FUNCTIONS, body)|
    && forall i | 0 <= i < |methods| :: FunctionBelow(modulePath, owners, body, SpotsIn(FUNCTIONS, body)[i], methods[i])
  }

  ghost predicate RecordsBelow(modulePath: string, owners: seq<string>, ns: seq<Node>, s: Spot, c: ClassRecord) {
    s.path != [] && s.path[0] < |ns| && RecordsClassAt(modulePath, owners, ns[s.path[0]], Spot(s.path[1..], s.index), c)
  }

  /** Every class definition is recorded exactly once: the i-th record is that of the i-th spot. */
  lemma {:induction false} EveryClassOnce(modulePath: string, owners: seq<string>, n: Node)
    ensures |Classes(modulePath, owners, n)| == |Spots(CLASSES, n)|
    ensures forall i | 0 <= i < |Spots(CLASSES, n)| ::
              RecordsClassAt(modulePath, owners, n, Spots(CLASSES, n)[i], Classes(modulePath, owners, n)[i])
    decreases n, 1
  {
    hide Spots, SpotsIn, Classes, ClassesIn, LocalFunctionsIn, Qualified, Here, RecordsClassAt, RecordsBelow;
    NothingElseHere(CLASSES, n);
    if n.Name? { NoClassesInName(modulePath, owners, n); return; }
    var inner := if n.ClassDef? then owners + [n.name] else owners;
    EveryClassOnceIn(modulePath, inner, n.children);
    var here, rest, records := Here(CLASSES, n), SpotsIn(CLASSES, n.children), ClassesIn(modulePath, inner, n.children);
    var own := if n.ClassDef?
               then [ClassRecord(n.name, Qualified(modulePath, owners, n.name), LocalFunctionsIn(modulePath, inner, n.children))]
               else [];
    ClassesUnfold(modulePath, owners, n);
    forall i | 0 <= i < |here + rest| ensures RecordsClassAt(modulePath, owners, n, (here + rest)[i], (own + records)[i]) {
      if i < |here| {
        RecordHere(modulePath, owners, n, own[i]);
      } else {
        RecordSeenFromAbove(modulePath, owners, inner, n, rest[i - |here|], records[i - |here|]);
      }
    }
  }

  lemma NoClassesInName(modulePath: string, owners: seq<string>, n: Node)
    requires n.Name?
    ensures Spots(CLASSES, n) == [] && Classes(modulePath, owners, n) == []
  {
    NothingElseHere(CLASSES, n);
  }

  lemma ClassesUnfold(modulePath: string, owners: seq<string>, n: Node)
    requires !n.Name?
    ensures Spots(CLASSES, n) == Here(CLASSES, n) + SpotsIn(CLASSES, n.children)
    ensures var inner := if n.ClassDef? then owners + [n.name] else owners;
            Classes(modulePath, owners, n) ==
            (if n.ClassDef?
             then [ClassRecord(n.name, Qualified(modulePath, owners, n.name), LocalFunctionsIn(modulePath, inner, n.children))]
             else [])
            + ClassesIn(modulePath, inner, n.children)
  {
    hide Qualified, LocalFunctionsIn, Here;
  }

  lemma RecordHere(modulePath: string, owners: seq<string>, n: Node, c: ClassRecord)
    requires n.ClassDef?
    requires c == ClassRecord(n.name, Qualified(modulePath, owners, n.name), LocalFunctionsIn(modulePath, owners + [n.name], n.children))
    ensures RecordsClassAt(modulePath, owners, n, Spot([], 0), c)
  {
    SpotAbove(CLASSES, n, Spot([], 0));
    LocalFunctionsInByPosition(modulePath, owners + [n.name], n.children);
    assert owners + [] == owners;
    hide LocalFunctionsIn, SpotsIn, Qualified, IsSpot, FunctionBelow;
  }

  lemma RecordSeenFromAbove(modulePath: string, owners: seq<string>, inner: seq<string>, n: Node, s: Spot, c: ClassRecord)
    requires inner == (if n.ClassDef? then owners + [n.name] else owners) && RecordsBelow(modulePath, inner, Kids(n), s, c)
    ensures RecordsClassAt(modulePath, owners, n, s, c)
  {
    SpotAbove(CLASSES, n, s);
    OwnersFromAbove(owners, inner, n, s.path);
    hide OwnersOn, At, IsPath, Kids, Qualified, MethodsOfBody, IsSpot;
  }

  lemma OwnersFromAbove(owners: seq<string>, inner: seq<string>, n: Node, p: Path)
    requires inner == (if n.ClassDef? then owners + [n.name] else owners) && p != [] && p[0] < |Kids(n)|
    requires IsPath(Kids(n)[p[0]], p[1..])
    ensures IsPath(n, p) && At(n, p) == At(Kids(n)[p[0]], p[1..])
    ensures owners + OwnersOn(n, p) == inner + OwnersOn(Kids(n)[p[0]], p[1..])
  {
    hide OwnersOn;
    OwnersUnfold(n, p);
  }

  lemma OwnersUnfold(n: Node, p: Path)
    requires IsPath(n, p) && p != []
    ensures OwnersOn(n, p) == (if n.ClassDef? then [n.name] else []) + OwnersOn(Kids(n)[p[0]], p[1..])
  {
  }

  lemma ClassesInUnfold(modulePath: string, owners: seq<string>, ns: seq<Node>)
    requires ns != []
    ensures var k := |ns| - 1;
            && SpotsIn(CLASSES, ns) == SpotsIn(CLASSES, ns[..k]) + Below(k, Spots(CLASSES, ns[k]))
            && ClassesIn(modulePath, owners, ns) == ClassesIn(modulePath, owners, ns[..k]) + Classes(modulePath, owners, ns[k])
  {
  }

  /** What is recorded among the first trees is recorded among all, and what is recorded in one of them as well. */
  lemma RecordsBelowMore(modulePath: string, owners: seq<string>, ns: seq<Node>, k: nat, s: Spot, c: ClassRecord)
    requires k < |ns|
    ensures RecordsBelow(modulePath, owners, ns[..k], s, c) ==> RecordsBelow(modulePath, owners, ns, s, c)
    ensures RecordsClassAt(modulePath, owners, ns[k], s, c) ==> RecordsBelow(modulePath, owners, ns, Spot([k] + s.path, s.index), c)
  {
    hide RecordsClassAt;
    assert ([k] + s.path)[1..] == s.path;
    if s.path != [] && s.path[0] < k { assert ns[..k][s.path[0]] == ns[s.path[0]]; }
  }

  lemma RecordsJoined(modulePath: string, owners: seq<string>, ns: seq<Node>, k: nat, front: seq<Spot>,
                      records: seq<ClassRecord>, last: seq<Spot>, more: seq<ClassRecord>)
    requires k < |ns| && |front| == |records| && |last| == |more|
    requires forall i | 0 <= i < |front| :: RecordsBelow(modulePath, owners, ns[..k], front[i], records[i])
    requires forall i | 0 <= i < |last| :: RecordsClassAt(modulePath, owners, ns[k], last[i], more[i])
    ensures var spots, all := front + Below(k, last), records + more;
            |spots| == |all| && forall i | 0 <= i < |spots| :: RecordsBelow(modulePath, owners, ns, spots[i], all[i])
  {
    hide RecordsBelow, RecordsClassAt;
    var spots, all := front + Below(k, last), records + more;
    forall i | 0 <= i < |spots| ensures RecordsBelow(modulePath, owners, ns, spots[i], all[i]) {
      if i < |front| {
        RecordsBelowMore(modulePath, owners, ns, k, front[i], records[i]);
      } else {
        BelowOne(k, last, i - |front|);
        RecordsBelowMore(modulePath, owners, ns, k, last[i - |front|], more[i - |front|]);
      }
    }
  }

  lemma {:induction false} EveryClassOnceIn(modulePath: string, owners: seq<string>, ns: seq<Node>)
    ensures |ClassesIn(modulePath, owners, ns)| == |SpotsIn(CLASSES, ns)|
    ensures forall i | 0 <= i < |SpotsIn(CLASSES, ns)| ::
              RecordsBelow(modulePath, owners, ns, SpotsIn(CLASSES, ns)[i], ClassesIn(modulePath, owners, ns)[i])
    decreases ns, 0
  {
    if ns == [] { return; }
    hide RecordsBelow, RecordsClassAt, Spots, SpotsIn, Classes, ClassesIn;
    var k := |ns| - 1;
    ClassesInUnfold(modulePath, owners, ns);
    EveryClassOnceIn(modulePath, owners, ns[..k]);
    EveryClassOnce(modulePath, owners, ns[k]);
    var front, last := SpotsIn(CLASSES, ns[..k]), Spots(CLASSES, ns[k]);
    var records, more := ClassesIn(modulePath, owners, ns[..k]), Classes(modulePath, owners, ns[k]);
    RecordsJoined(modulePath, owners, ns, k, front, records, last, more);
  }

  // ---------------------------------------------------------------- all definitions by position

  /** The fact is that of the function definition at the spot, under the classes that enclose it. */
  ghost predicate RecordsDefinitionAt(modulePath: string, owners: seq<string>, n: Node, s: Spot, f: FunctionFact) {
    && IsSpot(DEFINITIONS, n, s)
    && var definition := At(n, s.path);
       f == FunctionFact(definition.name, Qualified(modulePath, owners + OwnersOn(n, s.path), definition.name), definition.isAsync)
  }

  ghost predicate DefinitionBelow(modulePath: string, owners: seq<string>, ns: seq<Node>, s: Spot, f: FunctionFact) {
    s.path != [] && s.path[0] < |ns| && RecordsDefinitionAt(modulePath, owners, ns[s.path[0]], Spot(s.path[1..], s.index), f)
  }

  /** The function definitions one for one, at any depth, inside classes or not. */
  lemma {:induction false} FunctionDefsByPosition(modulePath: string, owners: seq<string>, n: Node)
    ensures |FunctionDefs(modulePath, owners, n)| == |Spots(DEFINITIONS, n)|
    ensures forall i | 0 <= i < |Spots(DEFINITIONS, n)| ::
              RecordsDefinitionAt(modulePath, owners, n, Spots(DEFINITIONS, n)[i], FunctionDefs(modulePath, owners, n)[i])
    decreases n, 1
  {
    hide Spots, SpotsIn, FunctionDefs, FunctionDefsIn, Qualified, Here, RecordsDefinitionAt, DefinitionBelow;
    NothingElseHere(DEFINITIONS, n);
    DefinitionsUnfold(modulePath, owners, n);
    if n.Name? { return; }
    var inner := if n.ClassDef? then owners + [n.name] else owners;
    FunctionDefsInByPosition(modulePath, inner, n.children);
    var here, rest, facts := Here(DEFINITIONS, n), SpotsIn(DEFINITIONS, n.children), FunctionDefsIn(modulePath, inner, n.children);
    var own := if n.FunctionDef? then [FunctionFact(n.name, Qualified(modulePath, owners, n.name), n.isAsync)] else [];
    forall i | 0 <= i < |here + rest| ensures RecordsDefinitionAt(modulePath, owners, n, (here + rest)[i], (own + facts)[i]) {
      if i < |here| {
        DefinitionHere(modulePath, owners, n);
      } else {
        DefinitionSeenFromAbove(modulePath, owners, inner, n, rest[i - |here|], facts[i - |here|]);
      }
    }
  }

  lemma DefinitionsUnfold(modulePath: string, owners: seq<string>, n: Node)
    ensures n.Name? ==> Spots(DEFINITIONS, n) == [] && FunctionDefs(modulePath, owners, n) == []
    ensures !n.Name? ==>
              && Spots(DEFINITIONS, n) == Here(DEFINITIONS, n) + SpotsIn(DEFINITIONS, n.children)
              && FunctionDefs(modulePath, owners, n) ==
                 (if n.FunctionDef? then [FunctionFact(n.name, Qualified(modulePath, owners, n.name), n.isAsync)] else [])
                 + FunctionDefsIn(modulePath, if n.ClassDef? then owners + [n.name] else owners, n.children)
  {
    hide Qualified, FunctionDefsIn, SpotsIn, Here;
    NothingElseHere(DEFINITIONS, n);
  }

  lemma DefinitionHere(modulePath: string, owners: seq<string>, n: Node)
    requires n.FunctionDef?
    ensures RecordsDefinitionAt(modulePath, owners, n, Spot([], 0),
                                FunctionFact(n.name, Qualified(modulePath, owners, n.name), n.isAsync))
  {
    SpotAbove(DEFINITIONS, n, Spot([], 0));
    assert owners + [] == owners;
    hide Qualified, IsSpot;
  }

  lemma DefinitionSeenFromAbove(modulePath: string, owners: seq<string>, inner: seq<string>, n: Node, s: Spot, f: FunctionFact)
    requires inner == (if n.ClassDef? then owners + [n.name] else owners) && DefinitionBelow(modulePath, inner, Kids(n), s, f)
    ensures RecordsDefinitionAt(modulePath, owners, n, s, f)
  {
    SpotAbove(DEFINITIONS, n, s);
    OwnersFromAbove(owners, inner, n, s.path);
    hide OwnersOn, At, IsPath, Kids, Qualified, IsSpot;
  }

  lemma FunctionDefsInUnfold(modulePath: string, owners: seq<string>, ns: seq<Node>)
    requires ns != []
    ensures var k := |ns| - 1;
            && SpotsIn(DEFINITIONS, ns) == SpotsIn(DEFINITIONS, ns[..k]) + Below(k, Spots(DEFINITIONS, ns[k]))
            && FunctionDefsIn(modulePath, owners, ns) == FunctionDefsIn(modulePath, owners, ns[..k]) + FunctionDefs(modulePath, owners, ns[k])
  {
  }

  /** What is recorded among the first trees is recorded among all, and what is recorded in one of them as well. */
  lemma DefinitionBelowMore(modulePath: string, owners: seq<string>, ns: seq<Node>, k: nat, s: Spot, f: FunctionFact)
    requires k < |ns|
    ensures DefinitionBelow(modulePath, owners, ns[..k], s, f) ==> DefinitionBelow(modulePath, owners, ns, s, f)
    ensures RecordsDefinitionAt(modulePath, owners, ns[k], s, f) ==> DefinitionBelow(modulePath, owners, ns, Spot([k] + s.path, s.index), f)
  {
    hide RecordsDefinitionAt;
    assert ([k] + s.path)[1..] == s.path;
    if s.path != [] && s.path[0] < k { assert ns[..k][s.path[0]] == ns[s.path[0]]; }
  }

  lemma DefinitionsJoined(modulePath: string, owners: seq<string>, ns: seq<Node>, k: nat, front: seq<Spot>,
                          facts: seq<FunctionFact>, last: seq<Spot>, more: seq<FunctionFact>)
    requires k < |ns| && |front| == |facts| && |last| == |more|
    requires forall i | 0 <= i < |front| :: DefinitionBelow(modulePath, owners, ns[..k], front[i], facts[i])
    requires forall i | 0 <= i < |last| :: RecordsDefinitionAt(modulePath, owners, ns[k], last[i], more[i])
    ensures var spots, all := front + Below(k, last), facts + more;
            |spots| == |all| && forall i | 0 <= i < |spots| :: DefinitionBelow(modulePath, owners, ns, spots[i], all[i])
  {
    hide DefinitionBelow, RecordsDefinitionAt;
    var spots, all := front + Below(k, last), facts + more;
    forall i | 0 <= i < |spots| ensures DefinitionBelow(modulePath, owners, ns, spots[i], all[i]) {
      if i < |front| {
        DefinitionBelowMore(modulePath, owners, ns, k, front[i], facts[i]);
      } else {
        BelowOne(k, last, i - |front|);
        DefinitionBelowMore(modulePath, owners, ns, k, last[i - |front|], more[i - |front|]);
      }
    }
  }

  lemma {:induction false} FunctionDefsInByPosition(modulePath: string, owners: seq<string>, ns: seq<Node>)
    ensures |FunctionDefsIn(modulePath, owners, ns)| == |SpotsIn(DEFINITIONS, ns)|
    ensures forall i | 0 <= i < |SpotsIn(DEFINITIONS, ns)| ::
              DefinitionBelow(modulePath, owners, ns, SpotsIn(DEFINITIONS, ns)[i], FunctionDefsIn(modulePath, owners, ns)[i])
    decreases ns, 0
  {
    if ns == [] { return; }
    hide DefinitionBelow, RecordsDefinitionAt, Spots, SpotsIn, FunctionDefs, FunctionDefsIn;
    var k := |ns| - 1;
    FunctionDefsInUnfold(modulePath, owners, ns);
    FunctionDefsInByPosition(modulePath, owners, ns[..k]);
    FunctionDefsByPosition(modulePath, owners, ns[k]);
    var front, last := SpotsIn(DEFINITIONS, ns[..k]), Spots(DEFINITIONS, ns[k]);
    var facts, more := FunctionDefsIn(modulePath, owners, ns[..k]), FunctionDefs(modulePath, owners, ns[k]);
    DefinitionsJoined(modulePath, owners, ns, k, front, facts, last, more);
  }

  // ---------------------------------------------------------------- bound names by position

  /** The name is the target at the spot. */
  ghost predicate RecordsNameAt(n: Node, s: Spot, name: string) {
    IsSpot(BINDINGS, n, s) && name == At(n, s.path).children[s.index].id
  }

  ghost predicate NameBelow(ns: seq<Node>, s: Spot, name: string) {
    s.path != [] && s.path[0] < |ns| && RecordsNameAt(ns[s.path[0]], Spot(s.path[1..], s.index), name)
  }

  /** The names bound outside classes and functions are recorded one for one, in the order of the walk. */
  lemma {:induction false} BoundNamesByPosition(n: Node)
    ensures |BoundNames(n)| == |Spots(BINDINGS, n)|
    ensures forall i | 0 <= i < |Spots(BINDINGS, n)| :: RecordsNameAt(n, Spots(BINDINGS, n)[i], BoundNames(n)[i])
    decreases n, 1
  {
    hide Spots, SpotsIn, BoundNames, BoundNamesIn, TargetNames, Targets, Here, RecordsNameAt, NameBelow;
    TargetsHere(n);
    BindingsUnfold(n);
    if n.Name? || n.ClassDef? || n.FunctionDef? { return; }
    BoundNamesInByPosition(n.children);
    var here, rest, names := Here(BINDINGS, n), SpotsIn(BINDINGS, n.children), BoundNamesIn(n.children);
    var own := if n.Assign? || n.AnnAssign? then TargetNames(Targets(n)) else [];
    forall i | 0 <= i < |here + rest| ensures RecordsNameAt(n, (here + rest)[i], (own + names)[i]) {
      if i < |here| {
        NameHere(n, here[i], own[i]);
      } else {
        NameSeenFromAbove(n, rest[i - |here|], names[i - |here|]);
      }
    }
  }

  lemma BindingsUnfold(n: Node)
    ensures n.Name? || n.ClassDef? || n.FunctionDef? ==> Spots(BINDINGS, n) == [] && BoundNames(n) == []
    ensures !n.Name? && !n.ClassDef? && !n.FunctionDef? ==>
              && Spots(BINDINGS, n) == Here(BINDINGS, n) + SpotsIn(BINDINGS, n.children)
              && BoundNames(n) == (if n.Assign? || n.AnnAssign? then TargetNames(Targets(n)) else []) + BoundNamesIn(n.children)
  {
    hide TargetNames, Targets, BoundNamesIn, SpotsIn, Here;
    TargetsHere(n);
  }

  lemma NameHere(n: Node, s: Spot, name: string)
    requires s.path == [] && IsMark(BINDINGS, n, s.index) && name == n.children[s.index].id
    ensures RecordsNameAt(n, s, name)
  {
    SpotAbove(BINDINGS, n, s);
  }

  lemma NameSeenFromAbove(n: Node, s: Spot, name: string)
    requires !n.ClassDef? && !n.FunctionDef? && NameBelow(Kids(n), s, name)
    ensures RecordsNameAt(n, s, name)
  {
    SpotAbove(BINDINGS, n, s);
    assert At(n, s.path) == At(Kids(n)[s.path[0]], s.path[1..]);
  }

  /** The targets of an assignment, one for one. */
  lemma TargetsHere(n: Node)
    ensures !n.Assign? && !n.AnnAssign? ==> Here(BINDINGS, n) == []
    ensures n.Assign? || n.AnnAssign? ==> |Here(BINDINGS, n)| == |TargetNames(Targets(n))|
    ensures n.Assign? || n.AnnAssign? ==> forall i | 0 <= i < |Here(BINDINGS, n)| ::
              var s := Here(BINDINGS, n)[i];
              s.path == [] && IsMark(BINDINGS, n, s.index) && TargetNames(Targets(n))[i] == n.children[s.index].id
  {
    var m := |Kids(n)| + 1;
    if n.Assign? || n.AnnAssign? {
      TargetsUpTo(n, |Targets(n)|);
      assert Targets(n)[..|Targets(n)|] == Targets(n);
      NoMarksAfter(n, |Targets(n)|, m);
    } else {
      NoMarksAfter(n, 0, m);
      assert MarksUpTo(BINDINGS, n, 0) == [];
    }
    hide MarksUpTo, TargetNames, Targets, IsMark;
  }

  lemma {:induction false} NoMarksAfter(n: Node, k: nat, m: nat)
    requires k <= m && forall i | k <= i < m :: !IsMark(BINDINGS, n, i)
    ensures MarksUpTo(BINDINGS, n, m) == MarksUpTo(BINDINGS, n, k)
  {
    if m > k {
      NoMarksAfter(n, k, m - 1);
      assert !IsMark(BINDINGS, n, m - 1);
    }
  }

  lemma {:induction false} TargetsUpTo(n: Node, m: nat)
    requires (n.Assign? || n.AnnAssign?) && m <= |Targets(n)|
    ensures var marks, names := MarksUpTo(BINDINGS, n, m), TargetNames(Targets(n)[..m]);
            |marks| == |names| && forall i | 0 <= i < |marks| :: IsMark(BINDINGS, n, marks[i]) && names[i] == n.children[marks[i]].id
  {
    hide MarksUpTo, TargetNames;
    if m == 0 {
      NoTargets(n);
    } else {
      TargetsUpTo(n, m - 1);
      OneMoreTarget(n, m);
    }
  }

  lemma NoTargets(n: Node)
    requires n.Assign? || n.AnnAssign?
    ensures MarksUpTo(BINDINGS, n, 0) == [] && TargetNames(Targets(n)[..0]) == []
  {
    assert Targets(n)[..0] == [];
  }

  lemma OneMoreTarget(n: Node, m: nat)
    requires (n.Assign? || n.AnnAssign?) && 0 < m <= |Targets(n)|
    ensures Targets(n)[m - 1] == n.children[m - 1] && (IsMark(BINDINGS, n, m - 1) <==> n.children[m - 1].Name?)
    ensures MarksUpTo(BINDINGS, n, m)
            == MarksUpTo(BINDINGS, n, m - 1) + if n.children[m - 1].Name? then [m - 1] else []
    ensures TargetNames(Targets(n)[..m])
            == TargetNames(Targets(n)[..m - 1]) + if n.children[m - 1].Name? then [n.children[m - 1].id] else []
  {
    assert Targets(n)[..m][..m - 1] == Targets(n)[..m - 1];
  }

  lemma BoundNamesInUnfold(ns: seq<Node>)
    requires ns != []
    ensures var k := |ns| - 1;
            && SpotsIn(BINDINGS, ns) == SpotsIn(BINDINGS, ns[..k]) + Below(k, Spots(BINDINGS, ns[k]))
            && BoundNamesIn(ns) == BoundNamesIn(ns[..k]) + BoundNames(ns[k])
  {
  }

  /** What is recorded among the first trees is recorded among all, and what is recorded in one of them as well. */
  lemma NameBelowMore(ns: seq<Node>, k: nat, s: Spot, name: string)
    requires k < |ns|
    ensures NameBelow(ns[..k], s, name) ==> NameBelow(ns, s, name)
    ensures RecordsNameAt(ns[k], s, name) ==> NameBelow(ns, Spot([k] + s.path, s.index), name)
  {
    hide RecordsNameAt;
    assert ([k] + s.path)[1..] == s.path;
    if s.path != [] && s.path[0] < k { assert ns[..k][s.path[0]] == ns[s.path[0]]; }
  }

  lemma NamesJoined(ns: seq<Node>, k: nat, front: seq<Spot>, names: seq<string>, last: seq<Spot>, more: seq<string>)
    requires k < |ns| && |front| == |names| && |last| == |more|
    requires forall i | 0 <= i < |front| :: NameBelow(ns[..k], front[i], names[i])
    requires forall i | 0 <= i < |last| :: RecordsNameAt(ns[k], last[i], more[i])
    ensures var spots, all := front + Below(k, last), names + more;
            |spots| == |all| && forall i | 0 <= i < |spots| :: NameBelow(ns, spots[i], all[i])
  {
    hide NameBelow, RecordsNameAt;
    var spots, all := front + Below(k, last), names + more;
    forall i | 0 <= i < |spots| ensures NameBelow(ns, spots[i], all[i]) {
      if i < |front| {
        NameBelowMore(ns, k, front[i], names[i]);
      } else {
        BelowOne(k, last, i - |front|);
        NameBelowMore(ns, k, last[i - |front|], more[i - |front|]);
      }
    }
  }

  lemma {:induction false} BoundNamesInByPosition(ns: seq<Node>)
    ensures |BoundNamesIn(ns)| == |SpotsIn(BINDINGS, ns)|
    ensures forall i | 0 <= i < |SpotsIn(BINDINGS, ns)| :: NameBelow(ns, SpotsIn(BINDINGS, ns)[i], BoundNamesIn(ns)[i])
    decreases ns, 0
  {
    if ns == [] { return; }
    hide NameBelow, RecordsNameAt, Spots, SpotsIn, BoundNames, BoundNamesIn;
    var k := |ns| - 1;
    BoundNamesInUnfold(ns);
    BoundNamesInByPosition(ns[..k]);
    BoundNamesByPosition(ns[k]);
    var front, last := SpotsIn(BINDINGS, ns[..k]), Spots(BINDINGS, ns[k]);
    var names, more := BoundNamesIn(ns[..k]), BoundNames(ns[k]);
    NamesJoined(ns, k, front, names, last, more);
  }

  // ---------------------------------------------------------------- qualified names

  /** With real identifiers, a qualified name is the dotted path through module, enclosing classes and own name. */
  lemma QualifiedIsDottedPath(modulePath: string, owners: seq<string>, name: string)
    requires forall i | 0 <= i < |owners| :: owners[i] != ""
    ensures Qualified(modulePath, owners, name) == Join(".", [modulePath] + (owners + [name]))
  {
    JoinConcat(".", [modulePath], owners + [name]);
    if owners == [] {
      assert owners + [name] == [name];
    } else {
      JoinConcat(".", owners, [name]);
      JoinNotEmpty(owners);
      Chain(modulePath + ".", Join(".", owners) + ".", name);
      Chain(modulePath + ".", Join(".", owners), ".");
    }
  }

  lemma JoinNotEmpty(parts: seq<string>)
    requires parts != [] && parts[0] != ""
    ensures Join(".", parts) != ""
  {
  }
}
