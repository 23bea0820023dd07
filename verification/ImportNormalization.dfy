/** Resolving relative imports against the importing module, on text alone. */
module ImportNormalization {
  import opened Options
  import opened PyText

  datatype ImportKind = ABSOLUTE | FUTURE | RELATIVE

  datatype Import = Import(normalized: string, kind: ImportKind, root: Option<string>)

  const FUTURE_MODULE := "__future__"

  function PackageParts(modulePath: string): seq<string> {
    var parts := NonEmpty(Split('.', modulePath));
    if parts == [] then [] else parts[..|parts| - 1]
  }

  function LeadingDots(s: string): (n: nat)
    ensures n <= |s| && (n < |s| ==> s[n] != '.') && forall i | 0 <= i < n :: s[i] == '.'
  {
    if s != "" && s[0] == '.' then 1 + LeadingDots(s[1..]) else 0
  }

  predicate IsFuture(raw: string) { raw == FUTURE_MODULE || FUTURE_MODULE + "." <= raw }

  /** The parts of a stripped import that starts with a dot. */
  function RelativeParts(modulePath: string, raw: string): seq<string> {
    var level := LeadingDots(raw);
    var suffix := raw[level..];
    var package := PackageParts(modulePath);
    var keep := if |package| - level + 1 < 0 then 0 else |package| - level + 1;
    (if keep <= |package| then package[..keep] else package) + if suffix == "" then [] else NonEmpty(Split('.', suffix))
  }

  function NormalizeImport(modulePath: string, imported: string): Import {
    var raw := Strip(imported);
    if raw == "" then Import(raw, ABSOLUTE, None)
    else if IsFuture(raw) then Import(raw, FUTURE, Some(FUTURE_MODULE))
    else if raw[0] != '.' then Import(raw, ABSOLUTE, Some(Split('.', raw)[0]))
    else
      var parts := RelativeParts(modulePath, raw);
      Import(Join(".", parts), RELATIVE, if parts == [] then None else Some(parts[0]))
  }

  /** Which branch an import takes, and what it yields. */
  lemma Branches(modulePath: string, imported: string)
    ensures var r, raw := NormalizeImport(modulePath, imported), Strip(imported);
            if raw != "" && raw[0] == '.'
            then r.kind == RELATIVE && r.normalized == Join(".", RelativeParts(modulePath, raw))
            else r.kind != RELATIVE && r.normalized == raw
  {
    if IsFuture(Strip(imported)) { FutureStart(Strip(imported)); }
  }

  /** A future import is `__future__` or something in it; otherwise a leading dot makes an import relative. */
  lemma KindsExactly(modulePath: string, imported: string)
    ensures var kind, raw := NormalizeImport(modulePath, imported).kind, Strip(imported);
            && (kind == FUTURE <==> raw == "__future__" || "__future__." <= raw)
            && (kind == RELATIVE <==> raw != "" && raw[0] == '.')
  {
    if IsFuture(Strip(imported)) { FutureStart(Strip(imported)); }
    assert FUTURE_MODULE + "." == "__future__.";
  }

  /** The root is the first dotted part of the normal form, and there is one unless that is empty. */
  lemma RootIsFirstPart(modulePath: string, imported: string)
    ensures var r := NormalizeImport(modulePath, imported);
            && (r.root == None <==> r.normalized == "")
            && (r.root.Some? ==>
                  && r.root.value != "" && '.' !in r.root.value
                  && (r.normalized == r.root.value || r.root.value + "." <= r.normalized))
  {
    var raw := Strip(imported);
    if raw == "" {
    } else if IsFuture(raw) {
      assert '.' !in FUTURE_MODULE && FUTURE_MODULE != "";
    } else if raw[0] != '.' {
      SplitHead('.', raw);
      HeadIsFilled(raw);
    } else {
      var parts := RelativeParts(modulePath, raw);
      PartsAreFilled(modulePath, raw);
      hide RelativeParts;
      if |parts| > 1 { assert Join(".", parts) == parts[0] + "." + Join(".", parts[1..]); }
    }
  }

  lemma HeadIsFilled(raw: string)
    requires raw != "" && raw[0] != '.'
    ensures Split('.', raw)[0] != ""
  {
  }

  lemma PartsAreFilled(modulePath: string, raw: string)
    ensures forall i | 0 <= i < |RelativeParts(modulePath, raw)| ::
              RelativeParts(modulePath, raw)[i] != "" && '.' !in RelativeParts(modulePath, raw)[i]
  {
    var package, suffix := Split('.', modulePath), Split('.', raw[LeadingDots(raw)..]);
    NonEmptyAreParts(package);
    NonEmptyAreParts(suffix);
    hide Split, LeadingDots, NonEmpty;
  }

  lemma NonEmptyAreParts(parts: seq<string>)
    requires forall i | 0 <= i < |parts| :: '.' !in parts[i]
    ensures forall i | 0 <= i < |NonEmpty(parts)| :: NonEmpty(parts)[i] != "" && '.' !in NonEmpty(parts)[i]
  {
    forall i | 0 <= i < |NonEmpty(parts)| ensures NonEmpty(parts)[i] != "" && '.' !in NonEmpty(parts)[i] {
      assert NonEmpty(parts)[i] in NonEmpty(parts);
    }
  }

  lemma FutureStart(raw: string)
    requires IsFuture(raw)
    ensures raw[0] == '_'
  {
    assert FUTURE_MODULE[0] == '_' && (FUTURE_MODULE + ".")[0] == '_';
  }

  /** Some import of the list normalizes to `t`. */
  ghost predicate IsTarget(modulePath: string, imports: seq<string>, t: string) {
    exists i | 0 <= i < |imports| :: NormalizeImport(modulePath, imports[i]).normalized == t
  }

  lemma OneMoreImport(modulePath: string, imports: seq<string>, k: nat, t: string)
    requires k < |imports|
    ensures IsTarget(modulePath, imports[..k + 1], t) <==>
            IsTarget(modulePath, imports[..k], t) || NormalizeImport(modulePath, imports[k]).normalized == t
  {
    hide NormalizeImport;
    var front, more := imports[..k], imports[..k + 1];
    assert more == front + [imports[k]];
    if IsTarget(modulePath, front, t) {
      var i :| 0 <= i < |front| && NormalizeImport(modulePath, front[i]).normalized == t;
      assert more[i] == front[i];
    }
    if NormalizeImport(modulePath, imports[k]).normalized == t { assert more[k] == imports[k]; }
  }

  /** The distinct non-empty targets, sorted. */
  method NormalizedImportTargets(modulePath: string, imports: seq<string>) returns (targets: seq<string>)
    ensures StrictlySorted(targets)
    ensures forall t :: t in targets <==> t != "" && IsTarget(modulePath, imports, t)
  {
    hide NormalizeImport;
    var values := [];
    for k := 0 to |imports|
      invariant forall t :: t in values <==> t != "" && IsTarget(modulePath, imports[..k], t)
    {
      var normalized := NormalizeImport(modulePath, imports[k]).normalized;
      forall t ensures IsTarget(modulePath, imports[..k + 1], t) <==> IsTarget(modulePath, imports[..k], t) || normalized == t {
        OneMoreImport(modulePath, imports, k, t);
      }
      if normalized != "" { values := values + [normalized]; }
    }
    assert imports[..|imports|] == imports;
    targets := SortedUnique(values);
  }

  // ---------------------------------------------------------------- dotted names

  ghost predicate Identifier(s: string) { s != "" && '.' !in s && NoSpace(s) }

  ghost predicate Identifiers(parts: seq<string>) { forall i | 0 <= i < |parts| :: Identifier(parts[i]) }

  function Dots(n: nat): string { seq(n, _ => '.') }

  lemma {:induction false} DottedText(parts: seq<string>)
    requires Identifiers(parts)
    ensures NoSpace(Join(".", parts))
    ensures parts == [] <==> Join(".", parts) == ""
    ensures parts != [] ==> Join(".", parts)[0] != '.'
  {
    if |parts| > 1 {
      DottedText(parts[1..]);
    }
    if parts != [] { assert parts[0][0] in parts[0]; }
  }

  lemma DottedParts(parts: seq<string>)
    requires Identifiers(parts)
    ensures NonEmpty(Split('.', Join(".", parts))) == parts
  {
    if parts == [] {
      assert NonEmpty([""]) == [] + NonEmpty([""][1..]);
    } else {
      SplitJoin('.', parts);
      NonEmptyOfFull(parts);
    }
  }

  lemma PackageOf(mods: seq<string>, leaf: string)
    requires Identifiers(mods) && Identifier(leaf)
    ensures PackageParts(Join(".", mods + [leaf])) == mods
  {
    DottedParts(mods + [leaf]);
  }

  lemma {:induction false} LeadingDotsOf(n: nat, rest: string)
    requires rest == "" || rest[0] != '.'
    ensures LeadingDots(Dots(n) + rest) == n
  {
    var s := Dots(n) + rest;
    if n == 0 {
      assert s == rest;
    } else {
      assert s[1..] == Dots(n - 1) + rest;
      LeadingDotsOf(n - 1, rest);
    }
  }

  lemma WrittenImportIsStripped(level: nat, names: seq<string>)
    requires Identifiers(names) && level >= 1
    ensures var raw := Dots(level) + Join(".", names);
            Strip(raw) == raw && raw[0] == '.' && LeadingDots(raw) == level && raw[level..] == Join(".", names)
  {
    var suffix := Join(".", names);
    var raw := Dots(level) + suffix;
    DottedText(names);
    LeadingDotsOf(level, suffix);
    assert raw[0] == '.';
    assert !IsSpace(raw[|raw| - 1]) by { if names != [] { assert raw[|raw| - 1] == suffix[|suffix| - 1]; } }
    StripNoSpace(raw);
  }

  /** The parts that are left of the package, then the names. */
  function Resolved(mods: seq<string>, level: nat, names: seq<string>): seq<string>
    requires level >= 1
  {
    (if level <= |mods| then mods[..|mods| - level + 1] else []) + names
  }

  /** What the code computes for a written relative import. */
  lemma RelativeImport(mods: seq<string>, leaf: string, level: nat, names: seq<string>)
    requires Identifiers(mods) && Identifier(leaf) && Identifiers(names) && level >= 1
    ensures var r := NormalizeImport(Join(".", mods + [leaf]), Dots(level) + Join(".", names));
            r.kind == RELATIVE && r.normalized == Join(".", Resolved(mods, level, names))
  {
    var m, raw := Join(".", mods + [leaf]), Dots(level) + Join(".", names);
    WrittenImportIsStripped(level, names);
    Branches(m, raw);
    PackageOf(mods, leaf);
    DottedParts(names);
    DottedText(names);
    PartsOf(m, raw, mods, level, names);
  }

  lemma PartsOf(modulePath: string, raw: string, mods: seq<string>, level: nat, names: seq<string>)
    requires level >= 1 && LeadingDots(raw) == level && PackageParts(modulePath) == mods
    requires if raw[level..] == "" then names == [] else NonEmpty(Split('.', raw[level..])) == names
    ensures RelativeParts(modulePath, raw) == Resolved(mods, level, names)
  {
  }

  // ---------------------------------------------------------------- agreement with Python

  /** The position of the last dot, or -1. */
  function LastDot(s: string): (i: int)
    ensures -1 <= i < |s|
    ensures i >= 0 ==> s[i] == '.'
    ensures forall j | i < j < |s| :: s[j] != '.'
  {
    if s == "" then -1 else if s[|s| - 1] == '.' then |s| - 1 else LastDot(s[..|s| - 1])
  }

  /** The ancestor of a package, `n` levels up; a top-level package has none. */
  function Ancestor(package: string, n: nat): Option<string> {
    if n == 0 then Some(package)
    else if LastDot(package) < 0 then None
    else Ancestor(package[..LastDot(package)], n - 1)
  }

  /** Python Language Reference, section 5.7: one dot is the current package, each further dot its parent; going
      beyond the top-level package, or importing relatively outside any package, is an error. */
  function PythonResolve(package: string, level: nat, name: string): Option<string>
    requires level >= 1
  {
    if package == "" then None
    else
      match Ancestor(package, level - 1)
      case None => None
      case Some(base) => Some(if name == "" then base else base + "." + name)
  }

  lemma {:induction false} LastDotOf(front: string, last: string)
    requires '.' !in last
    ensures LastDot(front + "." + last) == |front|
  {
    var s, n := front + "." + last, |last| - 1;
    if last == "" {
      assert s[|s| - 1] == '.';
    } else {
      assert s[|s| - 1] == last[n] && last[n] in last;
      assert s[..|s| - 1] == front + "." + last[..n];
      LastDotOf(front, last[..n]);
    }
  }

  lemma NoDot(s: string)
    requires '.' !in s
    ensures LastDot(s) == -1
  {
  }

  lemma {:induction false} AncestorOf(mods: seq<string>, n: nat)
    requires Identifiers(mods) && mods != []
    ensures Ancestor(Join(".", mods), n) == if n < |mods| then Some(Join(".", mods[..|mods| - n])) else None
    decreases |mods|
  {
    if n == 0 {
      assert mods[..|mods|] == mods;
    } else if |mods| == 1 {
      NoDot(mods[0]);
    } else {
      var k := |mods| - 1;
      assert mods == mods[..k] + [mods[k]] && Join(".", [mods[k]]) == mods[k];
      hide Join, LastDot;
      JoinConcat(".", mods[..k], [mods[k]]);
      LastDotOf(Join(".", mods[..k]), mods[k]);
      var text := Join(".", mods);
      assert text[..|Join(".", mods[..k])|] == Join(".", mods[..k]);
      AncestorOf(mods[..k], n - 1);
      if n < |mods| { assert mods[..k][..k - (n - 1)] == mods[..|mods| - n]; }
    }
  }

  /** What Python answers, in terms of the parts. */
  lemma PythonResolves(mods: seq<string>, level: nat, names: seq<string>)
    requires Identifiers(mods) && Identifiers(names) && level >= 1
    ensures PythonResolve(Join(".", mods), level, Join(".", names)) ==
            if level <= |mods| then Some(Join(".", Resolved(mods, level, names))) else None
  {
    DottedText(mods);
    DottedText(names);
    if mods != [] {
      AncestorOf(mods, level - 1);
      if level <= |mods| {
        var base := mods[..|mods| - level + 1];
        if names == [] {
          assert base + names == base;
        } else {
          JoinConcat(".", base, names);
        }
      }
    }
  }

  /** For a module that is not a package the code agrees with Python, exactly as far as Python resolves the import:
      up to the depth of the package. Beyond it Python fails, and the code answers with the bare name. */
  lemma AgreesWithPython(mods: seq<string>, leaf: string, level: nat, names: seq<string>)
    requires Identifiers(mods) && Identifier(leaf) && Identifiers(names) && level >= 1
    ensures var code := NormalizeImport(Join(".", mods + [leaf]), Dots(level) + Join(".", names)).normalized;
            var python := PythonResolve(Join(".", mods), level, Join(".", names));
            && (python.Some? <==> level <= |mods|)
            && code == if python.Some? then python.value else Join(".", names)
  {
    RelativeImport(mods, leaf, level, names);
    PythonResolves(mods, level, names);
    assert [] + names == names;
  }

  lemma JoinInjective(a: seq<string>, b: seq<string>)
    requires Identifiers(a) && Identifiers(b) && Join(".", a) == Join(".", b)
    ensures a == b
  {
    DottedParts(a);
    DottedParts(b);
  }

  /** The `__init__` of a package is scanned under the package's own path. Its relative imports are resolved one
      level too high: as Python resolves them with one more dot, while that stays within the top level; and never
      as Python resolves them. */
  lemma PackageImportsGoTooHigh(package: seq<string>, level: nat, names: seq<string>)
    requires Identifiers(package) && package != [] && Identifiers(names) && level >= 1
    ensures var code := NormalizeImport(Join(".", package), Dots(level) + Join(".", names)).normalized;
            && (PythonResolve(Join(".", package), level, Join(".", names)).Some? <==> level <= |package|)
            && PythonResolve(Join(".", package), level, Join(".", names)) != Some(code)
            && (level < |package| ==> PythonResolve(Join(".", package), level + 1, Join(".", names)) == Some(code))
            && (level >= |package| ==> code == Join(".", names))
  {
    hide NormalizeImport, PythonResolve, Join, Dots, Identifiers, Identifier, Resolved;
    var n := |package| - 1;
    var mods, leaf := package[..n], package[n];
    assert package == mods + [leaf];
    SplitPackage(package);
    RelativeImport(mods, leaf, level, names);
    PythonResolves(package, level, names);
    PythonResolves(package, level + 1, names);
    OneLevelHigher(package, level, names);
    if level <= |package| && Join(".", Resolved(package, level, names)) == Join(".", Resolved(mods, level, names)) {
      JoinInjective(Resolved(package, level, names), Resolved(mods, level, names));
      assert false;
    }
  }

  lemma SplitPackage(package: seq<string>)
    requires Identifiers(package) && package != []
    ensures Identifiers(package[..|package| - 1]) && Identifier(package[|package| - 1])
  {
  }

  lemma OneLevelHigher(package: seq<string>, level: nat, names: seq<string>)
    requires Identifiers(package) && package != [] && Identifiers(names) && level >= 1
    ensures var python, code := Resolved(package, level, names), Resolved(package[..|package| - 1], level, names);
            && Identifiers(python) && Identifiers(code)
            && (level <= |package| ==> |python| == |code| + 1)
            && (if level < |package| then code == Resolved(package, level + 1, names) else code == names)
  {
    var mods := package[..|package| - 1];
    if level < |package| { assert mods[..|mods| - level + 1] == package[..|package| - level]; }
    assert [] + names == names;
    assert level == |package| ==> mods[..0] == [] && package[..1] + names != names;
  }

  /** Any target in the module's top-level package, written relative to any package it shares with the module,
      normalizes to itself. */
  lemma RelativeRoundTrip(mods: seq<string>, leaf: string, target: seq<string>, common: nat)
    requires Identifiers(mods) && Identifier(leaf) && Identifiers(target)
    requires 1 <= common <= |mods| && common <= |target| && mods[..common] == target[..common]
    ensures NormalizeImport(Join(".", mods + [leaf]), Dots(|mods| - common + 1) + Join(".", target[common..])).normalized
            == Join(".", target)
  {
    hide NormalizeImport, Join, Dots;
    RelativeImport(mods, leaf, |mods| - common + 1, target[common..]);
    assert mods[..common] + target[common..] == target;
  }

  // ---------------------------------------------------------------- normal forms

  lemma JoinHead(parts: seq<string>)
    requires forall p | p in parts :: p != "" && '.' !in p
    ensures Join(".", parts) == "" || Join(".", parts)[0] != '.'
  {
    if parts != [] { assert parts[0] in parts && parts[0][0] in parts[0]; }
  }

  lemma PartsAreNames(s: string)
    ensures forall p | p in NonEmpty(Split('.', s)) :: p != "" && '.' !in p
  {
    var parts := Split('.', s);
    forall p | p in NonEmpty(parts) ensures p != "" && '.' !in p { assert p in parts; }
  }

  lemma RelativePartsAreNames(modulePath: string, raw: string)
    ensures forall p | p in RelativeParts(modulePath, raw) :: p != "" && '.' !in p
  {
    hide Split, NonEmpty, PackageParts, LeadingDots;
    var level := LeadingDots(raw);
    var package := PackageParts(modulePath);
    var keep := if |package| - level + 1 < 0 then 0 else |package| - level + 1;
    var base := if keep <= |package| then package[..keep] else package;
    var names := if raw[level..] == "" then [] else NonEmpty(Split('.', raw[level..]));
    PartsAreNames(modulePath);
    PartsAreNames(raw[level..]);
    PackagePartsAreParts(modulePath);
    assert RelativeParts(modulePath, raw) == base + names;
    forall p | p in base + names ensures p != "" && '.' !in p { assert p in package || p in names; }
  }

  lemma PackagePartsAreParts(modulePath: string)
    ensures forall p | p in PackageParts(modulePath) :: p in NonEmpty(Split('.', modulePath))
  {
  }

  /** A normalized import never starts with a dot. */
  lemma NormalizedStartsWithName(modulePath: string, imported: string)
    ensures var n := NormalizeImport(modulePath, imported).normalized;
            n == "" || n[0] != '.'
  {
    Branches(modulePath, imported);
    RelativePartsAreNames(modulePath, Strip(imported));
    JoinHead(RelativeParts(modulePath, Strip(imported)));
  }

  lemma StripShortens(n: string)
    requires Strip(n) != n
    ensures |Strip(n)| < |n|
  {
    var l := LStripBy(IsSpace, n);
    assert |l| == |n| ==> l == n;
    assert |Strip(n)| == |l| ==> Strip(n) == l;
  }

  lemma NoPackage()
    ensures PackageParts("") == []
  {
    assert Split('.', "") == [""] && NonEmpty([""]) == NonEmpty([""][1..]);
  }

  lemma NormalizeShortens(n: string)
    requires Strip(n) != n
    ensures |NormalizeImport("", n).normalized| < |n|
  {
    var raw := Strip(n);
    StripShortens(n);
    Branches("", n);
    if raw != "" && raw[0] == '.' {
      var suffix := raw[LeadingDots(raw)..];
      NoPackage();
      JoinSplit('.', suffix);
      NonEmptyShorter(".", Split('.', suffix));
      assert RelativeParts("", raw) == if suffix == "" then [] else NonEmpty(Split('.', suffix));
    }
  }

  /** A normalized import is a normal form for every importing module exactly when it carries no white space at its
      ends. */
  lemma NormalFormIffStripped(modulePath: string, imported: string)
    ensures var n := NormalizeImport(modulePath, imported).normalized;
            (forall m :: NormalizeImport(m, n).normalized == n) <==> Strip(n) == n
  {
    hide NormalizeImport, Strip;
    var n := NormalizeImport(modulePath, imported).normalized;
    NormalizedStartsWithName(modulePath, imported);
    if Strip(n) == n {
      forall m ensures NormalizeImport(m, n).normalized == n { Branches(m, n); }
    } else {
      NormalizeShortens(n);
      assert NormalizeImport("", n).normalized != n;
    }
  }

  /** With names free of white space the normalized import is a normal form. */
  lemma IdentifiersNormalize(mods: seq<string>, leaf: string, level: nat, names: seq<string>)
    requires Identifiers(mods) && Identifier(leaf) && Identifiers(names) && level >= 1
    ensures var n := NormalizeImport(Join(".", mods + [leaf]), Dots(level) + Join(".", names)).normalized;
            forall m :: NormalizeImport(m, n).normalized == n
  {
    hide NormalizeImport, Join, Dots, Identifier, Strip;
    var m, raw := Join(".", mods + [leaf]), Dots(level) + Join(".", names);
    RelativeImport(mods, leaf, level, names);
    DottedText(Resolved(mods, level, names));
    NormalFormIffStripped(m, raw);
    StripNoSpace(NormalizeImport(m, raw).normalized);
  }

  lemma TopLevelParts(raw: string, text: string)
    requires text != "" && '.' !in text && raw != "" && raw[0] == '.' && raw[1..] == text
    ensures RelativeParts("", raw) == [text]
  {
    assert text[0] in text;
    assert LeadingDots(raw) == 1;
    SplitWithout('.', text);
    NonEmptyOfFull([text]);
    NoPackage();
    PartsOf("", raw, [], 1, [text]);
  }

  /** Outside any package a relative import is whatever follows its dot, front spaces included; the result is not
      a normal form when it starts with a space. */
  lemma SpacedImportIsNoNormalForm(raw: string, spaced: string, name: string)
    requires Identifier(name) && spaced != "" && spaced[0] == ' ' && spaced[1..] == name
    requires raw != "" && raw[0] == '.' && raw[1..] == spaced
    ensures NormalizeImport("", raw).normalized == spaced
    ensures NormalizeImport("", spaced).normalized == name
  {
    SpacedEnds(raw, spaced, name);
    Branches("", raw);
    TopLevelParts(raw, spaced);
    SpacedName(spaced, name);
  }

  lemma SpacedEnds(raw: string, spaced: string, name: string)
    requires Identifier(name) && spaced != "" && spaced[0] == ' ' && spaced[1..] == name
    requires raw != "" && raw[0] == '.' && raw[1..] == spaced
    ensures Strip(raw) == raw && '.' !in spaced
  {
    assert forall i | 0 < i < |spaced| :: spaced[i] == name[i - 1];
    assert raw[|raw| - 1] == name[|name| - 1];
    StripNoSpace(raw);
  }

  lemma SpacedName(spaced: string, name: string)
    requires Identifier(name) && spaced != "" && spaced[0] == ' ' && spaced[1..] == name
    ensures NormalizeImport("", spaced).normalized == name
  {
    assert name[0] in name;
    StripSkip(spaced);
    StripNoSpace(name);
    Branches("", spaced);
  }
}
