/**
 The canonical text of a command: `json.dumps(..., sort_keys=True, ensure_ascii=False,
 separators=(",", ":"))`. A reader written from RFC 8259 reads the value back from it; so it is injective.

 `PyValue` is what the caller holds: a Python tree whose dictionaries remember insertion order.
 `Value` is what it means: the same tree with dictionaries as maps.
 */
module CanonicalJson {
  import opened JsonReader
  import opened Options
  import opened PyText

  /** `PFloat` carries the text that `float.__repr__` (or NaN/Infinity/-Infinity) prints. */
  datatype PyValue =
    | PNone
    | PBool(b: bool)
    | PInt(n: int)
    | PFloat(token: string)
    | PStr(s: string)
    | PList(items: seq<PyValue>)
    | PDict(entries: seq<Entry>)

  datatype Entry = Entry(key: string, val: PyValue)

  // ---------------------------------------------------------------- well-formed Python trees

  /** What `float.__repr__` prints: one of three words, or a number of RFC 8259, section 6, with a fraction or an
      exponent. */
  predicate IsFloatToken(t: string) {
    t == "NaN" || t == "Infinity" || t == "-Infinity" || (0 < IntEnd(t) < NumberEnd(t) && NumberEnd(t) == |t|)
  }

  function KeyOf(e: Entry): string { e.key }

  function Keys(es: seq<Entry>): (r: seq<string>)
    ensures |r| == |es| && forall i :: 0 <= i < |es| ==> r[i] == es[i].key
  {
    seq(|es|, i requires 0 <= i < |es| => es[i].key)
  }

  /** A dictionary has one entry per key; floats carry float text. */
  predicate WellFormed(p: PyValue) {
    match p
    case PFloat(t) => IsFloatToken(t)
    case PList(items) => forall i | 0 <= i < |items| :: WellFormed(items[i])
    case PDict(es) => Distinct(Keys(es)) && forall i | 0 <= i < |es| :: WellFormed(es[i].val)
    case _ => true
  }

  // ---------------------------------------------------------------- meaning

  function Meaning(p: PyValue): Value
    decreases p, 0
  {
    match p
    case PNone => VNone
    case PBool(b) => VBool(b)
    case PInt(n) => VInt(n)
    case PFloat(t) => VFloat(t)
    case PStr(s) => VStr(s)
    case PList(items) => VList(seq(|items|, i requires 0 <= i < |items| => Meaning(items[i])))
    case PDict(es) => VDict(MeaningOfEntries(es))
  }

  /** The map a list of entries denotes. */
  function MeaningOfEntries(es: seq<Entry>): (m: map<string, Value>)
    ensures forall k :: k in m <==> exists i :: 0 <= i < |es| && es[i].key == k
    decreases es, 1
  {
    if es == [] then map[]
    else
      assert forall i :: 0 < i < |es| ==> es[i] == es[1..][i - 1];
      MeaningOfEntries(es[1..])[es[0].key := Meaning(es[0].val)]
  }

  // ---------------------------------------------------------------- scalars

  function DigitChar(d: nat): char
    requires d < 10
  {
    ('0' as int + d) as char
  }

  function NatText(n: nat): string {
    if n < 10 then [DigitChar(n)] else NatText(n / 10) + [DigitChar(n % 10)]
  }

  function IntText(n: int): string { if n < 0 then "-" + NatText(-n) else NatText(n) }

  predicate IsScalar(p: PyValue) { !p.PStr? && !p.PList? && !p.PDict? }

  function ScalarText(p: PyValue): string
    requires IsScalar(p)
  {
    match p
    case PNone => "null"
    case PBool(b) => if b then "true" else "false"
    case PInt(n) => IntText(n)
    case PFloat(t) => t
  }

  // ---------------------------------------------------------------- strings

  function HexChar(d: nat): char
    requires d < 16
  {
    if d < 10 then DigitChar(d) else ('a' as int + d - 10) as char
  }

  /** Only the quote, the backslash and the controls below U+0020 are escaped. */
  function EscapeChar(c: char): string {
    if c == '\"' then "\\\""
    else if c == '\\' then "\\\\"
    else if c == '\n' then "\\n"
    else if c == '\r' then "\\r"
    else if c == '\t' then "\\t"
    else if c == '\U{000C}' then "\\f"
    else if c == '\U{0008}' then "\\b"
    else if c < ' ' then "\\u00" + [HexChar(c as int / 16)] + [HexChar(c as int % 16)]
    else [c]
  }

  /** The escaped characters and the closing quote. */
  function QuoteTail(s: string): string {
    if s == "" then "\"" else EscapeChar(s[0]) + QuoteTail(s[1..])
  }

  function Quote(s: string): string { "\"" + QuoteTail(s) }

  // ---------------------------------------------------------------- the printer

  function Dump(p: PyValue): string
    decreases p, 1
  {
    match p
    case PStr(s) => Quote(s)
    case PList(items) => "[" + DumpItems(items, true)
    case PDict(es) =>
      SortByMembers(KeyOf, es);
      "{" + DumpEntries(p, SortBy(KeyOf, es), true)
    case _ => ScalarText(p)
  }

  function DumpItems(items: seq<PyValue>, first: bool): string
    decreases items, 0
  {
    if items == [] then "]"
    else (if first then "" else ",") + Dump(items[0]) + DumpItems(items[1..], false)
  }

  function DumpEntries(p: PyValue, es: seq<Entry>, first: bool): string
    requires p.PDict? && forall e | e in es :: e in p.entries
    decreases p, 0, |es|
  {
    if es == [] then "}"
    else
      assert es[0] in p.entries;
      (if first then "" else ",") + Quote(es[0].key) + ":" + Dump(es[0].val)
      + DumpEntries(p, es[1..], false)
  }

  /** A dictionary display with the given keys. */
  function Record(names: seq<string>, xs: seq<PyValue>): PyValue
    requires |names| == |xs|
  {
    PDict(seq(|xs|, i requires 0 <= i < |xs| => Entry(names[i], xs[i])))
  }

  const COMMAND_FIELDS := ["kind", "subject", "name", "parameters"]

  /** `_canonical`: the four fields of a command as one JSON object. */
  function Canonical(kind: string, subject: string, name: string, parameters: PyValue): string {
    Dump(Record(COMMAND_FIELDS, [PStr(kind), PStr(subject), PStr(name), parameters]))
  }

  // ---------------------------------------------------------------- concatenation

  lemma Assoc(s: string, d: string, t: string, a: string)
    ensures s + d + t + a == s + (d + (t + a))
  {
  }

  // ---------------------------------------------------------------- reading scalars back

  /** What can follow a complete value without white space. */
  predicate Follows(a: string) { a == "" || a[0] == ',' || a[0] == ']' || a[0] == '}' }

  lemma {:induction false} DigitsStop(s: string, a: string)
    requires Follows(a)
    ensures Digits(s + a) == Digits(s)
  {
    if s == "" {
      assert s + a == a;
    } else {
      assert (s + a)[1..] == s[1..] + a;
      DigitsStop(s[1..], a);
    }
  }

  lemma NumberPartsStop(s: string, a: string)
    requires Follows(a)
    ensures IntLength(s + a) == IntLength(s) && FracLength(s + a) == FracLength(s)
  {
    DigitsStop(s, a);
    if s == "" {
      assert s + a == a;
    } else {
      assert (s + a)[1..] == s[1..] + a;
      DigitsStop(s[1..], a);
    }
  }

  lemma ExpStops(s: string, a: string)
    requires Follows(a)
    ensures ExpLength(s + a) == ExpLength(s)
  {
    if s == "" {
      assert s + a == a;
    } else if s[0] == 'e' || s[0] == 'E' {
      var k := if |s| > 1 && (s[1] == '+' || s[1] == '-') then 2 else 1;
      assert |s| > 1 ==> (s + a)[1] == s[1];
      assert |s| == 1 && a != "" ==> (s + a)[1] == a[0];
      assert (s + a)[k..] == s[k..] + a;
      DigitsStop(s[k..], a);
    }
  }

  lemma NumberStops(s: string, a: string)
    requires Follows(a)
    ensures IntEnd(s + a) == IntEnd(s) && NumberEnd(s + a) == NumberEnd(s) && Sign(s + a) == Sign(s)
  {
    hide Digits, IntLength, FracLength, ExpLength;
    SignStops(s, a);
    TailOfText(s, a, Sign(s));
    NumberPartsStop(s[Sign(s)..], a);
    TailOfText(s, a, IntEnd(s));
    NumberPartsStop(s[IntEnd(s)..], a);
    var m := IntEnd(s) + FracLength(s[IntEnd(s)..]);
    TailOfText(s, a, m);
    ExpStops(s[m..], a);
  }

  lemma SignStops(s: string, a: string)
    requires Follows(a)
    ensures Sign(s + a) == Sign(s)
  {
    if s == "" { assert s + a == a; }
  }

  lemma TailOfText(s: string, a: string, k: nat)
    requires k <= |s|
    ensures (s + a)[k..] == s[k..] + a
  {
  }

  lemma {:induction false} AllDigits(t: string)
    requires forall i | 0 <= i < |t| :: Digit(t[i])
    ensures Digits(t) == |t|
  {
    if t != "" { AllDigits(t[1..]); }
  }

  lemma {:induction false} DecimalSnoc(t: string, c: char)
    ensures Decimal(t + [c]) == 10 * Decimal(t) + (c as int - 0x30)
  {
    var u := t + [c];
    if t == "" {
      assert u[1..] == "" && Pow10(0) == 1;
    } else {
      assert u[1..] == t[1..] + [c];
      DecimalSnoc(t[1..], c);
      assert Pow10(|t|) == 10 * Pow10(|t| - 1);
    }
  }

  lemma {:induction false} NatTextReads(n: nat)
    ensures NatText(n) != "" && forall i | 0 <= i < |NatText(n)| :: Digit(NatText(n)[i])
    ensures NatText(n)[0] == '0' ==> n == 0 && |NatText(n)| == 1
    ensures Decimal(NatText(n)) == n
  {
    if n < 10 {
      DecimalSnoc("", DigitChar(n));
      assert "" + [DigitChar(n)] == [DigitChar(n)];
    } else {
      NatTextReads(n / 10);
      DecimalSnoc(NatText(n / 10), DigitChar(n % 10));
    }
  }

  lemma IntTextReads(n: int)
    ensures var t := IntText(n); IntEnd(t) == NumberEnd(t) == |t| && |t| > 0 && ReadNumber(t) == Parsed(VInt(n), "")
    ensures IntText(n)[0] == '-' || Digit(IntText(n)[0])
  {
    var m := if n < 0 then -n else n;
    var t, d := IntText(n), NatText(m);
    NatTextReads(m);
    AllDigits(d);
    assert t[Sign(t)..] == d;
    assert IntEnd(t) == |t| && t[|t|..] == "";
    assert t[Sign(t)..|t|] == d;
  }

  lemma NumberStart(t: string)
    requires IntEnd(t) > 0
    ensures t != "" && (Digit(t[0]) || (t[0] == '-' && |t| > 1 && Digit(t[1])))
  {
    assert t[Sign(t)..] != "" && t[Sign(t)..][0] == t[Sign(t)];
  }

  /** A text that starts like a number is none of the words. */
  lemma NumberIsNoWord(t: string)
    requires t != "" && (Digit(t[0]) || (t[0] == '-' && |t| > 1 && Digit(t[1])))
    ensures ReadScalar(t) == ReadNumber(t)
  {
    assert "-Infinity"[1] == 'I';
  }

  lemma NumberReads(t: string, a: string)
    requires 0 < IntEnd(t) && NumberEnd(t) == |t| && Follows(a)
    ensures ReadNumber(t).Parsed? && ReadScalar(t + a) == Parsed(ReadNumber(t).value, a)
    ensures IntEnd(t) < |t| ==> ReadNumber(t).value == VFloat(t)
  {
    NumberStops(t, a);
    NumberStart(t);
    assert (t + a)[0] == t[0] && (|t| > 1 ==> (t + a)[1] == t[1]);
    NumberIsNoWord(t + a);
    assert (t + a)[|t|..] == a && (t + a)[..|t|] == t && t[..|t|] == t;
    assert (t + a)[Sign(t)..|t|] == t[Sign(t)..|t|];
  }

  lemma WordsRead(a: string)
    ensures ReadScalar("null" + a) == Parsed(VNone, a)
    ensures ReadScalar("true" + a) == Parsed(VBool(true), a)
    ensures ReadScalar("false" + a) == Parsed(VBool(false), a)
  {
    WordReads("null", a);
    WordReads("true", a);
    WordReads("false", a);
  }

  lemma FloatWordsRead(a: string)
    ensures ReadScalar("NaN" + a) == Parsed(VFloat("NaN"), a)
    ensures ReadScalar("Infinity" + a) == Parsed(VFloat("Infinity"), a)
    ensures ReadScalar("-Infinity" + a) == Parsed(VFloat("-Infinity"), a)
  {
    NaNReads(a);
    InfinityReads(a);
    MinusInfinityReads(a);
  }

  lemma NaNReads(a: string)
    ensures ReadScalar("NaN" + a) == Parsed(VFloat("NaN"), a)
  {
    WordReads("NaN", a);
  }

  lemma InfinityReads(a: string)
    ensures ReadScalar("Infinity" + a) == Parsed(VFloat("Infinity"), a)
  {
    WordReads("Infinity", a);
  }

  lemma MinusInfinityReads(a: string)
    ensures ReadScalar("-Infinity" + a) == Parsed(VFloat("-Infinity"), a)
  {
    WordReads("-Infinity", a);
  }

  lemma WordReads(word: string, a: string)
    ensures word <= word + a && (word + a)[|word|..] == a
    ensures word != "" ==> (word + a)[0] == word[0]
  {
  }

  lemma ScalarReads(p: PyValue, a: string)
    requires IsScalar(p) && WellFormed(p) && Follows(a)
    ensures ReadScalar(ScalarText(p) + a) == Parsed(Meaning(p), a)
  {
    match p
    case PNone => WordsRead(a);
    case PBool(_) => WordsRead(a);
    case PInt(n) =>
      IntTextReads(n);
      NumberReads(IntText(n), a);
    case PFloat(t) =>
      FloatWordsRead(a);
      if 0 < IntEnd(t) < NumberEnd(t) && NumberEnd(t) == |t| { NumberReads(t, a); }
  }

  lemma ScalarStart(p: PyValue)
    requires IsScalar(p) && WellFormed(p)
    ensures ScalarText(p) != "" && !Structural(ScalarText(p)[0]) && !IsWs(ScalarText(p)[0])
  {
    match p
    case PInt(n) => IntTextReads(n);
    case PFloat(t) => FloatStart(t);
    case _ =>
  }

  lemma FloatStart(t: string)
    requires IsFloatToken(t)
    ensures t != "" && !Structural(t[0]) && !IsWs(t[0])
  {
    if 0 < IntEnd(t) { NumberStart(t); }
  }

  predicate Structural(c: char) {
    c == ',' || c == ':' || c == ']' || c == '}' || c == '[' || c == '{' || c == '\"'
  }

  // ---------------------------------------------------------------- reading strings back

  lemma HexReads(d: nat)
    requires d < 16
    ensures HexValue(HexChar(d)) == Some(d)
  {
  }

  /** Every escape is read as the character it stands for. */
  lemma EscapeReads(c: char, x: string)
    ensures EscapeChar(c) != "" && EscapeChar(c)[0] != '\"'
    ensures ReadChar(EscapeChar(c) + x) == Parsed(c, x)
  {
    var t := EscapeChar(c) + x;
    assert t[|EscapeChar(c)|..] == x;
    if |EscapeChar(c)| == 2 {
      assert t[0] == EscapeChar(c)[0] && t[1] == EscapeChar(c)[1];
    } else if |EscapeChar(c)| == 6 {
      ControlReads(c, x);
    }
  }

  lemma ControlReads(c: char, x: string)
    requires c < ' '
    ensures var e := "\\u00" + [HexChar(c as int / 16)] + [HexChar(c as int % 16)]; ReadChar(e + x) == Parsed(c, x)
  {
    var high, low := c as int / 16, c as int % 16;
    var e := "\\u00" + [HexChar(high)] + [HexChar(low)];
    var t := e + x;
    HexReads(high);
    HexReads(low);
    HexReads(0);
    assert t[0] == '\\' && t[1] == 'u' && t[2] == '0' && t[3] == '0' && t[4] == HexChar(high) && t[5] == HexChar(low);
    assert t[2..][4..] == x;
    assert HexQuad(t[2..]) == Some(16 * high + low);
  }

  lemma QuoteTailStep(s: string, a: string)
    requires s != ""
    ensures QuoteTail(s) + a == EscapeChar(s[0]) + (QuoteTail(s[1..]) + a)
  {
  }

  lemma CharThenChars(t: string, c: char, rest: string, s: string, a: string)
    requires t != "" && t[0] != '\"' && ReadChar(t) == Parsed(c, rest) && ReadChars(rest) == Parsed(s, a)
    ensures ReadChars(t) == Parsed([c] + s, a)
  {
    hide ReadChar;
  }

  lemma {:induction false} QuoteReads(s: string, a: string)
    ensures ReadChars(QuoteTail(s) + a) == Parsed(s, a)
  {
    if s == "" {
      assert ("\"" + a)[1..] == a;
    } else {
      QuoteTailStep(s, a);
      EscapeReads(s[0], QuoteTail(s[1..]) + a);
      hide EscapeChar, ReadChar, ReadChars, QuoteTail;
      QuoteReads(s[1..], a);
      var t := EscapeChar(s[0]) + (QuoteTail(s[1..]) + a);
      assert t[0] == EscapeChar(s[0])[0];
      CharThenChars(t, s[0], QuoteTail(s[1..]) + a, s[1..], a);
      assert [s[0]] + s[1..] == s;
    }
  }

  // ---------------------------------------------------------------- dictionaries as maps

  lemma {:induction false} MeaningAt(es: seq<Entry>, i: nat)
    requires i < |es| && Distinct(Keys(es))
    ensures es[i].key in MeaningOfEntries(es)
    ensures MeaningOfEntries(es)[es[i].key] == Meaning(es[i].val)
  {
    if i > 0 {
      assert Keys(es)[1..] == Keys(es[1..]);
      assert Keys(es)[0] != Keys(es)[i];
      MeaningAt(es[1..], i - 1);
    }
  }

  /** The order of insertion does not matter. */
  lemma SameEntriesSameMap(es: seq<Entry>, fs: seq<Entry>)
    requires Distinct(Keys(es)) && Distinct(Keys(fs))
    requires forall e :: e in es <==> e in fs
    ensures MeaningOfEntries(es) == MeaningOfEntries(fs)
  {
    var m, n := MeaningOfEntries(es), MeaningOfEntries(fs);
    forall k ensures (k in m <==> k in n) && (k in m ==> m[k] == n[k]) {
      if i :| 0 <= i < |es| && es[i].key == k {
        assert es[i] in fs;
        var j :| 0 <= j < |fs| && fs[j] == es[i];
        MeaningAt(es, i);
        MeaningAt(fs, j);
      } else if j :| 0 <= j < |fs| && fs[j].key == k {
        assert fs[j] in es;
      }
    }
  }

  /** The entries of a dictionary in the order the printer visits them. */
  function Sorted(es: seq<Entry>): seq<Entry> { SortBy(KeyOf, es) }

  lemma SortedEntries(es: seq<Entry>)
    requires Distinct(Keys(es))
    ensures forall e :: e in Sorted(es) <==> e in es
    ensures StrictlySorted(Keys(Sorted(es)))
    ensures MeaningOfEntries(Sorted(es)) == MeaningOfEntries(es)
  {
    var s := Sorted(es);
    SortByCorrect(KeyOf, es);
    SortByMembers(KeyOf, es);
    assert Distinct(es) by {
      forall i, j | 0 <= i < j < |es| ensures es[i] != es[j] { assert Keys(es)[i] != Keys(es)[j]; }
    }
    DistinctPermutation(es, s);
    forall i, j | 0 <= i < j < |s| ensures Keys(s)[i] != Keys(s)[j] {
      assert s[i] in es && s[j] in es && s[i] != s[j];
      var x :| 0 <= x < |es| && es[x] == s[i];
      var y :| 0 <= y < |es| && es[y] == s[j];
      assert Keys(es)[x] != Keys(es)[y];
    }
    forall i, j | 0 <= i < j < |s| ensures StrLeq(Keys(s)[i], Keys(s)[j]) {
      assert StrLeq(KeyOf(s[i]), KeyOf(s[j]));
    }
    SameEntriesSameMap(es, s);
  }

  // ---------------------------------------------------------------- reading lists and dictionaries back

  /** The first character tells strings, lists, dictionaries and scalars apart. */
  lemma DumpHead(p: PyValue)
    requires WellFormed(p)
    ensures Dump(p) != "" && !IsWs(Dump(p)[0]) && Dump(p)[0] != ']' && Dump(p)[0] != '}'
    ensures IsScalar(p) ==> !Structural(Dump(p)[0])
  {
    if IsScalar(p) { ScalarStart(p); }
  }

  lemma ItemsHead(xs: seq<PyValue>)
    requires forall i | 0 <= i < |xs| :: WellFormed(xs[i])
    ensures DumpItems(xs, false) != "" && Follows(DumpItems(xs, false))
    ensures xs != [] ==> DumpItems(xs, true) != "" && Dump(xs[0]) != "" && DumpItems(xs, true)[0] == Dump(xs[0])[0]
  {
    if xs != [] { DumpHead(xs[0]); }
  }

  lemma EntriesHead(p: PyValue, es: seq<Entry>)
    requires p.PDict? && forall e | e in es :: e in p.entries
    ensures DumpEntries(p, es, false) != "" && Follows(DumpEntries(p, es, false))
  {
  }

  ghost predicate SameItems(xs: seq<PyValue>, ys: seq<PyValue>) {
    |xs| == |ys| && forall i | 0 <= i < |xs| :: Meaning(xs[i]) == Meaning(ys[i])
  }

  ghost predicate SameEntries(es: seq<Entry>, fs: seq<Entry>) {
    |es| == |fs| && forall i | 0 <= i < |es| :: es[i].key == fs[i].key && Meaning(es[i].val) == Meaning(fs[i].val)
  }

  lemma {:induction false} SameEntriesMeaning(es: seq<Entry>, fs: seq<Entry>)
    requires SameEntries(es, fs)
    ensures MeaningOfEntries(es) == MeaningOfEntries(fs)
  {
    if es != [] { SameEntriesMeaning(es[1..], fs[1..]); }
  }

  lemma Unwrap(p: PyValue, a: string)
    requires WellFormed(p)
    ensures p.PList? ==> Dump(p) + a == "[" + (DumpItems(p.items, true) + a)
    ensures p.PDict? ==> (forall e | e in Sorted(p.entries) :: e in p.entries)
    ensures p.PDict? ==> Dump(p) + a == "{" + (DumpEntries(p, Sorted(p.entries), true) + a)
  {
    hide Quote, ScalarText, DumpItems, DumpEntries;
    match p
    case PList(xs) => Opened("[", DumpItems(xs, true), a);
    case PDict(es) =>
      SortByMembers(KeyOf, es);
      Opened("{", DumpEntries(p, Sorted(es), true), a);
    case _ =>
  }

  lemma Opened(open: string, t: string, a: string)
    ensures open + t + a == open + (t + a)
  {
  }

  function Separator(first: bool): string { if first then "" else "," }

  lemma ItemsStep(xs: seq<PyValue>, first: bool, a: string)
    requires xs != []
    ensures DumpItems(xs, first) + a == Separator(first) + (Dump(xs[0]) + (DumpItems(xs[1..], false) + a))
  {
    Assoc(Separator(first), Dump(xs[0]), DumpItems(xs[1..], false), a);
  }

  lemma EntriesStep(p: PyValue, es: seq<Entry>, first: bool, a: string)
    requires p.PDict? && es != [] && forall e | e in es :: e in p.entries
    ensures es[0] in p.entries && forall e | e in es[1..] :: e in p.entries
    ensures DumpEntries(p, es, first) + a ==
            Separator(first) + (Quote(es[0].key) + (":" + (Dump(es[0].val) + (DumpEntries(p, es[1..], false) + a))))
  {
    assert es[0] in p.entries;
    var k, d, t := Quote(es[0].key), Dump(es[0].val), DumpEntries(p, es[1..], false);
    assert DumpEntries(p, es, first) == Separator(first) + k + ":" + d + t;
    Assoc(Separator(first) + k + ":", d, t, a);
    Assoc(Separator(first), k, ":", d + (t + a));
  }

  lemma NoWs(t: string)
    requires t == "" || !IsWs(t[0])
    ensures SkipWs(t) == t
  {
  }

  function Meanings(xs: seq<PyValue>): seq<Value> { seq(|xs|, i requires 0 <= i < |xs| => Meaning(xs[i])) }

  /** Reading a printed value back gives its meaning, and leaves what follows it. */
  lemma {:induction false} DumpReads(p: PyValue, a: string)
    requires WellFormed(p) && Follows(a)
    ensures ReadValue(Dump(p) + a) == Parsed(Meaning(p), a)
    decreases p, 1
  {
    DumpHead(p);
    assert (Dump(p) + a)[0] == Dump(p)[0];
    hide DumpItems, DumpEntries, QuoteTail, ReadChars, ReadArray, ReadObject, ReadScalar, SkipWs;
    match p
    case PStr(s) =>
      assert (Dump(p) + a)[1..] == QuoteTail(s) + a;
      QuoteReads(s, a);
    case PList(xs) =>
      Unwrap(p, a);
      assert (Dump(p) + a)[1..] == DumpItems(xs, true) + a;
      ListReads(xs, a);
    case PDict(es) =>
      SortedEntries(es);
      Unwrap(p, a);
      assert (Dump(p) + a)[1..] == DumpEntries(p, Sorted(es), true) + a;
      DictReads(p, Sorted(es), a);
    case _ => ScalarReads(p, a);
  }

  lemma {:induction false} ListReads(xs: seq<PyValue>, a: string)
    requires forall i | 0 <= i < |xs| :: WellFormed(xs[i])
    ensures ReadArray(SkipWs(DumpItems(xs, true) + a)) == Parsed(Meanings(xs), a)
    decreases xs, 2
  {
    var t := DumpItems(xs, true) + a;
    if xs == [] {
      assert t[0] == ']' && t[1..] == a && Meanings(xs) == [];
      NoWs(t);
    } else {
      DumpHead(xs[0]);
      ItemsHead(xs);
      assert t[0] == Dump(xs[0])[0];
      NoWs(t);
      ItemsStep(xs, true, a);
      var u := Dump(xs[0]) + (DumpItems(xs[1..], false) + a);
      assert t == Separator(true) + u == u;
      ItemsRead(xs, a);
      assert ReadArray(u) == ReadItems(u);
    }
  }

  lemma {:induction false} ItemsRead(xs: seq<PyValue>, a: string)
    requires xs != [] && forall i | 0 <= i < |xs| :: WellFormed(xs[i])
    ensures ReadItems(Dump(xs[0]) + (DumpItems(xs[1..], false) + a)) == Parsed(Meanings(xs), a)
    decreases xs, 1
  {
    hide ReadValue, Dump, DumpItems;
    var more := xs[1..];
    var next := DumpItems(more, false) + a;
    ItemsHead(more);
    assert next[0] == DumpItems(more, false)[0];
    DumpReads(xs[0], next);
    NoWs(next);
    assert [Meaning(xs[0])] + Meanings(more) == Meanings(xs);
    var t := Dump(xs[0]) + next;
    assert ReadValue(t) == Parsed(Meaning(xs[0]), next);
    if more == [] {
      LastItem(a);
      assert next == DumpItems([], false) + a;
      assert Meanings(xs) == [Meaning(xs[0])];
    } else {
      ItemsStep(more, false, a);
      MoreFollow(Dump(more[0]) + (DumpItems(more[1..], false) + a));
      DumpHead(more[0]);
      assert (Dump(more[0]) + (DumpItems(more[1..], false) + a))[0] == Dump(more[0])[0];
      NoWs(Dump(more[0]) + (DumpItems(more[1..], false) + a));
      ItemsRead(more, a);
    }
  }

  lemma LastItem(a: string)
    ensures var next := DumpItems([], false) + a; next != "" && next[0] == ']' && next[1..] == a
  {
  }

  lemma MoreFollow(t: string)
    ensures var next := Separator(false) + t; next != "" && next[0] == ',' && next[1..] == t
  {
  }

  lemma {:induction false} DictReads(p: PyValue, es: seq<Entry>, a: string)
    requires p.PDict? && WellFormed(p) && Distinct(Keys(es)) && forall e | e in es :: e in p.entries
    ensures ReadObject(SkipWs(DumpEntries(p, es, true) + a)) == Parsed(MeaningOfEntries(es), a)
    decreases p, 0, |es| + 1
  {
    var t := DumpEntries(p, es, true) + a;
    if es == [] {
      assert t[0] == '}' && t[1..] == a;
      NoWs(t);
    } else {
      EntriesStep(p, es, true, a);
      var u := Quote(es[0].key) + (":" + (Dump(es[0].val) + (DumpEntries(p, es[1..], false) + a)));
      assert Separator(true) + u == u;
      assert u[0] == '\"';
      NoWs(u);
      EntriesRead(p, es, a);
    }
  }

  lemma {:induction false} MemberReads(key: string, val: PyValue, next: string)
    requires ReadValue(Dump(val) + next) == Parsed(Meaning(val), next) && WellFormed(val)
    ensures ReadMember(Quote(key) + (":" + (Dump(val) + next))) == Parsed((key, Meaning(val)), next)
  {
    hide ReadValue, Dump;
    var x := ":" + (Dump(val) + next);
    var t := Quote(key) + x;
    assert t[0] == '\"' && t[1..] == QuoteTail(key) + x;
    QuoteReads(key, x);
    assert x[0] == ':' && x[1..] == Dump(val) + next;
    NoWs(x);
    DumpHead(val);
    assert (Dump(val) + next)[0] == Dump(val)[0];
    NoWs(Dump(val) + next);
  }

  lemma {:induction false} EntriesRead(p: PyValue, es: seq<Entry>, a: string)
    requires p.PDict? && WellFormed(p) && es != [] && Distinct(Keys(es)) && forall e | e in es :: e in p.entries
    ensures es[0] in p.entries && forall e | e in es[1..] :: e in p.entries
    ensures ReadMembers(Quote(es[0].key) + (":" + (Dump(es[0].val) + (DumpEntries(p, es[1..], false) + a)))) == Parsed(MeaningOfEntries(es), a)
    decreases p, 0, |es|
  {
    hide ReadValue, ReadMember, Dump, DumpEntries, Quote;
    EntriesStep(p, es, true, a);
    var e, more := es[0], es[1..];
    EntriesHead(p, more);
    var next := DumpEntries(p, more, false) + a;
    assert next[0] == DumpEntries(p, more, false)[0];
    DumpReads(e.val, next);
    MemberReads(e.key, e.val, next);
    NoWs(next);
    assert Keys(more) == Keys(es)[1..];
    FirstEntry(es);
    if more == [] {
      LastEntry(p, a);
    } else {
      EntriesStep(p, more, false, a);
      var u := Quote(more[0].key) + (":" + (Dump(more[0].val) + (DumpEntries(p, more[1..], false) + a)));
      MoreFollow(u);
      QuoteStart(more[0].key, ":" + (Dump(more[0].val) + (DumpEntries(p, more[1..], false) + a)));
      NoWs(u);
      EntriesRead(p, more, a);
    }
  }

  lemma LastEntry(p: PyValue, a: string)
    requires p.PDict?
    ensures var next := DumpEntries(p, [], false) + a; next != "" && next[0] == '}' && next[1..] == a
  {
  }

  lemma QuoteStart(key: string, x: string)
    ensures Quote(key) + x != "" && !IsWs((Quote(key) + x)[0])
  {
  }

  /** With distinct keys the order in which members replace each other does not matter. */
  lemma FirstEntry(es: seq<Entry>)
    requires es != [] && Distinct(Keys(es))
    ensures MeaningOfEntries(es) == map[es[0].key := Meaning(es[0].val)] + MeaningOfEntries(es[1..])
    ensures |es| == 1 ==> MeaningOfEntries(es) == map[es[0].key := Meaning(es[0].val)]
  {
    var rest := es[1..];
    if i :| 0 <= i < |rest| && rest[i].key == es[0].key { KeyRepeats(es, i + 1); }
    ReplacedOrAdded(MeaningOfEntries(rest), es[0].key, Meaning(es[0].val));
    assert |es| == 1 ==> rest == [];
  }

  lemma KeyRepeats(es: seq<Entry>, i: nat)
    requires 0 < i < |es| && es[i].key == es[0].key
    ensures !Distinct(Keys(es))
  {
    assert Keys(es)[0] == Keys(es)[i];
  }

  lemma ReplacedOrAdded(m: map<string, Value>, k: string, v: Value)
    requires k !in m
    ensures m[k := v] == map[k := v] + m
  {
  }

  // ---------------------------------------------------------------- equal values print equal texts

  lemma {:induction false} DumpRespectsMeaning(p: PyValue, q: PyValue)
    requires WellFormed(p) && WellFormed(q) && Meaning(p) == Meaning(q)
    ensures Dump(p) == Dump(q)
    decreases p, 1
  {
    match p
    case PList(xs) =>
      assert forall i | 0 <= i < |xs| :: Meaning(xs[i]) == Meaning(p).items[i];
      assert forall i | 0 <= i < |q.items| :: Meaning(q.items[i]) == Meaning(q).items[i];
      assert |xs| == |Meaning(p).items| == |q.items|;
      ItemsRespectMeaning(xs, q.items, true);
    case PDict(es) =>
      var s, t := Sorted(es), Sorted(q.entries);
      SortedEntries(es);
      SortedEntries(q.entries);
      SameMapSameKeys(s, t);
      forall i | 0 <= i < |s| ensures s[i].key == t[i].key && Meaning(s[i].val) == Meaning(t[i].val) {
        assert Keys(s)[i] == Keys(t)[i];
        MeaningAt(s, i);
        MeaningAt(t, i);
      }
      EntriesRespectMeaning(p, q, s, t, true);
    case _ =>
  }

  lemma SameMapSameKeys(s: seq<Entry>, t: seq<Entry>)
    requires StrictlySorted(Keys(s)) && StrictlySorted(Keys(t))
    requires MeaningOfEntries(s) == MeaningOfEntries(t)
    ensures Keys(s) == Keys(t)
  {
    forall k ensures k in Keys(s) <==> k in Keys(t) {
      assert k in Keys(s) <==> k in MeaningOfEntries(s);
      assert k in Keys(t) <==> k in MeaningOfEntries(t);
    }
    StrictlySortedUnique(Keys(s), Keys(t));
  }

  lemma {:induction false} ItemsRespectMeaning(xs: seq<PyValue>, ys: seq<PyValue>, first: bool)
    requires forall i | 0 <= i < |xs| :: WellFormed(xs[i])
    requires forall i | 0 <= i < |ys| :: WellFormed(ys[i])
    requires SameItems(xs, ys)
    ensures DumpItems(xs, first) == DumpItems(ys, first)
    decreases xs, 0
  {
    if xs != [] {
      DumpRespectsMeaning(xs[0], ys[0]);
      ItemsRespectMeaning(xs[1..], ys[1..], false);
    }
  }

  lemma {:induction false} EntriesRespectMeaning(p: PyValue, q: PyValue, es: seq<Entry>, fs: seq<Entry>, first: bool)
    requires p.PDict? && WellFormed(p) && forall e | e in es :: e in p.entries
    requires q.PDict? && WellFormed(q) && forall e | e in fs :: e in q.entries
    requires SameEntries(es, fs)
    ensures DumpEntries(p, es, first) == DumpEntries(q, fs, first)
    decreases p, 0, |es|
  {
    if es != [] {
      assert es[0] in p.entries && fs[0] in q.entries;
      DumpRespectsMeaning(es[0].val, fs[0].val);
      EntriesRespectMeaning(p, q, es[1..], fs[1..], false);
    }
  }

  // ---------------------------------------------------------------- main results

  /** The printed text of a value is a JSON text, and what a JSON reader reads in it is the value. */
  lemma ReadsBack(p: PyValue)
    requires WellFormed(p)
    ensures Read(Dump(p)) == Some(Meaning(p))
  {
    DumpReads(p, "");
    assert Dump(p) + "" == Dump(p);
    DumpHead(p);
    NoWs(Dump(p));
  }

  // ---------------------------------------------------------------- the text is the canonical one

  /** Section 7 lets every character stand for itself except the quote, the backslash and the controls; those have a
      two-character escape where there is one, and otherwise a small hexadecimal one. */
  lemma EscapesOnlyWhatItMust(c: char)
    ensures EscapeChar(c) == [c] <==> c != '\U{0022}' && c != '\U{005C}' && c >= '\U{0020}'
    ensures |EscapeChar(c)| == 2 <==> exists letter | letter != '/' :: Unescaped(letter) == Some(c)
    ensures |EscapeChar(c)| == 1 || |EscapeChar(c)| == 2 || |EscapeChar(c)| == 6
    ensures |EscapeChar(c)| == 6 ==> EscapeChar(c)[..4] == "\\u00" && forall i | 0 <= i < 6 :: !('A' <= EscapeChar(c)[i] <= 'F')
  {
    if c == '\U{0022}' { assert Unescaped('\"') == Some(c); }
    if c == '\U{005C}' { assert Unescaped('\\') == Some(c); }
    if c == '\U{0008}' { assert Unescaped('b') == Some(c); }
    if c == '\U{000C}' { assert Unescaped('f') == Some(c); }
    if c == '\U{000A}' { assert Unescaped('n') == Some(c); }
    if c == '\U{000D}' { assert Unescaped('r') == Some(c); }
    if c == '\U{0009}' { assert Unescaped('t') == Some(c); }
  }

  /** Integers have a sign exactly when they are negative, and no leading zero. */
  lemma IntTextIsShortest(n: int)
    ensures IntText(n)[0] == '-' <==> n < 0
    ensures n != 0 ==> IntText(n)[if n < 0 then 1 else 0] != '0'
    ensures n == 0 ==> |IntText(n)| == 1
  {
    NatTextReads(if n < 0 then -n else n);
  }

  function Dumps(xs: seq<PyValue>): seq<string> { seq(|xs|, i requires 0 <= i < |xs| => Dump(xs[i])) }

  function MemberText(e: Entry): string { Quote(e.key) + ":" + Dump(e.val) }

  function MemberTexts(es: seq<Entry>): seq<string> { seq(|es|, i requires 0 <= i < |es| => MemberText(es[i])) }

  /** A list is its items between brackets, with commas and nothing else between them. */
  lemma ListLayout(xs: seq<PyValue>)
    ensures Dump(PList(xs)) == "[" + Join(",", Dumps(xs)) + "]"
  {
    ItemsLayout(xs);
    assert "[" + (Join(",", Dumps(xs)) + "]") == "[" + Join(",", Dumps(xs)) + "]";
  }

  lemma {:induction false} ItemsLayout(xs: seq<PyValue>)
    ensures DumpItems(xs, true) == Join(",", Dumps(xs)) + "]"
    ensures xs != [] ==> DumpItems(xs, false) == "," + Join(",", Dumps(xs)) + "]"
  {
    if xs != [] {
      var d, rest := Dump(xs[0]), Join(",", Dumps(xs[1..]));
      assert Dumps(xs) == [d] + Dumps(xs[1..]);
      ItemsUnfold(xs);
      JoinStep(d, Dumps(xs[1..]));
      hide Dump, DumpItems, Join;
      ItemsLayout(xs[1..]);
      ClosedAfter(d, rest, DumpItems(xs[1..], false), "]");
    }
  }

  lemma ItemsUnfold(xs: seq<PyValue>)
    requires xs != []
    ensures DumpItems(xs, true) == Dump(xs[0]) + DumpItems(xs[1..], false)
    ensures DumpItems(xs, false) == "," + Dump(xs[0]) + DumpItems(xs[1..], false)
    ensures xs[1..] == [] ==> DumpItems(xs[1..], false) == "]"
  {
    assert "" + Dump(xs[0]) == Dump(xs[0]);
  }

  /** A dictionary is its members between braces, by rising key, with commas between them and colons inside them. */
  lemma DictLayout(es: seq<Entry>) returns (sorted: seq<Entry>)
    requires Distinct(Keys(es))
    ensures Dump(PDict(es)) == "{" + Join(",", MemberTexts(sorted)) + "}"
    ensures StrictlySorted(Keys(sorted)) && multiset(sorted) == multiset(es)
  {
    sorted := Sorted(es);
    SortedEntries(es);
    SortByCorrect(KeyOf, es);
    SortByMembers(KeyOf, es);
    MembersLayout(PDict(es), sorted);
    assert "{" + (Join(",", MemberTexts(sorted)) + "}") == "{" + Join(",", MemberTexts(sorted)) + "}";
  }

  lemma {:induction false} MembersLayout(p: PyValue, es: seq<Entry>)
    requires p.PDict? && forall e | e in es :: e in p.entries
    ensures DumpEntries(p, es, true) == Join(",", MemberTexts(es)) + "}"
    ensures es != [] ==> DumpEntries(p, es, false) == "," + Join(",", MemberTexts(es)) + "}"
    decreases |es|
  {
    if es != [] {
      assert es[0] in p.entries;
      var d, rest := MemberText(es[0]), Join(",", MemberTexts(es[1..]));
      assert MemberTexts(es) == [d] + MemberTexts(es[1..]) && MemberTexts(es)[1..] == MemberTexts(es[1..]);
      MembersUnfold(p, es);
      JoinStep(d, MemberTexts(es[1..]));
      hide Dump, Quote, DumpEntries, MemberText, Join;
      MembersLayout(p, es[1..]);
      ClosedAfter(d, rest, DumpEntries(p, es[1..], false), "}");
    }
  }

  lemma JoinStep(d: string, texts: seq<string>)
    ensures Join(",", [d] + texts) == if texts == [] then d else d + "," + Join(",", texts)
  {
    assert ([d] + texts)[1..] == texts;
  }

  /** The first text with what follows it, alone or not. */
  lemma ClosedAfter(d: string, rest: string, tail: string, close: string)
    ensures tail == close ==> d + tail == d + close && "," + d + tail == "," + d + close
    ensures tail == "," + rest + close ==>
              d + tail == d + "," + rest + close && "," + d + tail == "," + (d + "," + rest) + close
  {
    assert d + ("," + rest + close) == d + "," + rest + close;
    assert "," + d + ("," + rest + close) == "," + (d + "," + rest) + close;
  }

  lemma MembersUnfold(p: PyValue, es: seq<Entry>)
    requires p.PDict? && es != [] && forall e | e in es :: e in p.entries
    ensures forall e | e in es[1..] :: e in p.entries
    ensures DumpEntries(p, es, true) == MemberText(es[0]) + DumpEntries(p, es[1..], false)
    ensures DumpEntries(p, es, false) == "," + MemberText(es[0]) + DumpEntries(p, es[1..], false)
    ensures es[1..] == [] ==> DumpEntries(p, es[1..], false) == "}"
  {
    assert es[0] in p.entries;
    hide Quote, Dump;
    MemberGrouped(Quote(es[0].key), Dump(es[0].val), DumpEntries(p, es[1..], false));
  }

  lemma MemberGrouped(k: string, d: string, t: string)
    ensures "" + k + ":" + d + t == (k + ":" + d) + t && "," + k + ":" + d + t == "," + (k + ":" + d) + t
  {
  }

  /** A value's text is self-delimiting: what follows it starts where it ends. */
  lemma DumpEnds(p: PyValue, q: PyValue, a: string, b: string)
    requires WellFormed(p) && WellFormed(q) && Follows(a) && Follows(b)
    requires Dump(p) + a == Dump(q) + b
    ensures Meaning(p) == Meaning(q) && a == b
  {
    DumpReads(p, a);
    DumpReads(q, b);
  }

  /** Two parameter trees print the same text exactly when they are equal, dictionaries compared as maps. */
  lemma DumpInjective(p: PyValue, q: PyValue)
    requires WellFormed(p) && WellFormed(q)
    ensures Dump(p) == Dump(q) <==> Meaning(p) == Meaning(q)
  {
    ReadsBack(p);
    ReadsBack(q);
    if Meaning(p) == Meaning(q) { DumpRespectsMeaning(p, q); }
  }

  /** The escapes form a prefix code. */
  lemma EscapeCharPrefixFree(c: char, d: char, x: string, y: string)
    requires EscapeChar(c) + x == EscapeChar(d) + y
    ensures c == d && x == y
  {
    EscapeReads(c, x);
    EscapeReads(d, y);
  }

  /** Scalars never print alike. */
  lemma ScalarTextInjective(p: PyValue, q: PyValue)
    requires IsScalar(p) && WellFormed(p) && IsScalar(q) && WellFormed(q)
    requires ScalarText(p) == ScalarText(q)
    ensures p == q
  {
    ScalarReads(p, "");
    ScalarReads(q, "");
  }

  lemma FieldsAre()
    ensures |COMMAND_FIELDS| == 4 && Distinct(COMMAND_FIELDS)
    ensures COMMAND_FIELDS[0] == "kind" && COMMAND_FIELDS[1] == "subject" && COMMAND_FIELDS[2] == "name" && COMMAND_FIELDS[3] == "parameters"
  {
    assert "kind"[0] == 'k' && "subject"[0] == 's' && "name"[0] == 'n' && "parameters"[0] == 'p';
  }

  lemma RecordMeaning(names: seq<string>, xs: seq<PyValue>)
    requires Distinct(names) && |names| == |xs| && forall i | 0 <= i < |xs| :: WellFormed(xs[i])
    ensures WellFormed(Record(names, xs)) && Meaning(Record(names, xs)).VDict?
    ensures var m := Meaning(Record(names, xs)).members;
            && (forall k :: k in m <==> k in names)
            && forall i | 0 <= i < |names| :: names[i] in m && m[names[i]] == Meaning(xs[i])
  {
    var p := Record(names, xs);
    assert Keys(p.entries) == names;
    var m := MeaningOfEntries(p.entries);
    forall i | 0 <= i < |names| ensures names[i] in m && m[names[i]] == Meaning(xs[i]) { MeaningAt(p.entries, i); }
    forall k ensures k in m <==> k in names {
      if i :| 0 <= i < |p.entries| && p.entries[i].key == k { assert names[i] == k; }
      if k in names {
        var i :| 0 <= i < |names| && names[i] == k;
        assert p.entries[i].key == k;
      }
    }
  }

  /** Reading the canonical text of a command gives an object with exactly the four names, each bound to its field. */
  lemma CanonicalReadsBack(kind: string, subject: string, name: string, parameters: PyValue)
    requires WellFormed(parameters)
    ensures Read(Canonical(kind, subject, name, parameters)) ==
            Some(VDict(map["kind" := VStr(kind), "subject" := VStr(subject), "name" := VStr(name), "parameters" := Meaning(parameters)]))
  {
    FieldsAre();
    var xs := [PStr(kind), PStr(subject), PStr(name), parameters];
    RecordMeaning(COMMAND_FIELDS, xs);
    ReadsBack(Record(COMMAND_FIELDS, xs));
    hide Read, Dump, Meaning;
    MembersOfFour(Meaning(Record(COMMAND_FIELDS, xs)).members, Meaning(xs[0]), Meaning(xs[1]), Meaning(xs[2]), Meaning(xs[3]));
    MeaningOfText(kind);
    MeaningOfText(subject);
    MeaningOfText(name);
  }

  lemma MeaningOfText(s: string)
    ensures Meaning(PStr(s)) == VStr(s)
  {
  }

  lemma MembersOfFour(m: map<string, Value>, kind: Value, subject: Value, name: Value, parameters: Value)
    requires forall k :: k in m <==> k in COMMAND_FIELDS
    requires "kind" in m && "subject" in m && "name" in m && "parameters" in m
    requires m["kind"] == kind && m["subject"] == subject && m["name"] == name && m["parameters"] == parameters
    ensures m == map["kind" := kind, "subject" := subject, "name" := name, "parameters" := parameters]
  {
    FieldsAre();
    assert "kind"[0] == 'k' && "subject"[0] == 's' && "name"[0] == 'n' && "parameters"[0] == 'p';
    forall k | k in m ensures k == "kind" || k == "subject" || k == "name" || k == "parameters" {
      var i :| 0 <= i < |COMMAND_FIELDS| && COMMAND_FIELDS[i] == k;
    }
  }

  lemma FieldsOfFour(kind: Value, subject: Value, name: Value, parameters: Value)
    ensures var m := map["kind" := kind, "subject" := subject, "name" := name, "parameters" := parameters];
            m["kind"] == kind && m["subject"] == subject && m["name"] == name && m["parameters"] == parameters
  {
    assert "kind"[0] == 'k' && "subject"[0] == 's' && "name"[0] == 'n' && "parameters"[0] == 'p';
  }

  /** The canonical text of a command determines the command, and only the command. */
  lemma CanonicalInjective(kind: string, subject: string, name: string, parameters: PyValue,
                           kind': string, subject': string, name': string, parameters': PyValue)
    requires WellFormed(parameters) && WellFormed(parameters')
    ensures Canonical(kind, subject, name, parameters) == Canonical(kind', subject', name', parameters') <==>
            kind == kind' && subject == subject' && name == name' && Meaning(parameters) == Meaning(parameters')
  {
    CanonicalReadsBack(kind, subject, name, parameters);
    CanonicalReadsBack(kind', subject', name', parameters');
    FieldsOfFour(VStr(kind), VStr(subject), VStr(name), Meaning(parameters));
    FieldsOfFour(VStr(kind'), VStr(subject'), VStr(name'), Meaning(parameters'));
    hide Read, Dump, Meaning;
    if kind == kind' && subject == subject' && name == name' && Meaning(parameters) == Meaning(parameters') {
      SameFieldsPrintAlike(kind, subject, name, parameters, parameters');
    }
  }

  lemma SameFieldsPrintAlike(kind: string, subject: string, name: string, p: PyValue, q: PyValue)
    requires WellFormed(p) && WellFormed(q) && Meaning(p) == Meaning(q)
    ensures Canonical(kind, subject, name, p) == Canonical(kind, subject, name, q)
  {
    FieldsAre();
    var xs, ys := [PStr(kind), PStr(subject), PStr(name), p], [PStr(kind), PStr(subject), PStr(name), q];
    RecordsPrintAlike(COMMAND_FIELDS, xs, ys);
  }

  lemma RecordsPrintAlike(names: seq<string>, xs: seq<PyValue>, ys: seq<PyValue>)
    requires Distinct(names) && |names| == |xs| && SameItems(xs, ys)
    requires (forall i | 0 <= i < |xs| :: WellFormed(xs[i])) && forall i | 0 <= i < |ys| :: WellFormed(ys[i])
    ensures Dump(Record(names, xs)) == Dump(Record(names, ys))
  {
    RecordMeaning(names, xs);
    RecordMeaning(names, ys);
    hide Dump;
    var r, t := Record(names, xs), Record(names, ys);
    SameEntriesMeaning(r.entries, t.entries);
    DumpRespectsMeaning(r, t);
  }
}
