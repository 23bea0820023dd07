/**
 A reader of JSON texts, written from RFC 8259: white space (section 2), values (3), objects (4), arrays (5),
 numbers (6) and strings (7). It also knows the three number words that Python's printer can produce.

 Objects are maps, where a later member replaces an earlier one of the same name. Numbers without fraction and
 exponent are integers; the others are kept as their text.
 */
module JsonReader {
  import opened Options

  datatype Value =
    | VNone
    | VBool(b: bool)
    | VInt(n: int)
    | VFloat(token: string)
    | VStr(s: string)
    | VList(items: seq<Value>)
    | VDict(members: map<string, Value>)

  /** What was read from the front of a text, and what is left. */
  datatype Parsed<+T> = Failed | Parsed(value: T, rest: string)

  // ---------------------------------------------------------------- section 2: white space

  predicate IsWs(c: char) { c == '\U{0020}' || c == '\U{0009}' || c == '\U{000A}' || c == '\U{000D}' }

  function SkipWs(t: string): (r: string)
    ensures |r| <= |t|
  {
    if t != "" && IsWs(t[0]) then SkipWs(t[1..]) else t
  }

  // ---------------------------------------------------------------- section 6: numbers

  predicate Digit(c: char) { '\U{0030}' <= c <= '\U{0039}' }

  /** How many digits the text starts with. */
  function Digits(t: string): (n: nat)
    ensures n <= |t| && forall i | 0 <= i < n :: Digit(t[i])
    ensures n < |t| ==> !Digit(t[n])
  {
    if t != "" && Digit(t[0]) then 1 + Digits(t[1..]) else 0
  }

  function Sign(t: string): (n: nat)
    ensures n <= |t|
  {
    if t != "" && t[0] == '-' then 1 else 0
  }

  /** A zero, or digits that do not start with one. */
  function IntLength(t: string): (n: nat)
    ensures n <= |t|
  {
    if t != "" && t[0] == '0' then 1 else Digits(t)
  }

  /** A point and digits, or nothing. */
  function FracLength(t: string): (n: nat)
    ensures n <= |t|
  {
    if t != "" && t[0] == '.' && Digits(t[1..]) > 0 then 1 + Digits(t[1..]) else 0
  }

  /** An e, a sign if there is one, and digits, or nothing. */
  function ExpLength(t: string): (n: nat)
    ensures n <= |t|
  {
    if t == "" || (t[0] != 'e' && t[0] != 'E') then 0
    else
      var k := if |t| > 1 && (t[1] == '+' || t[1] == '-') then 2 else 1;
      if Digits(t[k..]) > 0 then k + Digits(t[k..]) else 0
  }

  /** Where the integer part ends, or 0 if there is none. */
  function IntEnd(t: string): (n: nat)
    ensures n <= |t|
  {
    var k := IntLength(t[Sign(t)..]);
    if k == 0 then 0 else Sign(t) + k
  }

  function NumberEnd(t: string): (n: nat)
    ensures IntEnd(t) <= n <= |t|
  {
    var k := IntEnd(t);
    if k == 0 then 0
    else
      var m := k + FracLength(t[k..]);
      m + ExpLength(t[m..])
  }

  function Pow10(n: nat): nat { if n == 0 then 1 else 10 * Pow10(n - 1) }

  /** Every digit times ten to its position. */
  function Decimal(t: string): int {
    if t == "" then 0 else (t[0] as int - 0x30) * Pow10(|t| - 1) + Decimal(t[1..])
  }

  function ReadNumber(t: string): (r: Parsed<Value>)
    ensures r.Parsed? ==> |r.rest| < |t|
  {
    var k, end := IntEnd(t), NumberEnd(t);
    if k == 0 then Failed
    else if end == k then
      var digits := Decimal(t[Sign(t)..k]);
      Parsed(VInt(if Sign(t) == 1 then -digits else digits), t[k..])
    else Parsed(VFloat(t[..end]), t[end..])
  }

  // ---------------------------------------------------------------- section 7: strings

  function HexValue(c: char): Option<int> {
    if '0' <= c <= '9' then Some(c as int - 0x30)
    else if 'A' <= c <= 'F' then Some(c as int - 0x41 + 10)
    else if 'a' <= c <= 'f' then Some(c as int - 0x61 + 10)
    else None
  }

  /** Four hexadecimal digits. */
  function HexQuad(t: string): (r: Option<int>)
    ensures r.Some? ==> |t| >= 4 && 0 <= r.value < 0x10000
  {
    if |t| < 4 || HexValue(t[0]).None? || HexValue(t[1]).None? || HexValue(t[2]).None? || HexValue(t[3]).None? then None
    else Some(0x1000 * HexValue(t[0]).value + 0x100 * HexValue(t[1]).value + 0x10 * HexValue(t[2]).value + HexValue(t[3]).value)
  }

  /** The character that a single letter stands for after a reverse solidus. */
  function Unescaped(c: char): Option<char> {
    match c
    case '\"' => Some('\U{0022}')
    case '\\' => Some('\U{005C}')
    case '/' => Some('\U{002F}')
    case 'b' => Some('\U{0008}')
    case 'f' => Some('\U{000C}')
    case 'n' => Some('\U{000A}')
    case 'r' => Some('\U{000D}')
    case 't' => Some('\U{0009}')
    case _ => None
  }

  /** One character of a string, which may take several characters of text: the text is not at the closing quote. */
  function ReadChar(t: string): (r: Parsed<char>)
    ensures r.Parsed? ==> |r.rest| < |t|
  {
    if t == "" || t[0] < '\U{0020}' then Failed
    else if t[0] != '\U{005C}' then Parsed(t[0], t[1..])
    else if |t| < 2 then Failed
    else if Unescaped(t[1]).Some? then Parsed(Unescaped(t[1]).value, t[2..])
    else if t[1] == 'u' then ReadUnicode(t[2..])
    else Failed
  }

  /** After `\\u`: a code point of the basic plane, or a pair of surrogates for one beyond it. */
  function ReadUnicode(t: string): (r: Parsed<char>)
    ensures r.Parsed? ==> |r.rest| < |t|
  {
    match HexQuad(t)
    case None => Failed
    case Some(high) =>
      if !(0xD800 <= high < 0xE000) then Parsed(high as char, t[4..])
      else if high < 0xDC00 && |t| >= 10 && t[4] == '\\' && t[5] == 'u' && HexQuad(t[6..]).Some? then
        var low := HexQuad(t[6..]).value;
        if 0xDC00 <= low < 0xE000 then Parsed((0x10000 + 0x400 * (high - 0xD800) + (low - 0xDC00)) as char, t[10..]) else Failed
      else Failed
  }

  /** The characters up to the closing quote. */
  function ReadChars(t: string): (r: Parsed<string>)
    ensures r.Parsed? ==> |r.rest| < |t|
    decreases |t|
  {
    if t != "" && t[0] == '\U{0022}' then Parsed("", t[1..])
    else
      match ReadChar(t)
      case Failed => Failed
      case Parsed(c, rest) =>
        match ReadChars(rest)
        case Failed => Failed
        case Parsed(s, rest') => Parsed([c] + s, rest')
  }

  // ---------------------------------------------------------------- sections 3, 4 and 5: values

  /** A word, if the text starts with it. */
  function ReadWord(t: string, word: string, v: Value, otherwise: Parsed<Value>): (r: Parsed<Value>)
    requires word != "" && (otherwise.Parsed? ==> |otherwise.rest| < |t|)
    ensures r.Parsed? ==> |r.rest| < |t|
  {
    if word <= t then Parsed(v, t[|word|..]) else otherwise
  }

  /** Section 3: literal names and numbers; the last three words are Python's. */
  function ReadScalar(t: string): (r: Parsed<Value>)
    ensures r.Parsed? ==> |r.rest| < |t|
  {
    ReadWord(t, "false", VBool(false), ReadWord(t, "null", VNone, ReadWord(t, "true", VBool(true),
      ReadWord(t, "NaN", VFloat("NaN"), ReadWord(t, "Infinity", VFloat("Infinity"), ReadWord(t, "-Infinity", VFloat("-Infinity"),
        ReadNumber(t)))))))
  }

  /** A value at the front of the text. */
  function ReadValue(t: string): (r: Parsed<Value>)
    ensures r.Parsed? ==> |r.rest| < |t|
    decreases |t|, 3
  {
    if t == "" then Failed
    else if t[0] == '\U{0022}' then
      match ReadChars(t[1..]) case Failed => Failed case Parsed(s, rest) => Parsed(VStr(s), rest)
    else if t[0] == '[' then
      match ReadArray(SkipWs(t[1..])) case Failed => Failed case Parsed(items, rest) => Parsed(VList(items), rest)
    else if t[0] == '{' then
      match ReadObject(SkipWs(t[1..])) case Failed => Failed case Parsed(members, rest) => Parsed(VDict(members), rest)
    else ReadScalar(t)
  }

  /** After the opening bracket. */
  function ReadArray(t: string): (r: Parsed<seq<Value>>)
    ensures r.Parsed? ==> |r.rest| < |t|
    decreases |t|, 5
  {
    if t != "" && t[0] == ']' then Parsed([], t[1..]) else ReadItems(t)
  }

  /** One value or more, separated by commas, and the closing bracket. */
  function ReadItems(t: string): (r: Parsed<seq<Value>>)
    ensures r.Parsed? ==> |r.rest| < |t|
    decreases |t|, 4
  {
    match ReadValue(t)
    case Failed => Failed
    case Parsed(v, rest) =>
      var next := SkipWs(rest);
      if next != "" && next[0] == ']' then Parsed([v], next[1..])
      else if next != "" && next[0] == ',' then
        match ReadItems(SkipWs(next[1..])) case Failed => Failed case Parsed(vs, rest') => Parsed([v] + vs, rest')
      else Failed
  }

  /** After the opening brace. */
  function ReadObject(t: string): (r: Parsed<map<string, Value>>)
    ensures r.Parsed? ==> |r.rest| < |t|
    decreases |t|, 5
  {
    if t != "" && t[0] == '}' then Parsed(map[], t[1..]) else ReadMembers(t)
  }

  /** A name, a colon and a value at the front of the text. */
  function ReadMember(t: string): (r: Parsed<(string, Value)>)
    ensures r.Parsed? ==> |r.rest| < |t|
    decreases |t|, 2
  {
    if t == "" || t[0] != '\U{0022}' then Failed
    else
      match ReadChars(t[1..])
      case Failed => Failed
      case Parsed(name, rest) =>
        var colon := SkipWs(rest);
        if colon == "" || colon[0] != ':' then Failed
        else
          match ReadValue(SkipWs(colon[1..])) case Failed => Failed case Parsed(v, rest') => Parsed((name, v), rest')
  }

  /** One member or more, separated by commas, and the closing brace. */
  function ReadMembers(t: string): (r: Parsed<map<string, Value>>)
    ensures r.Parsed? ==> |r.rest| < |t|
    decreases |t|, 4
  {
    match ReadMember(t)
    case Failed => Failed
    case Parsed((name, v), rest) =>
      var next := SkipWs(rest);
      if next != "" && next[0] == '}' then Parsed(map[name := v], next[1..])
      else if next != "" && next[0] == ',' then
        match ReadMembers(SkipWs(next[1..])) case Failed => Failed case Parsed(more, rest') => Parsed(map[name := v] + more, rest')
      else Failed
  }

  /** A whole text: one value, with white space around it and nothing else. */
  function Read(text: string): Option<Value> {
    match ReadValue(SkipWs(text))
    case Failed => None
    case Parsed(v, rest) => if SkipWs(rest) == "" then Some(v) else None
  }
}
