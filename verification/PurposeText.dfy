/**
 The purpose of a module as text and as a code: four generic sentences, the normalization that the parser
 runs first, the parser from sentence to code, and the printer from code back to the English sentence.
 */
module PurposeText {
  import opened Options
  import opened PyText

  // ---------------------------------------------------------------- words

  /** The leading characters that are not white space. */
  function FirstWord(s: string): (w: string)
    ensures w <= s && NoSpace(w)
    ensures |w| < |s| ==> IsSpace(s[|w|])
    ensures s != "" && !IsSpace(s[0]) ==> w != ""
  {
    if s == "" || IsSpace(s[0]) then "" else [s[0]] + FirstWord(s[1..])
  }

  /** `s.split()` */
  function Words(s: string): (r: seq<string>)
    ensures forall i | 0 <= i < |r| :: r[i] != "" && NoSpace(r[i])
    decreases |s|
  {
    if s == "" then []
    else if IsSpace(s[0]) then Words(s[1..])
    else [FirstWord(s)] + Words(s[|FirstWord(s)|..])
  }

  /** `" ".join(s.split())` */
  function Collapse(s: string): string { Join(" ", Words(s)) }

  /** The only white space is single spaces between words. */
  ghost predicate SingleSpaced(s: string) {
    forall i | 0 <= i < |s| && IsSpace(s[i]) :: s[i] == ' ' && 0 < i < |s| - 1 && !IsSpace(s[i + 1])
  }

  lemma {:induction false} CollapseKeeps(s: string)
    requires SingleSpaced(s)
    ensures Collapse(s) == s
    decreases |s|
  {
    if s == "" { return; }
    assert !IsSpace(s[0]);
    var w := FirstWord(s);
    var rest := s[|w|..];
    assert s == w + rest;
    if rest == "" {
      assert Words(s) == [w] + [] == [w];
    } else {
      RestIsSingleSpaced(s, |w|);
      CollapseKeeps(rest[1..]);
      WordsStep(s, w, rest, rest[1..]);
    }
  }

  lemma RestIsSingleSpaced(s: string, k: nat)
    requires SingleSpaced(s) && k < |s| && IsSpace(s[k])
    ensures s[k] == ' ' && k + 1 < |s| && SingleSpaced(s[k..][1..]) && s[k..][1..] != "" && !IsSpace(s[k..][1..][0])
  {
    var more := s[k..][1..];
    assert more[0] == s[k + 1];
    forall i | 0 <= i < |more| && IsSpace(more[i]) ensures more[i] == ' ' && 0 < i < |more| - 1 && !IsSpace(more[i + 1]) {
      assert more[i] == s[k + 1 + i];
      if i < |more| - 1 { assert more[i + 1] == s[k + 2 + i]; }
    }
  }

  /** The first word, a space, and text that collapses to itself. */
  lemma WordsStep(s: string, w: string, rest: string, more: string)
    requires s != "" && !IsSpace(s[0]) && w == FirstWord(s) && rest == s[|w|..] && rest != "" && rest[0] == ' ' && more == rest[1..]
    requires more != "" && !IsSpace(more[0]) && Collapse(more) == more
    ensures Collapse(s) == s
  {
    hide Words, FirstWord, Join, IsSpace;
    WordsUnfold(s);
    WordsUnfold(rest);
    WordsUnfold(more);
    assert Words(rest) == Words(more) && Words(s) == [w] + Words(more);
    JoinUnfold(w, Words(more));
    assert s == w + rest && rest == " " + more;
  }

  lemma WordsUnfold(s: string)
    requires s != ""
    ensures Words(s) == if IsSpace(s[0]) then Words(s[1..]) else [FirstWord(s)] + Words(s[|FirstWord(s)|..])
    ensures !IsSpace(s[0]) ==> Words(s) != []
  {
  }

  lemma JoinUnfold(w: string, words: seq<string>)
    requires words != []
    ensures Join(" ", [w] + words) == w + " " + Join(" ", words)
  {
    assert ([w] + words)[1..] == words;
  }

  lemma {:induction false} CollapseShrinks(s: string)
    ensures |Collapse(s)| <= |s|
    decreases |s|
  {
    if s == "" {
    } else if IsSpace(s[0]) {
      CollapseShrinks(s[1..]);
    } else {
      var w := FirstWord(s);
      var rest := s[|w|..];
      CollapseShrinks(rest);
      var more := Words(rest);
      assert Words(s) == [w] + more && ([w] + more)[1..] == more;
      if more != [] {
        assert rest != "" && IsSpace(rest[0]);
        CollapseShrinks(rest[1..]);
        assert more == Words(rest[1..]);
      }
    }
  }

  lemma {:induction false} WordsAcross(a: string, b: string)
    ensures Words(a + " " + b) == Words(a) + Words(b)
    decreases |a|
  {
    var s := a + " " + b;
    if a == "" {
      assert s[1..] == b && s[0] == ' ';
    } else if IsSpace(a[0]) {
      assert s[0] == a[0] && s[1..] == a[1..] + " " + b;
      WordsAcross(a[1..], b);
    } else {
      var w := FirstWord(a);
      FirstWordAcross(a, b);
      assert s[|w|..] == a[|w|..] + " " + b;
      WordsAcross(a[|w|..], b);
      assert s[0] == a[0];
      assert [w] + (Words(a[|w|..]) + Words(b)) == [w] + Words(a[|w|..]) + Words(b);
    }
  }

  lemma {:induction false} FirstWordAcross(a: string, b: string)
    ensures FirstWord(a + " " + b) == FirstWord(a)
  {
    var s := a + " " + b;
    if a == "" {
      assert s[0] == ' ';
    } else {
      assert s[0] == a[0] && s[1..] == a[1..] + " " + b;
      FirstWordAcross(a[1..], b);
    }
  }

  lemma {:induction false} OneWord(w: string)
    requires w != "" && NoSpace(w)
    ensures FirstWord(w) == w && Words(w) == [w]
  {
    WholeWord(w);
    assert w[|w|..] == "";
  }

  lemma {:induction false} WholeWord(w: string)
    requires NoSpace(w)
    ensures FirstWord(w) == w
  {
    if w != "" {
      WholeWord(w[1..]);
      assert w == [w[0]] + w[1..];
    }
  }

  // ---------------------------------------------------------------- sentences

  /** The first position where `a` is followed by `b`, or -1. */
  function FindPair(s: string, a: char, b: char): (i: int)
    ensures -1 <= i
    ensures i >= 0 ==> i + 1 < |s| && s[i] == a && s[i + 1] == b && forall j | 0 <= j < i :: !(s[j] == a && s[j + 1] == b)
    ensures i < 0 ==> forall j | 0 <= j < |s| - 1 :: !(s[j] == a && s[j + 1] == b)
  {
    if |s| < 2 then -1
    else if s[0] == a && s[1] == b then 0
    else
      var i := FindPair(s[1..], a, b);
      assert i < 0 ==> forall j | 0 <= j < |s| - 1 :: !(s[j] == a && s[j + 1] == b) by {
        if i < 0 {
          forall j | 0 < j < |s| - 1 ensures !(s[j] == a && s[j + 1] == b) {
            assert s[1..][j - 1] == s[j] && s[1..][j] == s[j + 1];
          }
        }
      }
      if i < 0 then -1
      else
        assert forall j | 0 < j < i + 1 :: s[j] == s[1..][j - 1] && s[j + 1] == s[1..][j];
        i + 1
  }

  function FindChar(s: string, c: char): (i: int)
    ensures -1 <= i < |s|
    ensures i >= 0 ==> s[i] == c && c !in s[..i]
    ensures i < 0 ==> c !in s
  {
    if s == "" then -1
    else if s[0] == c then 0
    else
      var i := FindChar(s[1..], c);
      assert s == [s[0]] + s[1..];
      if i < 0 then -1
      else
        assert s[..i + 1] == [s[0]] + s[1..][..i];
        i + 1
  }

  /** The text before the first ". ", else the first line break, else the first "; ". */
  function CutSentence(s: string): (r: string)
    ensures |r| <= |s|
  {
    var stop := FindPair(s, '.', ' ');
    if stop >= 0 then Strip(s[..stop])
    else
      var line := FindChar(s, '\n');
      if line >= 0 then Strip(s[..line])
      else
        var semicolon := FindPair(s, ';', ' ');
        if semicolon >= 0 then Strip(s[..semicolon]) else s
  }

  predicate IsDot(c: char) { c == '.' }

  /** `_first_sentence`, with None as the empty string. */
  function FirstSentence(text: string): (r: string)
    ensures |r| <= |CutSentence(Collapse(text))|
  {
    var s := CutSentence(Collapse(text));
    RStripBy(IsDot, if |s| <= 160 then s else s[..160])
  }

  // ---------------------------------------------------------------- the purpose phrase

  const MAX_PURPOSE_LENGTH := 96

  function LowerChar(c: char): char { if 'A' <= c <= 'Z' then (c as int + 32) as char else c }

  function UpperChar(c: char): char { if 'a' <= c <= 'z' then (c as int - 32) as char else c }

  function Lower(s: string): string { seq(|s|, i requires 0 <= i < |s| => LowerChar(s[i])) }

  const TALKING_PREFIXES := ["this module ", "the module ", "this code ", "the code "]

  /** Drop the first of the given prefixes (in lower case) that the sentence starts with. */
  function DropPrefix(s: string, prefixes: seq<string>): (r: string)
    ensures |r| <= |s|
    ensures s != "" && (forall i | 0 <= i < |prefixes| :: prefixes[i] != "" && prefixes[i][0] != LowerChar(s[0])) ==> r == s
  {
    if prefixes == [] then s
    else if prefixes[0] <= Lower(s) then Strip(s[|prefixes[0]|..])
    else DropPrefix(s, prefixes[1..])
  }

  predicate IsEdge(c: char) { c == ' ' || c == '-' || c == ':' || c == ';' || c == ',' || c == '.' }

  predicate IsPause(c: char) { c == ' ' || c == ',' || c == ';' || c == ':' }

  predicate IsPauseOrDash(c: char) { IsPause(c) || c == '-' }

  /** `s.rsplit(" ", 1)[0]` */
  function BeforeLastSpace(s: string): (r: string)
    ensures r <= s
    ensures ' ' in s ==> |r| < |s|
  {
    if s == "" then ""
    else if s[|s| - 1] == ' ' then s[..|s| - 1]
    else if ' ' in s then
      assert s == s[..|s| - 1] + [s[|s| - 1]];
      BeforeLastSpace(s[..|s| - 1])
    else s
  }

  function Truncate(s: string): (r: string)
    ensures |r| <= |s| && |r| <= MAX_PURPOSE_LENGTH
    ensures |s| <= MAX_PURPOSE_LENGTH ==> r == s
  {
    if |s| <= MAX_PURPOSE_LENGTH then s
    else RStripBy(IsPause, BeforeLastSpace(s[..MAX_PURPOSE_LENGTH - 3])) + "..."
  }

  const DANGLING_TAILS := ["and", "or", "with", "using", "via", "from", "for", "into", "over", "across", "through",
                           "plus", "around", "structured"]

  /** The last word, as it is compared with the dangling tails. */
  function LastWord(s: string): string {
    var words := Words(s);
    if words == [] then "" else StripBy(IsPauseOrDash, Lower(words[|words| - 1]))
  }

  /** The loop of `_finalize_purpose_phrase`: drop dangling words from the end. */
  function DropDangling(s: string): (r: Option<string>)
    ensures r.Some? ==> |r.value| <= |s|
    decreases |s|
  {
    if s == "" then None
    else if LastWord(s) !in DANGLING_TAILS then Some(s)
    else if ' ' !in s then None
    else DropDangling(RStripBy(IsPauseOrDash, BeforeLastSpace(s)))
  }

  method FinalizePurposePhrase(text: string) returns (r: Option<string>)
    ensures r == Finalized(text)
  {
    var sentence := Strip(text);
    if sentence == "" { return None; }
    var hadEllipsis := EndsWith(sentence, "...");
    if hadEllipsis { sentence := RStripBy(IsPause, sentence[..|sentence| - 3]); }
    ghost var start := sentence;
    while sentence != ""
      invariant DropDangling(sentence) == DropDangling(start)
      decreases |sentence|
    {
      if LastWord(sentence) !in DANGLING_TAILS { break; }
      if ' ' !in sentence { return None; }
      sentence := RStripBy(IsPauseOrDash, BeforeLastSpace(sentence));
    }
    if sentence == "" { return None; }
    if hadEllipsis { sentence := RStripBy(IsPauseOrDash, sentence); }
    r := Some(sentence);
  }

  function Finalized(text: string): (r: Option<string>)
    ensures r.Some? ==> |r.value| <= |text|
  {
    var sentence := Strip(text);
    if sentence == "" then None
    else if EndsWith(sentence, "...") then
      match DropDangling(RStripBy(IsPause, sentence[..|sentence| - 3]))
      case None => None
      case Some(s) => Some(RStripBy(IsPauseOrDash, s))
    else DropDangling(sentence)
  }

  /** The first sentence without punctuation around it. */
  function SentenceIn(text: string): (r: string)
    ensures |r| <= |FirstSentence(text)|
  {
    CollapseShrinks(FirstSentence(text));
    StripBy(IsEdge, Collapse(FirstSentence(text)))
  }

  /** What the normal form makes of a sentence without a talking prefix. */
  function Polished(sentence: string): (r: string)
    ensures |r| <= |sentence| && |r| <= MAX_PURPOSE_LENGTH
  {
    Capitalized(Finalized(Truncate(sentence)))
  }

  /** `_normalize_purpose`, with None as the empty string. */
  function NormalizePurpose(text: string): (r: string)
    ensures |r| <= |FirstSentence(text)| && |r| <= MAX_PURPOSE_LENGTH
  {
    var sentence := SentenceIn(text);
    if sentence == "" then "" else Polished(DropPrefix(sentence, TALKING_PREFIXES))
  }

  /** The phrase with a capital first letter and without full stops at its end. */
  function Capitalized(phrase: Option<string>): (r: string)
    ensures |r| <= if phrase.None? then 0 else |phrase.value|
  {
    match phrase
    case None => ""
    case Some(s) => if s == "" then "" else RStripBy(IsDot, [UpperChar(s[0])] + s[1..])
  }

  // ---------------------------------------------------------------- templates

  datatype Template = PUBLISH_UPDATES | PROCESS_INPUTS | RUN_WORKFLOW | COORDINATE_ENTRYPOINT

  /** The words before the topic. */
  function Opening(t: Template): string {
    match t
    case PUBLISH_UPDATES => "Publishes"
    case PROCESS_INPUTS => "Processes"
    case RUN_WORKFLOW => "Runs the"
    case COORDINATE_ENTRYPOINT => "Coordinates the"
  }

  /** The words after the topic, without the last one, and the last one. */
  function Middle(t: Template): string {
    match t
    case PUBLISH_UPDATES => "updates for the" + " " + "surrounding runtime"
    case PROCESS_INPUTS => "inputs into" + " " + "module-specific"
    case RUN_WORKFLOW => "workflow for this"
    case COORDINATE_ENTRYPOINT => "entrypoint for this"
  }

  function Closing(t: Template): string {
    match t
    case PUBLISH_UPDATES => "flow"
    case PROCESS_INPUTS => "results"
    case RUN_WORKFLOW => "module"
    case COORDINATE_ENTRYPOINT => "module"
  }

  function Prefix(t: Template): string { Opening(t) + " " }

  function Suffix(t: Template): string { " " + (Middle(t) + " " + Closing(t)) }

  /** The sentence about a topic, without and with its full stop. */
  function Phrase(t: Template, topic: string): string { Prefix(t) + topic + Suffix(t) }

  function Sentence(t: Template, topic: string): string { Phrase(t, topic) + "." }

  function CodeHead(t: Template): string {
    match t
    case PUBLISH_UPDATES => "purpose.generic.publish_updates"
    case PROCESS_INPUTS => "purpose.generic.process_inputs"
    case RUN_WORKFLOW => "purpose.generic.run_workflow"
    case COORDINATE_ENTRYPOINT => "purpose.generic.coordinate_entrypoint"
  }

  function Code(t: Template, topic: string): string { CodeHead(t) + ":" + topic }

  // ---------------------------------------------------------------- parser and printer

  /** `removesuffix`: a suffix that is not there is not removed. */
  function RemoveSuffix(s: string, suffix: string): (r: string)
    ensures |r| <= |s|
  {
    if EndsWith(s, suffix) then s[..|s| - |suffix|] else s
  }

  function Between(prefix: string, suffix: string, n: string): string {
    if prefix <= n && EndsWith(n, suffix) then Strip(RemoveSuffix(n[|prefix|..], suffix)) else ""
  }

  /** The topic of a normalized purpose that has the form of the template, or nothing. */
  function TopicOf(t: Template, normalized: string): string { Between(Prefix(t), Suffix(t), normalized) }

  /** The first template that fits. */
  function CodeOf(n: string): Option<string> {
    if TopicOf(PUBLISH_UPDATES, n) != "" then Some(Code(PUBLISH_UPDATES, TopicOf(PUBLISH_UPDATES, n)))
    else if TopicOf(PROCESS_INPUTS, n) != "" then Some(Code(PROCESS_INPUTS, TopicOf(PROCESS_INPUTS, n)))
    else if TopicOf(RUN_WORKFLOW, n) != "" then Some(Code(RUN_WORKFLOW, TopicOf(RUN_WORKFLOW, n)))
    else if TopicOf(COORDINATE_ENTRYPOINT, n) != "" then Some(Code(COORDINATE_ENTRYPOINT, TopicOf(COORDINATE_ENTRYPOINT, n)))
    else None
  }

  /** `_purpose_code`, where the profile of the module has no code of its own. */
  function PurposeCode(text: string): Option<string> {
    var n := NormalizePurpose(text);
    if n == "" then None else CodeOf(n)
  }

  /** `code.split(':', 1)[1]`, or nothing without a colon. */
  function AfterColon(code: string): string {
    if code == "" then "" else if code[0] == ':' then code[1..] else AfterColon(code[1..])
  }

  /** `_dynamic_semantic_text('en', 'purpose', code)` */
  function DynamicText(code: string): Option<string> {
    var payload := AfterColon(code);
    if CodeHead(PUBLISH_UPDATES) + ":" <= code then Some(Sentence(PUBLISH_UPDATES, payload))
    else if CodeHead(PROCESS_INPUTS) + ":" <= code then Some(Sentence(PROCESS_INPUTS, payload))
    else if CodeHead(RUN_WORKFLOW) + ":" <= code then Some(Sentence(RUN_WORKFLOW, payload))
    else if CodeHead(COORDINATE_ENTRYPOINT) + ":" <= code then Some(Sentence(COORDINATE_ENTRYPOINT, payload))
    else None
  }

  // ---------------------------------------------------------------- facts about the four templates

  ghost predicate Free(s: string, c: char) { forall i | 0 <= i < |s| :: s[i] != c }

  predicate IsLetter(c: char) { 'a' <= c <= 'z' || 'A' <= c <= 'Z' }

  /** Letters and dashes, in words separated by single spaces. */
  predicate PlainWords(s: string) {
    forall i | 0 <= i < |s| :: IsLetter(s[i]) || s[i] == '-' || (s[i] == ' ' && 0 < i < |s| - 1 && s[i + 1] != ' ')
  }

  lemma PlainIsClean(s: string)
    requires PlainWords(s)
    ensures SingleSpaced(s) && Free(s, '.') && Free(s, ';')
  {
  }

  lemma OpeningFacts(t: Template)
    ensures SingleSpaced(Opening(t)) && Free(Opening(t), '.') && Free(Opening(t), ';')
    ensures 8 <= |Opening(t)| <= 15 && (Opening(t)[0] == 'P' || Opening(t)[0] == 'R' || Opening(t)[0] == 'C')
  {
    OpeningIsPlain(t);
    PlainIsClean(Opening(t));
    OpeningStart(t);
  }

  lemma OpeningIsPlain(t: Template)
    ensures PlainWords(Opening(t))
  {
    match t {
      case PUBLISH_UPDATES => OneWordOpening(t);
      case PROCESS_INPUTS => OneWordOpening(t);
      case RUN_WORKFLOW => TwoWordOpening("Runs");
      case COORDINATE_ENTRYPOINT => TwoWordOpening("Coordinates");
    }
  }

  lemma OneWordOpening(t: Template)
    requires t == PUBLISH_UPDATES || t == PROCESS_INPUTS
    ensures PlainWords(Opening(t))
  {
  }

  lemma TwoWordOpening(word: string)
    requires word == "Runs" || word == "Coordinates"
    ensures PlainWords(word + " the")
  {
  }

  lemma OpeningStart(t: Template)
    ensures 8 <= |Opening(t)| <= 15 && (Opening(t)[0] == 'P' || Opening(t)[0] == 'R' || Opening(t)[0] == 'C')
  {
  }

  lemma MiddleFacts(t: Template)
    ensures SingleSpaced(Middle(t)) && Free(Middle(t), '.') && Free(Middle(t), ';')
    ensures 17 <= |Middle(t)| <= 35
  {
    MiddleIsPlain(t);
    PlainIsClean(Middle(t));
    MiddleLength(t);
  }

  lemma MiddleIsPlain(t: Template)
    ensures PlainWords(Middle(t))
  {
    match t {
      case PUBLISH_UPDATES => PublishMiddle();
      case PROCESS_INPUTS => ProcessMiddle();
      case RUN_WORKFLOW => RunMiddle();
      case COORDINATE_ENTRYPOINT => CoordinateMiddle();
    }
  }

  lemma MiddleLength(t: Template)
    ensures 17 <= |Middle(t)| <= 35
  {
  }

  lemma RunMiddle()
    ensures PlainWords(Middle(RUN_WORKFLOW))
  {
  }

  lemma CoordinateMiddle()
    ensures PlainWords(Middle(COORDINATE_ENTRYPOINT))
  {
  }

  lemma PublishMiddle()
    ensures PlainWords(Middle(PUBLISH_UPDATES))
  {
    PublishMiddleEnd();
    PublishMiddleStart();
    PlainJoin("updates for the", "surrounding runtime");
  }

  lemma PublishMiddleStart()
    ensures PlainWords("updates for the")
  {
  }

  lemma PublishMiddleEnd()
    ensures PlainWords("surrounding runtime")
  {
  }

  lemma ProcessMiddle()
    ensures PlainWords(Middle(PROCESS_INPUTS))
  {
    ProcessMiddleStart();
    ProcessMiddleEnd();
    PlainJoin("inputs into", "module-specific");
  }

  lemma ProcessMiddleStart()
    ensures PlainWords("inputs into")
  {
  }

  lemma ProcessMiddleEnd()
    ensures PlainWords("module-specific")
  {
  }

  lemma PlainJoin(a: string, b: string)
    requires PlainWords(a) && PlainWords(b) && a != "" && b != ""
    ensures PlainWords(a + " " + b)
  {
  }

  lemma ClosingFacts(t: Template)
    ensures 4 <= |Closing(t)| <= 7 && forall i | 0 <= i < |Closing(t)| :: 'a' <= Closing(t)[i] <= 'z'
  {
  }

  lemma ClosingNotDangling(t: Template)
    ensures Closing(t) !in DANGLING_TAILS
  {
    var c := Closing(t);
    forall i | 0 <= i < |DANGLING_TAILS| ensures DANGLING_TAILS[i] != c {
      var d := DANGLING_TAILS[i];
      assert |d| < 4 || d[0] != c[0] || d[1] != c[1];
    }
  }

  lemma CodeHeadFacts(t: Template)
    ensures 28 <= |CodeHead(t)| && Free(CodeHead(t), ':')
    ensures CodeHead(t)[18] ==
            match t case PUBLISH_UPDATES => 'b' case PROCESS_INPUTS => 'o' case RUN_WORKFLOW => 'n' case COORDINATE_ENTRYPOINT => 'o'
    ensures CodeHead(t)[16] ==
            match t case PUBLISH_UPDATES => 'p' case PROCESS_INPUTS => 'p' case RUN_WORKFLOW => 'r' case COORDINATE_ENTRYPOINT => 'c'
  {
  }

  // ---------------------------------------------------------------- the sentence as one string

  lemma SingleSpacedJoin(a: string, b: string)
    requires SingleSpaced(a) && SingleSpaced(b) && a != "" && b != ""
    ensures SingleSpaced(a + " " + b)
  {
    var s := a + " " + b;
    forall i | 0 <= i < |s| && IsSpace(s[i]) ensures s[i] == ' ' && 0 < i < |s| - 1 && !IsSpace(s[i + 1]) {
      if i < |a| {
        assert s[i] == a[i];
      } else if i == |a| {
        assert s[i + 1] == b[0];
      } else {
        assert s[i] == b[i - |a| - 1];
      }
    }
  }

  lemma LettersSingleSpaced(w: string)
    requires forall i | 0 <= i < |w| :: 'a' <= w[i] <= 'z'
    ensures SingleSpaced(w) && NoSpace(w) && Free(w, '.') && Free(w, ';')
  {
  }

  /** What follows the topic. */
  function Tail(t: Template): string { Middle(t) + " " + Closing(t) }

  lemma TailFacts(t: Template)
    ensures SingleSpaced(Tail(t)) && Free(Tail(t), '.') && Free(Tail(t), ';')
    ensures 22 <= |Tail(t)| <= 43 && 'a' <= Tail(t)[|Tail(t)| - 1] <= 'z'
    ensures Suffix(t) == " " + Tail(t)
  {
    MiddleFacts(t);
    ClosingFacts(t);
    LettersSingleSpaced(Closing(t));
    SingleSpacedJoin(Middle(t), Closing(t));
  }

  /** Twice the tail and the opening still fit. */
  lemma TailsAreShort(t: Template)
    ensures |Prefix(t)| + 2 * |Suffix(t)| <= MAX_PURPOSE_LENGTH
  {
  }

  lemma PhraseRegrouped(t: Template, topic: string)
    ensures Phrase(t, topic) == Opening(t) + " " + (topic + " " + Tail(t))
  {
    var o, m := Opening(t), Tail(t);
    assert (o + " ") + topic + (" " + m) == o + " " + (topic + " " + m);
  }

  ghost predicate Topic(topic: string) { topic != "" && SingleSpaced(topic) }

  lemma PhraseFacts(t: Template, topic: string)
    requires Topic(topic)
    ensures var s := Phrase(t, topic);
            && SingleSpaced(s) && SingleSpaced(s + ".") && |s| == |Prefix(t)| + |topic| + |Suffix(t)|
            && s[0] == Opening(t)[0] && s[1] == Opening(t)[1] && (s[0] == 'P' || s[0] == 'R' || s[0] == 'C')
            && 'a' <= s[|s| - 1] <= 'z'
  {
    hide Opening, Tail, Middle, Closing;
    var s := Phrase(t, topic);
    OpeningFacts(t);
    TailFacts(t);
    SingleSpacedJoin(topic, Tail(t));
    SingleSpacedJoin(Opening(t), topic + " " + Tail(t));
    PhraseRegrouped(t, topic);
    assert s[|s| - 1] == Tail(t)[|Tail(t)| - 1];
    assert (s + ".")[|s|] == '.' && forall i | 0 <= i < |s| :: (s + ".")[i] == s[i];
  }

  ghost predicate NoPair(s: string, a: char, b: char) {
    forall j | 0 <= j < |s| - 1 :: !(s[j] == a && s[j + 1] == b)
  }

  /** Where the topic sits in the sentence, and what the rest is free of. */
  lemma SentenceLayout(t: Template, topic: string, a: char)
    requires a == '.' || a == ';'
    ensures var s, k := Sentence(t, topic), |Prefix(t)|;
            && |s| == k + |topic| + |Suffix(t)| + 1
            && (forall i | 0 <= i < |topic| :: s[k + i] == topic[i])
            && s[k + |topic|] == ' '
            && (forall j | 0 <= j < k || k + |topic| <= j < |s| - 1 :: s[j] != a)
  {
    hide Opening, Tail, Middle, Closing;
    OpeningFacts(t);
    TailFacts(t);
    hide Suffix;
    FrameLayout(Opening(t), topic, Tail(t), a);
  }

  lemma FrameLayout(opening: string, topic: string, tail: string, a: char)
    requires Free(opening, a) && Free(tail, a) && a != ' '
    ensures var s, k := (opening + " ") + topic + (" " + tail) + ".", |opening| + 1;
            && |s| == k + |topic| + 1 + |tail| + 1
            && (forall i | 0 <= i < |topic| :: s[k + i] == topic[i])
            && s[k + |topic|] == ' '
            && (forall j | 0 <= j < k || k + |topic| <= j < |s| - 1 :: s[j] != a)
  {
    var s, k := (opening + " ") + topic + (" " + tail) + ".", |opening| + 1;
    forall j | 0 <= j < k || k + |topic| <= j < |s| - 1 ensures s[j] != a {
      if j < |opening| {
        assert s[j] == opening[j];
      } else if j > k + |topic| {
        assert s[j] == tail[j - k - |topic| - 1];
      }
    }
  }

  /** A separator in the sentence is a separator in the topic, or at its end. */
  lemma SeparatorsAreInTopic(t: Template, topic: string, a: char)
    requires a == '.' || a == ';'
    ensures NoPair(Sentence(t, topic), a, ' ') <==> NoPair(topic + " ", a, ' ')
  {
    hide Sentence, Prefix, Suffix;
    SentenceLayout(t, topic, a);
    PairsAreInside(Sentence(t, topic), |Prefix(t)|, topic + " ", a);
  }

  lemma PairsAreInside(s: string, k: nat, q: string, a: char)
    requires q != "" && k + |q| <= |s| && (forall i | 0 <= i < |q| :: s[k + i] == q[i]) && q[|q| - 1] == ' ' && a != ' '
    requires forall j | 0 <= j < k || k + |q| - 1 <= j < |s| - 1 :: s[j] != a
    ensures NoPair(s, a, ' ') <==> NoPair(q, a, ' ')
  {
    if NoPair(s, a, ' ') {
      forall j | 0 <= j < |q| - 1 ensures !(q[j] == a && q[j + 1] == ' ') { assert s[k + j] == q[j] && s[k + j + 1] == q[j + 1]; }
    }
    if NoPair(q, a, ' ') {
      forall j | 0 <= j < |s| - 1 ensures !(s[j] == a && s[j + 1] == ' ') {
        if k <= j < k + |q| - 1 { assert q[j - k] == s[j] && q[j - k + 1] == s[j + 1]; }
      }
    }
  }

  // ---------------------------------------------------------------- normalizing a sentence

  lemma SentenceHasNoLineBreak(s: string)
    requires SingleSpaced(s)
    ensures OneLine(s)
  {
  }

  /** A clean sentence without separators, short enough, loses only its full stop. */
  lemma FirstSentenceOf(p: string)
    requires SingleSpaced(p + ".") && NoPair(p + ".", '.', ' ') && NoPair(p + ".", ';', ' ') && |p| < 160
    requires p != "" && p[|p| - 1] != '.'
    ensures FirstSentence(p + ".") == p
  {
    var s := p + ".";
    CollapseKeeps(s);
    SentenceHasNoLineBreak(s);
    assert CutSentence(s) == s;
    assert s[..|s| - 1] == p;
    assert RStripBy(IsDot, s) == RStripBy(IsDot, p) == p;
  }

  lemma TalkingPrefixesStartWithT()
    ensures forall i | 0 <= i < |TALKING_PREFIXES| :: TALKING_PREFIXES[i] != "" && TALKING_PREFIXES[i][0] == 't'
  {
  }

  lemma StripByKeeps(drop: char -> bool, s: string)
    requires s == "" || (!drop(s[0]) && !drop(s[|s| - 1]))
    ensures StripBy(drop, s) == s
  {
  }

  ghost predicate SmallLetters(w: string) { w != "" && forall i | 0 <= i < |w| :: 'a' <= w[i] <= 'z' }

  lemma SmallLettersKept(w: string)
    requires SmallLetters(w)
    ensures StripBy(IsPauseOrDash, Lower(w)) == w
  {
    assert Lower(w) == w;
    StripByKeeps(IsPauseOrDash, w);
  }

  lemma LastWordOfPhrase(a: string, w: string)
    requires SmallLetters(w)
    ensures LastWord(a + " " + w) == w
  {
    LettersSingleSpaced(w);
    WordsAcross(a, w);
    OneWord(w);
    LastOfWords(Words(a), w);
    SmallLettersKept(w);
  }

  lemma LastOfWords(words: seq<string>, w: string)
    ensures words + [w] != [] && (words + [w])[|words + [w]| - 1] == w
  {
  }

  lemma FinalizedKeeps(p: string, a: string, w: string)
    requires p == a + " " + w && SmallLetters(w) && w !in DANGLING_TAILS && !IsSpace(p[0])
    ensures Finalized(p) == Some(p)
  {
    assert p[|p| - 1] == w[|w| - 1];
    StripNoSpace(p);
    NoEllipsis(p);
    LastWordOfPhrase(a, w);
  }

  lemma EndsWithLast(s: string, suffix: string)
    requires suffix != ""
    ensures EndsWith(s, suffix) ==> s != "" && s[|s| - 1] == suffix[|suffix| - 1]
  {
  }

  lemma NoEllipsis(p: string)
    requires p != "" && p[|p| - 1] != '.'
    ensures !EndsWith(p, "...")
  {
    EndsWithLast(p, "...");
  }

  lemma CapitalizedKept(p: string)
    requires p != "" && UpperChar(p[0]) == p[0] && p[|p| - 1] != '.'
    ensures Capitalized(Some(p)) == p
  {
    assert [UpperChar(p[0])] + p[1..] == p;
  }

  lemma EdgesKept(p: string)
    requires SingleSpaced(p) && p != "" && (p[0] == 'P' || p[0] == 'R' || p[0] == 'C') && 'a' <= p[|p| - 1] <= 'z'
    ensures StripBy(IsEdge, Collapse(p)) == p
  {
    CollapseKeeps(p);
    StripByKeeps(IsEdge, p);
  }

  lemma NoTalkingPrefix(p: string)
    requires p != "" && (p[0] == 'P' || p[0] == 'R' || p[0] == 'C')
    ensures DropPrefix(p, TALKING_PREFIXES) == p
  {
    TalkingPrefixesStartWithT();
    var prefixes := TALKING_PREFIXES;
    assert DropPrefix(p, prefixes) == p;
  }

  /** A capitalized phrase that ends in a word which may stand there is its own normal form. */
  lemma NormalizeKeeps(text: string, p: string, a: string, w: string)
    requires SingleSpaced(p) && |p| <= MAX_PURPOSE_LENGTH && p == a + " " + w
    requires SmallLetters(w) && w !in DANGLING_TAILS
    requires p[0] == 'P' || p[0] == 'R' || p[0] == 'C'
    ensures FirstSentence(text) == p ==> NormalizePurpose(text) == p
  {
    hide FirstSentence, StripBy, Collapse, DropPrefix, Truncate, Finalized, Capitalized, IsSpace;
    assert p[|p| - 1] == w[|w| - 1];
    EdgesKept(p);
    NoTalkingPrefix(p);
    FinalizedKeeps(p, a, w);
    CapitalizedKept(p);
  }

  ghost predicate Fits(t: Template, topic: string) {
    && NoPair(topic + " ", '.', ' ') && NoPair(topic + " ", ';', ' ')
    && |Phrase(t, topic)| <= MAX_PURPOSE_LENGTH
  }

  lemma PhraseEnds(t: Template, topic: string)
    ensures Phrase(t, topic) == Prefix(t) + topic + (" " + Middle(t)) + " " + Closing(t)
  {
    var x, m, c := Prefix(t) + topic, Middle(t), Closing(t);
    assert Phrase(t, topic) == x + (" " + (m + " " + c));
    hide *;
    assert x + (" " + (m + " " + c)) == x + (" " + m) + " " + c;
  }

  lemma SentenceNormalizes(t: Template, topic: string)
    requires Topic(topic) && Fits(t, topic)
    ensures NormalizePurpose(Sentence(t, topic)) == Phrase(t, topic)
  {
    PhraseFacts(t, topic);
    SeparatorsAreInTopic(t, topic, '.');
    SeparatorsAreInTopic(t, topic, ';');
    PhraseEnds(t, topic);
    ClosingMayStand(t);
    NormalizeSentence(Phrase(t, topic), Prefix(t) + topic + (" " + Middle(t)), Closing(t));
  }

  lemma ClosingMayStand(t: Template)
    ensures SmallLetters(Closing(t)) && Closing(t) !in DANGLING_TAILS
  {
    ClosingFacts(t);
    ClosingNotDangling(t);
  }

  lemma NormalizeSentence(p: string, a: string, w: string)
    requires SingleSpaced(p) && SingleSpaced(p + ".") && NoPair(p + ".", '.', ' ') && NoPair(p + ".", ';', ' ')
    requires |p| <= MAX_PURPOSE_LENGTH && p == a + " " + w && (p[0] == 'P' || p[0] == 'R' || p[0] == 'C')
    requires SmallLetters(w) && w !in DANGLING_TAILS
    ensures NormalizePurpose(p + ".") == p
  {
    assert p[|p| - 1] == w[|w| - 1];
    FirstSentenceOf(p);
    NormalizeKeeps(p + ".", p, a, w);
  }

  // ---------------------------------------------------------------- shortening

  /** A sentence that is too long keeps a front of its first 93 characters: up to the last space among them, if
      there is one, and without pauses at the end. */
  lemma TruncatedExactly(s: string) returns (k: nat)
    requires |s| > MAX_PURPOSE_LENGTH
    ensures k <= 93 && (if k < 93 then s[k] == ' ' && ' ' !in s[k + 1..93] else ' ' !in s[..93])
    ensures var r := Truncate(s); 3 <= |r| <= k + 3 && r[|r| - 3..] == "..."
    ensures var kept := Truncate(s)[..|Truncate(s)| - 3];
            && kept <= s && All(IsPause, s[|kept|..k]) && (kept != "" ==> !IsPause(kept[|kept| - 1]))
  {
    var front := s[..93];
    k := |BeforeLastSpace(front)|;
    LastSpace(front);
    assert k < 93 ==> front[k] == s[k] && front[k + 1..] == s[k + 1..93];
    var kept := RStripBy(IsPause, front[..k]);
    RStripped(IsPause, front[..k]);
    assert front[..k][|kept|..] == s[|kept|..k];
    assert Truncate(s) == kept + "...";
    assert kept <= s;
  }

  lemma {:induction false} LastSpace(s: string)
    ensures var k := |BeforeLastSpace(s)|; if k < |s| then s[k] == ' ' && ' ' !in s[k + 1..] else ' ' !in s
    ensures BeforeLastSpace(s) == s[..|BeforeLastSpace(s)|]
  {
    var n := |s| - 1;
    if s != "" && s[n] != ' ' && ' ' in s {
      var front := s[..n];
      assert s == front + [s[n]] && ' ' in front;
      LastSpace(front);
      assert BeforeLastSpace(s) == BeforeLastSpace(front);
      hide BeforeLastSpace;
      var k := |BeforeLastSpace(front)|;
      assert s[k + 1..] == front[k + 1..] + [s[n]];
    }
  }

  lemma {:induction false} RStripped(drop: char -> bool, s: string)
    ensures All(drop, s[|RStripBy(drop, s)|..])
  {
    if s != "" && drop(s[|s| - 1]) {
      var n := |s| - 1;
      RStripped(drop, s[..n]);
      assert s[|RStripBy(drop, s)|..] == s[..n][|RStripBy(drop, s)|..] + [s[n]];
    }
  }

  /** The text up to a space, without pauses and dashes at its end; the whole text at its own end. */
  function FrontAt(s: string, k: nat): string
    requires k <= |s|
  {
    if k == |s| then s else RStripBy(IsPauseOrDash, s[..k])
  }

  /** Where a word of the text may end. */
  predicate WordEnd(s: string, k: nat) { k == |s| || (k < |s| && s[k] == ' ') }

  ghost predicate Dangles(s: string) { LastWord(s) in DANGLING_TAILS }

  /** What is kept is a front of the words whose last word may stand there, and the longest such front; nothing
      is kept if there is none. */
  lemma {:induction false} DropsDanglingExactly(s: string)
    ensures KeepsLongest(s, DropDangling(s))
    decreases |s|
  {
    if s == "" {
    } else if !Dangles(s) {
      assert WordEnd(s, |s|) && FrontAt(s, |s|) == s;
    } else if ' ' !in s {
    } else {
      var b := BeforeLastSpace(s);
      var t := RStripBy(IsPauseOrDash, b);
      DropsDanglingExactly(t);
      LastSpace(s);
      hide BeforeLastSpace, RStripBy, DropDangling, Dangles, IsPauseOrDash;
      FrontsOfBoth(s, b, t);
      FrontsAgree(s, t, DropDangling(t));
    }
  }

  /** What is kept of a text, in terms of its fronts. */
  ghost predicate KeepsLongest(s: string, kept: Option<string>) {
    match kept
    case None => forall k: nat | k <= |s| && WordEnd(s, k) :: FrontAt(s, k) == "" || Dangles(FrontAt(s, k))
    case Some(r) =>
      && r != "" && r <= s && !Dangles(r)
      && (exists k: nat :: k <= |s| && WordEnd(s, k) && FrontAt(s, k) == r)
      && forall k: nat | k <= |s| && WordEnd(s, k) :: |FrontAt(s, k)| <= |r| || Dangles(FrontAt(s, k))
  }

  /** Below the last word, the fronts of a text are those of what is left without it. */
  lemma FrontsOfBoth(s: string, b: string, t: string)
    requires b == BeforeLastSpace(s) && |b| < |s| && t == RStripBy(IsPauseOrDash, b)
    ensures t <= s && |t| < |s|
    ensures forall k: nat | k < |s| && WordEnd(s, k) :: FrontAt(s, k) == if k < |t| then FrontAt(t, k) else t
    ensures WordEnd(s, |b|) && FrontAt(s, |b|) == t
  {
    SpacesEnd(s);
    RStripped(IsPauseOrDash, b);
    hide BeforeLastSpace, RStripBy, IsPauseOrDash, FrontAt, All;
    forall k: nat | k < |s| && WordEnd(s, k) ensures FrontAt(s, k) == if k < |t| then FrontAt(t, k) else t { OneFront(s, b, t, k); }
    OneFront(s, b, t, |b|);
  }

  lemma SpacesEnd(s: string)
    ensures var b := BeforeLastSpace(s); forall k | |b| < k < |s| :: s[k] != ' '
    ensures var b := BeforeLastSpace(s); |b| < |s| ==> s[|b|] == ' '
  {
    LastSpace(s);
    var b := BeforeLastSpace(s);
    assert forall k | |b| < k < |s| :: s[k] == s[|b| + 1..][k - |b| - 1];
  }

  lemma OneFront(s: string, b: string, t: string, k: nat)
    requires b <= s && |b| < |s| && t <= b && All(IsPauseOrDash, b[|t|..]) && (t != "" ==> !IsPauseOrDash(t[|t| - 1])) && k <= |b|
    ensures FrontAt(s, k) == if k < |t| then FrontAt(t, k) else t
  {
    if k < |t| { assert s[..k] == t[..k]; } else { StrippedFront(s, b, t, k); }
  }

  lemma StrippedFront(s: string, b: string, t: string, k: nat)
    requires b <= s && t <= b && All(IsPauseOrDash, b[|t|..]) && (t != "" ==> !IsPauseOrDash(t[|t| - 1]))
    requires |t| <= k <= |b|
    ensures RStripBy(IsPauseOrDash, s[..k]) == t
  {
    var f := s[..k];
    assert forall i | |t| <= i < k :: f[i] == b[|t|..][i - |t|];
    assert f[..|t|] == t;
    RStripOf(IsPauseOrDash, f, |t|);
  }

  lemma FrontsAgree(s: string, t: string, kept: Option<string>)
    requires s != "" && t <= s && |t| < |s| && Dangles(s) && KeepsLongest(t, kept)
    requires forall k: nat | k < |s| && WordEnd(s, k) :: FrontAt(s, k) == if k < |t| then FrontAt(t, k) else t
    requires exists k: nat :: k < |s| && WordEnd(s, k) && FrontAt(s, k) == t
    ensures KeepsLongest(s, kept)
  {
    hide Dangles;
    assert forall k: nat | k < |t| :: WordEnd(s, k) <==> WordEnd(t, k);
    assert FrontAt(s, |s|) == s && WordEnd(t, |t|) && FrontAt(t, |t|) == t;
  }

  /** Of a sentence that is too long a front is left, without dots for what is missing, without dangling words, and
      without pauses or dashes at its end. */
  lemma LongSentenceKeepsFront(s: string)
    requires |s| > MAX_PURPOSE_LENGTH && !IsSpace(s[0])
    ensures var kept, phrase := Truncate(s)[..|Truncate(s)| - 3], Finalized(Truncate(s));
            && kept <= s && KeepsLongest(kept, DropDangling(kept))
            && (phrase.None? <==> DropDangling(kept).None?)
            && (phrase.Some? ==>
                  && phrase.value <= DropDangling(kept).value && phrase.value <= s
                  && All(IsPauseOrDash, DropDangling(kept).value[|phrase.value|..])
                  && (phrase.value != "" ==> !IsPauseOrDash(phrase.value[|phrase.value| - 1])))
  {
    hide Truncate, IsSpace, DropDangling, IsPause, IsPauseOrDash, KeepsLongest, RStripBy, Finalized, All;
    var k := TruncatedExactly(s);
    var t := Truncate(s);
    var kept := t[..|t| - 3];
    assert t == kept + "...";
    DropsDanglingExactly(kept);
    if DropDangling(kept).Some? {
      KeptIsFront(kept, DropDangling(kept));
      RStripped(IsPauseOrDash, DropDangling(kept).value);
    }
    DotsOff(kept);
  }

  lemma KeptIsFront(s: string, kept: Option<string>)
    requires KeepsLongest(s, kept) && kept.Some?
    ensures kept.value <= s
  {
  }

  /** The dots of a shortened sentence are taken off again. */
  lemma DotsOff(kept: string)
    requires kept != "" ==> !IsSpace(kept[0]) && !IsPause(kept[|kept| - 1])
    ensures Finalized(kept + "...") ==
            match DropDangling(kept) case None => None case Some(r) => Some(RStripBy(IsPauseOrDash, r))
  {
    var t := kept + "...";
    hide DropDangling, RStripBy, StripBy;
    assert EndsWith(t, "...") && t[..|t| - 3] == kept;
    assert (kept != "" ==> t[0] == kept[0]) && t[|t| - 1] == '.';
    StripNoSpace(t);
    hide IsSpace;
    if kept != "" { RStripNone(IsPause, kept); } else { RStripEmpty(IsPause); }
  }

  lemma RStripEmpty(drop: char -> bool)
    ensures RStripBy(drop, "") == ""
  {
  }

  /** The words a phrase may not end in. */
  lemma DanglingWords(w: string)
    ensures w in DANGLING_TAILS <==>
            || w == "and" || w == "or" || w == "with" || w == "using" || w == "via" || w == "from" || w == "for" || w == "into"
            || w == "over" || w == "across" || w == "through" || w == "plus" || w == "around" || w == "structured"
  {
  }

  // ---------------------------------------------------------------- one talking prefix

  /** The four ways to talk about the module, in any letter case. */
  ghost predicate Talks(p: string) { Talking(Lower(p)) }

  ghost predicate Talking(l: string) { l == "this module " || l == "the module " || l == "this code " || l == "the code " }

  /** Folding maps the capital letters to the small ones and nothing else to anything else. */
  lemma LowerAlphabet(c: char)
    ensures Lower("ABCDEFGHIJKLMNOPQRSTUVWXYZ") == "abcdefghijklmnopqrstuvwxyz"
    ensures c !in "ABCDEFGHIJKLMNOPQRSTUVWXYZ" ==> LowerChar(c) == c
  {
    var capitals := "ABCDEFGHIJKLMNOPQRSTUVWXYZ";
    if 'A' <= c <= 'Z' { assert capitals[c as int - 65] == c; }
  }

  /** Capitalizing undoes that, and leaves everything that is not a small letter. */
  lemma UpperAlphabet(c: char)
    ensures 'A' <= c <= 'Z' ==> UpperChar(LowerChar(c)) == c
    ensures c !in "abcdefghijklmnopqrstuvwxyz" ==> UpperChar(c) == c
  {
    var small := "abcdefghijklmnopqrstuvwxyz";
    if 'a' <= c <= 'z' { assert small[c as int - 97] == c; }
  }

  lemma TalkingShape(p: string)
    requires Talks(p)
    ensures 9 <= |p| <= 12 && p[|p| - 1] == ' ' && SingleSpaced(p[..|p| - 1])
    ensures (forall i | 0 <= i < |p| - 1 :: p[i] == ' ' || IsLetter(p[i])) && IsLetter(p[0])
  {
    var l, q := Lower(p), p[..|p| - 1];
    SmallTalk(l);
    assert forall i | 0 <= i < |p| :: l[i] == LowerChar(p[i]);
    forall i | 0 <= i < |q| && IsSpace(q[i]) ensures q[i] == ' ' && 0 < i < |q| - 1 && !IsSpace(q[i + 1]) {
      assert l[i] == LowerChar(q[i]) && l[i + 1] == LowerChar(p[i + 1]);
    }
  }

  lemma SmallTalk(l: string)
    requires Talking(l)
    ensures 9 <= |l| <= 12 && l[|l| - 1] == ' ' && 'a' <= l[0] <= 'z' && 'a' <= l[|l| - 2] <= 'z'
    ensures forall i | 0 <= i < |l| - 1 :: 'a' <= l[i] <= 'z' || (l[i] == ' ' && 0 < i < |l| - 2 && 'a' <= l[i + 1] <= 'z')
  {
  }

  lemma LowerFront(p: string, s: string)
    ensures Lower(p + s) == Lower(p) + Lower(s)
  {
  }

  /** What tells four prefixes apart. */
  ghost predicate FourApart(prefixes: seq<string>) {
    && |prefixes| == 4
    && forall i | 0 <= i < 4 ::
         && 9 <= |prefixes[i]| && Talking(prefixes[i])
         && prefixes[i][2] == (if i % 2 == 0 then 'i' else 'e')
         && prefixes[i][if i % 2 == 0 then 5 else 4] == (if i < 2 then 'm' else 'c')
  }

  lemma TalkingPrefixesApart()
    ensures FourApart(TALKING_PREFIXES)
    ensures TALKING_PREFIXES[0] == "this module " && TALKING_PREFIXES[1] == "the module "
    ensures TALKING_PREFIXES[2] == "this code " && TALKING_PREFIXES[3] == "the code "
  {
  }

  /** Whichever of the four it is, it is dropped, and nothing else is. */
  lemma DropsOnePrefix(p: string, s: string)
    requires Talks(p)
    ensures DropPrefix(p + s, TALKING_PREFIXES) == Strip(s)
  {
    var l := Lower(p);
    LowerFront(p, s);
    assert (p + s)[|p|..] == s && l <= Lower(p + s);
    TalkingPrefixesApart();
    var i: nat := if l == "this module " then 0 else if l == "the module " then 1 else if l == "this code " then 2 else 3;
    assert l == TALKING_PREFIXES[i];
    hide TALKING_PREFIXES, Strip, Lower, FourApart, Talks;
    DropsTheOne(p + s, TALKING_PREFIXES, i);
  }

  lemma DropsTheOne(s: string, prefixes: seq<string>, i: nat)
    requires FourApart(prefixes) && i < 4 && prefixes[i] <= Lower(s)
    ensures DropPrefix(s, prefixes) == Strip(s[|prefixes[i]|..])
  {
    hide Talking, Strip, Lower;
    forall j: nat | j < i ensures !(prefixes[j] <= Lower(s)) {
      Apart(prefixes[j], prefixes[i], Lower(s), if prefixes[j][2] != prefixes[i][2] then 2 else if i % 2 == 0 then 5 else 4);
    }
    hide FourApart;
    FirstIsDropped(s, prefixes, i);
  }

  lemma Apart(a: string, b: string, s: string, k: nat)
    requires k < |a| && k < |b| && a[k] != b[k] && b <= s
    ensures !(a <= s)
  {
  }

  lemma {:induction false} FirstIsDropped(s: string, prefixes: seq<string>, i: nat)
    requires i < |prefixes| && prefixes[i] <= Lower(s) && forall j | 0 <= j < i :: !(prefixes[j] <= Lower(s))
    ensures DropPrefix(s, prefixes) == Strip(s[|prefixes[i]|..])
  {
    if i > 0 {
      assert !(prefixes[0] <= Lower(s));
      FirstIsDropped(s, prefixes[1..], i - 1);
    }
  }

  /** A sentence that starts with none of the four stays. */
  lemma NoPrefixStays(s: string)
    requires forall k | 0 <= k <= |s| :: !Talks(s[..k])
    ensures DropPrefix(s, TALKING_PREFIXES) == s
  {
    TalkingPrefixesApart();
    hide TALKING_PREFIXES;
    NoneOfFour(s, TALKING_PREFIXES);
  }

  lemma NoneOfFour(s: string, prefixes: seq<string>)
    requires FourApart(prefixes) && forall k | 0 <= k <= |s| :: !Talks(s[..k])
    ensures DropPrefix(s, prefixes) == s
  {
    hide Talking, Lower;
    forall i | 0 <= i < 4 ensures !(prefixes[i] <= Lower(s)) {
      if prefixes[i] <= Lower(s) { FrontTalks(s, prefixes[i]); }
    }
    NoneDropped(s, prefixes);
  }

  lemma FrontTalks(s: string, prefix: string)
    requires Talking(prefix) && prefix <= Lower(s)
    ensures |prefix| <= |s| && Talks(s[..|prefix|])
  {
    assert Lower(s[..|prefix|]) == prefix;
  }

  lemma {:induction false} NoneDropped(s: string, prefixes: seq<string>)
    requires forall i | 0 <= i < |prefixes| :: !(prefixes[i] <= Lower(s))
    ensures DropPrefix(s, prefixes) == s
  {
    if prefixes != [] {
      assert !(prefixes[0] <= Lower(s));
      NoneDropped(s, prefixes[1..]);
    }
  }

  /** Words joined by single spaces. */
  lemma {:induction false} JoinedIsSingleSpaced(words: seq<string>)
    requires forall i | 0 <= i < |words| :: words[i] != "" && NoSpace(words[i])
    ensures SingleSpaced(Join(" ", words)) && (words != [] ==> Join(" ", words) != "")
  {
    if words == [] {
    } else if |words| == 1 {
      assert SingleSpaced(words[0]);
    } else {
      JoinedIsSingleSpaced(words[1..]);
      assert SingleSpaced(words[0]);
      SingleSpacedJoin(words[0], Join(" ", words[1..]));
    }
  }

  lemma CollapseIsSingleSpaced(s: string)
    ensures SingleSpaced(Collapse(s)) && (Words(s) != [] <==> Collapse(s) != "")
  {
    JoinedIsSingleSpaced(Words(s));
  }

  lemma CollapseAfter(q: string, text: string)
    requires SingleSpaced(q) && q != "" && Collapse(text) != ""
    ensures Collapse(q + " " + text) == q + " " + Collapse(text)
  {
    hide Words, Join;
    CollapseKeeps(q);
    CollapseIsSingleSpaced(q);
    CollapseIsSingleSpaced(text);
    WordsAcross(q, text);
    JoinConcat(" ", Words(q), Words(text));
  }

  lemma CollapseHead(s: string)
    requires s != "" && !IsSpace(s[0])
    ensures Collapse(s) != "" && Collapse(s)[0] == s[0]
  {
    WordsUnfold(s);
    var w, more := FirstWord(s), Words(s[|FirstWord(s)|..]);
    hide Words;
    if more != [] { JoinUnfold(w, more); }
  }

  /** Text without separators in front does not disturb the cut. */
  lemma FindAfter(p: string, c: string, a: char)
    requires p != "" && p[|p| - 1] == ' ' && Free(p, a) && a != ' '
    ensures FindPair(p + c, a, ' ') == if FindPair(c, a, ' ') < 0 then -1 else |p| + FindPair(c, a, ' ')
  {
    var s, i, j := p + c, FindPair(p + c, a, ' '), FindPair(c, a, ' ');
    hide FindPair;
    assert forall k | 0 <= k < |p| :: s[k] != a;
    assert forall k | 0 <= k < |c| :: s[|p| + k] == c[k];
    if j >= 0 { assert s[|p| + j] == a && s[|p| + j + 1] == ' '; }
    if i >= 0 { assert c[i - |p|] == a && c[i - |p| + 1] == ' '; }
  }

  predicate OneLine(s: string) { FindChar(s, '\n') < 0 }

  /** Where a text without line breaks is cut. */
  function Stop(s: string): int { if FindPair(s, '.', ' ') >= 0 then FindPair(s, '.', ' ') else FindPair(s, ';', ' ') }

  lemma CutUnfold(s: string)
    requires OneLine(s)
    ensures Stop(s) <= |s| && CutSentence(s) == if Stop(s) >= 0 then Strip(s[..Stop(s)]) else s
  {
  }

  lemma StopAfter(p: string, c: string)
    requires p != "" && p[|p| - 1] == ' ' && Free(p, '.') && Free(p, ';') && c != "" && c[0] != '.' && c[0] != ';'
    ensures Stop(p + c) == (if Stop(c) >= 0 then |p| + Stop(c) else -1) && Stop(c) != 0
  {
    FindAfter(p, c, '.');
    FindAfter(p, c, ';');
  }

  lemma CutAfter(p: string, c: string)
    requires p != "" && !IsSpace(p[0]) && p[|p| - 1] == ' ' && Free(p, '.') && Free(p, ';')
    requires c != "" && !IsSpace(c[0]) && c[0] != '.' && c[0] != ';' && OneLine(c) && OneLine(p + c)
    ensures CutSentence(p + c) == p + CutSentence(c) && CutSentence(c) != "" && CutSentence(c)[0] == c[0]
  {
    hide CutSentence, OneLine, StripBy, IsSpace, Stop, Free;
    StopAfter(p, c);
    CutUnfold(c);
    CutUnfold(p + c);
    if Stop(c) >= 0 { StripFrontAfter(p, c, Stop(c)); }
  }

  lemma StripFrontAfter(p: string, c: string, stop: nat)
    requires p != "" && !IsSpace(p[0]) && 0 < stop <= |c| && !IsSpace(c[0])
    ensures Strip((p + c)[..|p| + stop]) == p + Strip(c[..stop]) && Strip(c[..stop]) != "" && Strip(c[..stop])[0] == c[0]
  {
    assert (p + c)[..|p| + stop] == p + c[..stop];
    StripAfter(IsSpace, p, c[..stop]);
  }

  lemma StrippedIsSingleSpaced(c: string)
    requires SingleSpaced(c)
    ensures SingleSpaced(StripBy(IsEdge, c))
  {
    var i, j := StripSlice(IsEdge, c);
    hide IsSpace, StripBy;
    if i < j {
      hide SingleSpaced;
      SliceIsSingleSpaced(c, i, j);
    }
  }

  lemma StripSlice(drop: char -> bool, s: string) returns (i: nat, j: nat)
    ensures i <= j <= |s| && StripBy(drop, s) == s[i..j] && (i < j ==> !drop(s[i]) && !drop(s[j - 1]))
  {
    var l := LStripBy(drop, s);
    i := |s| - |l|;
    j := i + |RStripBy(drop, l)|;
  }

  lemma SliceIsSingleSpaced(c: string, i: nat, j: nat)
    requires SingleSpaced(c) && i < j <= |c| && c[i] != ' ' && c[j - 1] != ' '
    ensures SingleSpaced(c[i..j]) && !IsSpace(c[i]) && !IsSpace(c[j - 1])
  {
    var y := c[i..j];
    hide IsSpace;
    forall k | 0 <= k < |y| && IsSpace(y[k]) ensures y[k] == ' ' && 0 < k < |y| - 1 && !IsSpace(y[k + 1]) {
      assert y[k] == c[i + k] && c[i + k] == ' ';
      assert k < |y| - 1;
      assert y[k + 1] == c[i + k + 1];
    }
  }

  /** The sentence in a text that talks about the module and then starts like a sentence. */
  lemma PrefixedSentence(p: string, text: string)
    requires Talks(p) && Collapse(text) != "" && !IsEdge(Collapse(text)[0]) && |p| + |Collapse(text)| <= 160
    ensures SentenceIn(p + text) == p + SentenceIn(text) && SentenceIn(text) != ""
  {
    hide Collapse, CutSentence, SingleSpaced, StripBy, RStripBy, Talks;
    TalkingShape(p);
    var q, c := p[..|p| - 1], Collapse(text);
    assert p == q + " " && p + text == q + " " + text && p + c == q + " " + c;
    CollapseAfter(q, text);
    CollapseIsSingleSpaced(text);
    CollapseIsSingleSpaced(p + text);
    SentenceHasNoLineBreak(c);
    SentenceHasNoLineBreak(p + c);
    SingleSpacedHead(c);
    CutAfter(p, c);
    PolishAfter(p, q, CutSentence(c));
  }

  lemma SingleSpacedHead(c: string)
    requires SingleSpaced(c) && c != ""
    ensures !IsSpace(c[0])
  {
  }

  lemma PolishAfter(p: string, q: string, s: string)
    requires p == q + " " && q != "" && SingleSpaced(q) && !IsEdge(q[0]) && s != "" && !IsSpace(s[0]) && !IsEdge(s[0])
    ensures RStripBy(IsDot, p + s) == p + RStripBy(IsDot, s)
    ensures StripBy(IsEdge, Collapse(RStripBy(IsDot, p + s))) == p + StripBy(IsEdge, Collapse(RStripBy(IsDot, s)))
    ensures StripBy(IsEdge, Collapse(RStripBy(IsDot, s))) != ""
  {
    RStripKeepsHead(IsDot, s);
    RStripAfter(IsDot, p, s);
    var x := RStripBy(IsDot, s);
    hide RStripBy, Collapse, StripBy, IsSpace;
    CollapseHead(x);
    CollapseAfter(q, x);
    assert p + x == q + " " + x && q + " " + Collapse(x) == p + Collapse(x);
    StripAfter(IsEdge, p, Collapse(x));
  }

  /** Of a text that talks about the module, exactly the first such words are dropped. */
  lemma OnePrefixDropped(p: string, text: string)
    requires Talks(p) && Collapse(text) != "" && !IsEdge(Collapse(text)[0]) && |p| + |Collapse(text)| <= 160
    ensures NormalizePurpose(p + text) == Polished(SentenceIn(text))
  {
    PrefixedSentence(p, text);
    var s := SentenceIn(text);
    DropsOnePrefix(p, s);
    CollapseIsSingleSpaced(FirstSentence(text));
    StrippedIsSingleSpaced(Collapse(FirstSentence(text)));
    StripNoSpace(s);
    hide SentenceIn, DropPrefix, Polished, Strip;
  }

  /** Such words in front leave the normal form as it is, if what follows does not start with them again. */
  lemma PrefixIgnored(p: string, text: string)
    requires Talks(p) && Collapse(text) != "" && !IsEdge(Collapse(text)[0]) && |p| + |Collapse(text)| <= 160
    requires forall k | 0 <= k <= |SentenceIn(text)| :: !Talks(SentenceIn(text)[..k])
    ensures NormalizePurpose(p + text) == NormalizePurpose(text)
  {
    PrefixedSentence(p, text);
    OnePrefixDropped(p, text);
    NoPrefixStays(SentenceIn(text));
  }

  lemma SentenceInIsClean(text: string)
    ensures SingleSpaced(SentenceIn(text)) && |SentenceIn(text)| <= |Collapse(text)|
    ensures SentenceIn(text) != "" ==> var s := SentenceIn(text); !IsEdge(s[|s| - 1])
  {
    hide SingleSpaced, CutSentence, Collapse, IsEdge, RStripBy, LStripBy;
    CollapseIsSingleSpaced(FirstSentence(text));
    StrippedIsSingleSpaced(Collapse(FirstSentence(text)));
  }

  /** The last word without the pauses and dashes around it, in small letters. */
  lemma LastWordIs(a: string, u: string, core: string, v: string)
    requires NoSpace(u + core + v) && All(IsPauseOrDash, u) && All(IsPauseOrDash, v)
    requires core != "" && !IsPauseOrDash(core[0]) && !IsPauseOrDash(core[|core| - 1])
    ensures LastWord(a + " " + (u + core + v)) == Lower(core) == LastWord(u + core + v)
  {
    var w := u + core + v;
    LowerCore(u, core, v);
    hide StripBy, Lower, IsPauseOrDash;
    WordsAcross(a, w);
    OneWord(w);
    LastOfWords(Words(a), w);
  }

  lemma LowerCore(u: string, core: string, v: string)
    requires All(IsPauseOrDash, u) && All(IsPauseOrDash, v)
    requires core != "" && !IsPauseOrDash(core[0]) && !IsPauseOrDash(core[|core| - 1])
    ensures StripBy(IsPauseOrDash, Lower(u + core + v)) == Lower(core)
  {
    PausesStay(u);
    PausesStay(v);
    LettersStay(core);
    LowerFront(u + core, v);
    LowerFront(u, core);
    var c := Lower(core);
    var l := u + c + v;
    hide Lower, IsPauseOrDash;
    assert l[..|u|] == u && l[|u| + |c|..] == v && l[|u|..|u| + |c|] == c && l[|u|] == c[0] && l[|u| + |c| - 1] == c[|c| - 1];
    StripByOf(IsPauseOrDash, l, |u|, |u| + |c|);
  }

  lemma PausesStay(u: string)
    requires All(IsPauseOrDash, u)
    ensures Lower(u) == u
  {
  }

  lemma LettersStay(core: string)
    requires core != "" && !IsPauseOrDash(core[0]) && !IsPauseOrDash(core[|core| - 1])
    ensures var c := Lower(core); |c| == |core| && !IsPauseOrDash(c[0]) && !IsPauseOrDash(c[|c| - 1])
  {
  }

  lemma {:induction false} VisibleEndHasWords(s: string)
    requires s != "" && !IsSpace(s[|s| - 1])
    ensures Words(s) != []
  {
    if IsSpace(s[0]) { VisibleEndHasWords(s[1..]); }
  }

  lemma {:induction false} BeforeLastSpaceAfter(q: string, z: string)
    ensures BeforeLastSpace(q + " " + z) == if ' ' in z then q + " " + BeforeLastSpace(z) else q
  {
    hide BeforeLastSpace;
    if z == "" {
      LastSpaceStep(q, ' ');
      assert q + " " + z == q + " ";
    } else {
      var front, c := z[..|z| - 1], z[|z| - 1];
      BeforeLastSpaceAfter(q, front);
      LastSpaceStep(q + " " + front, c);
      LastSpaceStep(front, c);
      assert z == front + [c] && q + " " + z == q + " " + front + [c];
      assert (q + " " + front)[|q|] == ' ';
    }
  }

  lemma LastSpaceStep(front: string, c: char)
    ensures BeforeLastSpace(front + [c]) ==
            if c == ' ' then front else if ' ' in front then BeforeLastSpace(front) else front + [c]
  {
    assert (front + [c])[..|front|] == front;
  }

  /** Dangling words are dropped behind a text that does not dangle as they are without it. */
  lemma {:induction false} DropDanglingAfter(q: string, z: string)
    requires q != "" && !Dangles(q) && !IsPauseOrDash(q[|q| - 1])
    requires z != "" && !IsSpace(z[|z| - 1]) && forall i | 0 <= i < |z| && IsSpace(z[i]) :: z[i] == ' '
    ensures DropDangling(q + " " + z) == match DropDangling(z) case None => Some(q) case Some(r) => Some(q + " " + r)
    decreases |z|
  {
    hide DANGLING_TAILS, LastWord, RStripBy, BeforeLastSpace, IsPauseOrDash, Words, IsSpace;
    SameLastWord(q, z);
    BeforeLastSpaceAfter(q, z);
    if Dangles(z) {
      RStripNone(IsPauseOrDash, q);
      if ' ' in z {
        var b := BeforeLastSpace(z);
        var t := RStripBy(IsPauseOrDash, b);
        SpaceIsDropped(q);
        RStripAfter(IsPauseOrDash, q + " ", b);
        if t != "" {
          PausesHoldSpaces(t, z);
          DropDanglingAfter(q, t);
        }
      }
    }
  }

  lemma SameLastWord(q: string, z: string)
    requires z != "" && !IsSpace(z[|z| - 1])
    ensures Dangles(q + " " + z) <==> Dangles(z)
  {
    hide Words, IsSpace, DANGLING_TAILS;
    WordsAcross(q, z);
    VisibleEndHasWords(z);
    assert (Words(q) + Words(z))[|Words(q) + Words(z)| - 1] == Words(z)[|Words(z)| - 1];
  }

  lemma RStripNone(drop: char -> bool, q: string)
    requires q != "" && !drop(q[|q| - 1])
    ensures RStripBy(drop, q) == q
  {
  }

  lemma SpaceIsDropped(q: string)
    requires q != "" && !IsPauseOrDash(q[|q| - 1])
    ensures RStripBy(IsPauseOrDash, q + " ") == q
  {
    assert (q + " ")[..|q|] == q;
  }

  lemma PausesHoldSpaces(t: string, z: string)
    requires t <= z && t != "" && !IsPauseOrDash(t[|t| - 1]) && forall i | 0 <= i < |z| && IsSpace(z[i]) :: z[i] == ' '
    ensures !IsSpace(t[|t| - 1]) && forall i | 0 <= i < |t| && IsSpace(t[i]) :: t[i] == ' '
  {
    assert forall i | 0 <= i < |t| :: t[i] == z[i];
  }

  /** What stands before a phrase makes it longer. */
  lemma LongerCapitalized(q: string, r: string)
    requires q != "" && q[0] != '.'
    ensures |Capitalized(Some(q))| > 0 && |Capitalized(Some(q + " " + r))| > |Capitalized(Some(r))|
  {
    var x := [UpperChar(q[0])] + q[1..];
    RStripKeepsHead(IsDot, x);
    var front := x + " ";
    assert [UpperChar((q + " " + r)[0])] + (q + " " + r)[1..] == front + r;
    RStripNone(IsDot, front);
    hide RStripBy, UpperChar;
    if r != "" {
      var d, c, rest := [r[0]], [UpperChar(r[0])], r[1..];
      assert front + r == front + d + rest;
      RStripAfter(IsDot, front + d, rest);
      RStripAfter(IsDot, front, d);
      RStripAfter(IsDot, c, rest);
    } else {
      assert front + r == front;
    }
  }

  lemma FrontDoesNotDangle(p: string)
    requires Talks(p)
    ensures var q := p[..|p| - 1]; q != "" && q[0] != '.' && !IsPauseOrDash(q[|q| - 1]) && !Dangles(q) && p == q + " "
  {
    hide SingleSpaced, IsSpace, IsPauseOrDash, Dangles, Lower;
    TalkingShape(p);
    LowerLength(p);
    var n := |p| - 1;
    var k := TalkingWord(Lower(p));
    LowerSlice(p, k, n);
    WordMayStand(p[..k], p[k + 1..n]);
    assert p == p[..n] + " " && p[..n][0] == p[0];
  }

  lemma WordMayStand(a: string, w: string)
    requires w != "" && NoSpace(w) && !IsPauseOrDash(w[0]) && !IsPauseOrDash(w[|w| - 1]) && Lower(w) !in DANGLING_TAILS
    ensures !Dangles(a + " " + w)
  {
    hide Lower, DANGLING_TAILS, IsPauseOrDash, NoSpace, LastWord;
    assert "" + w + "" == w;
    LastWordIs(a, "", w, "");
  }

  lemma LowerSlice(p: string, k: nat, n: nat)
    requires |Lower(p)| == |p| && k < n <= |p| && Lower(p)[k] == ' ' && SmallLetters(Lower(p)[k + 1..n])
    ensures p[..n] == p[..k] + " " + p[k + 1..n] && Lower(p[k + 1..n]) == Lower(p)[k + 1..n]
    ensures var w := p[k + 1..n]; w != "" && NoSpace(w) && !IsPauseOrDash(w[0]) && !IsPauseOrDash(w[|w| - 1]) && w[|w| - 1] == p[n - 1]
  {
    assert Lower(p)[k] == LowerChar(p[k]);
    LowerPart(p, k + 1, n);
    SmallLettersHere(p[k + 1..n]);
    hide SmallLetters, IsPauseOrDash, Lower, NoSpace;
    assert p[..n] == p[..k] + [p[k]] + p[k + 1..n];
  }

  lemma LowerPart(p: string, i: nat, j: nat)
    requires i <= j <= |p| && |Lower(p)| == |p|
    ensures Lower(p[i..j]) == Lower(p)[i..j]
  {
  }

  lemma SmallLettersHere(w: string)
    requires SmallLetters(Lower(w))
    ensures w != "" && NoSpace(w) && !IsPauseOrDash(w[0]) && !IsPauseOrDash(w[|w| - 1])
  {
    assert forall i | 0 <= i < |w| :: Lower(w)[i] == LowerChar(w[i]);
  }

  lemma LowerLength(p: string)
    ensures |Lower(p)| == |p|
  {
  }

  lemma TalkingWord(l: string) returns (k: nat)
    requires Talking(l)
    ensures k < |l| - 1 && l[k] == ' ' && SmallLetters(l[k + 1..|l| - 1]) && l[k + 1..|l| - 1] !in DANGLING_TAILS
  {
    k := if l == "this module " || l == "this code " then 4 else 3;
    ClosingNotDangling(RUN_WORKFLOW);
    CodeNotDangling();
    hide DANGLING_TAILS;
    assert l[k + 1..|l| - 1] == if l == "this module " || l == "the module " then "module" else "code";
  }

  lemma CodeNotDangling()
    ensures "code" !in DANGLING_TAILS
  {
    forall i | 0 <= i < |DANGLING_TAILS| ensures DANGLING_TAILS[i] != "code" {
      assert |DANGLING_TAILS[i]| != 4 || DANGLING_TAILS[i][0] != 'c';
    }
  }

  lemma PolishedShort(s: string)
    requires s != "" && SingleSpaced(s) && !IsEdge(s[|s| - 1]) && |s| <= MAX_PURPOSE_LENGTH
    ensures Polished(s) == Capitalized(DropDangling(s))
  {
    StripNoSpace(s);
    NoEllipsis(s);
    hide Capitalized, DropDangling;
  }

  lemma TalkMakesLonger(p: string, z: string)
    requires Talks(p) && z != "" && SingleSpaced(p + z) && !IsEdge(z[|z| - 1]) && z[|z| - 1] != ' ' && |p + z| <= MAX_PURPOSE_LENGTH
    ensures SingleSpaced(z) && |Polished(p + z)| > |Polished(z)|
  {
    FrontDoesNotDangle(p);
    var q, s := p[..|p| - 1], p + z;
    hide SingleSpaced, IsPauseOrDash, IsEdge, Talks, Dangles, Polished, Capitalized, DropDangling, IsSpace;
    assert s == q + " " + z && s[|s| - 1] == z[|z| - 1];
    AfterSpace(q, z);
    PolishedShort(s);
    PolishedShort(z);
    DropDanglingAfter(q, z);
    match DropDangling(z)
    case None => { NothingCapitalized(); LongerCapitalized(q, ""); }
    case Some(r) => { LongerCapitalized(q, r); }
  }

  lemma AfterSpace(q: string, z: string)
    requires SingleSpaced(q + " " + z) && z != "" && z[|z| - 1] != ' '
    ensures SingleSpaced(z) && !IsSpace(z[|z| - 1]) && forall i | 0 <= i < |z| && IsSpace(z[i]) :: z[i] == ' '
  {
    var s := q + " " + z;
    assert s[|q| + 1..] == z && s[|q|] == ' ' && s[|q| + 1] == z[0] && s[|s| - 1] == z[|z| - 1];
    SliceIsSingleSpaced(s, |q| + 1, |s|);
  }

  lemma NothingCapitalized()
    ensures Capitalized(None) == ""
  {
  }

  /** While nothing has to be cut, talking about the module in front changes nothing exactly when the sentence does
      not talk about the module already: one such prefix is dropped, not two. */
  lemma PrefixIgnoredExactly(p: string, text: string)
    requires Talks(p) && Collapse(text) != "" && !IsEdge(Collapse(text)[0]) && |p| + |Collapse(text)| <= MAX_PURPOSE_LENGTH
    ensures NormalizePurpose(p + text) == NormalizePurpose(text)
            <==> forall k | 0 <= k <= |SentenceIn(text)| :: !Talks(SentenceIn(text)[..k])
  {
    var s := SentenceIn(text);
    if forall k | 0 <= k <= |s| :: !Talks(s[..k]) {
      PrefixIgnored(p, text);
    } else {
      var k :| 0 <= k <= |s| && Talks(s[..k]);
      OnePrefixDropped(p, text);
      PrefixedSentence(p, text);
      SentenceInIsClean(text);
      SecondPrefix(s, k);
    }
  }

  lemma SecondPrefix(s: string, k: nat)
    requires k <= |s| <= MAX_PURPOSE_LENGTH && Talks(s[..k]) && SingleSpaced(s) && !IsEdge(s[|s| - 1])
    ensures |Polished(s)| > |Polished(DropPrefix(s, TALKING_PREFIXES))|
  {
    var p, z := s[..k], s[k..];
    assert s == p + z;
    TalkingShape(p);
    assert p[|p| - 1] == s[k - 1];
    TalkMakesLonger(p, z);
    DropsOnePrefix(p, z);
    StripNoSpace(z);
  }

  // ---------------------------------------------------------------- template sentences that talk about the module

  /** The sentence with a small first letter. */
  function Uncapitalized(s: string): string { if s == "" then "" else [LowerChar(s[0])] + s[1..] }

  lemma UncapitalizedFacts(p: string, a: string, w: string)
    requires p == a + " " + w && a != "" && w != "" && w[|w| - 1] != ' ' && 'A' <= p[0] <= 'Z' && SingleSpaced(p + ".")
    ensures var u := Uncapitalized(p);
            && u == Uncapitalized(a) + " " + w && Uncapitalized(p + ".") == u + "." && |u| == |p|
            && SingleSpaced(u) && SingleSpaced(u + ".") && [UpperChar(u[0])] + u[1..] == p
            && forall i | 0 < i < |u| :: u[i] == p[i]
  {
    var u := Uncapitalized(p);
    UncapitalizedParts(p, a, w);
    hide SingleSpaced, Uncapitalized;
    SameSpaces(p + ".", u + ".");
    DotOff(u);
  }

  lemma UncapitalizedParts(p: string, a: string, w: string)
    requires p == a + " " + w && a != "" && w != "" && 'A' <= p[0] <= 'Z'
    ensures var u := Uncapitalized(p);
            && u == Uncapitalized(a) + " " + w && Uncapitalized(p + ".") == u + "." && |u| == |p|
            && [UpperChar(u[0])] + u[1..] == p && p[|p| - 1] == w[|w| - 1] && |p| > 1 && !IsSpace((u + ".")[0])
            && (forall i | 0 < i < |u| :: u[i] == p[i]) && (forall i | 0 < i < |u + "."| :: (u + ".")[i] == (p + ".")[i])
  {
    UncapitalizedFront(a, " " + w);
    UncapitalizedFront(p, ".");
    Chain(a, " ", w);
    Chain(Uncapitalized(a), " ", w);
    UncapitalizedChars(p);
    hide Uncapitalized, LowerChar, UpperChar, IsSpace;
    assert p[|p| - 1] == w[|w| - 1];
  }

  lemma UncapitalizedChars(p: string)
    requires p != "" && 'A' <= p[0] <= 'Z'
    ensures var u := Uncapitalized(p);
            && |u| == |p| && [UpperChar(u[0])] + u[1..] == p && !IsSpace(u[0]) && forall i | 0 < i < |u| :: u[i] == p[i]
  {
  }

  lemma UncapitalizedFront(a: string, b: string)
    requires a != ""
    ensures Uncapitalized(a + b) == Uncapitalized(a) + b
  {
    assert (a + b)[0] == a[0] && (a + b)[1..] == a[1..] + b;
  }

  lemma SameSpaces(s: string, t: string)
    requires SingleSpaced(s) && |s| == |t| && s != "" && !IsSpace(t[0]) && forall i | 0 < i < |s| :: s[i] == t[i]
    ensures SingleSpaced(t)
  {
    hide IsSpace;
    assert s[1..] == t[1..];
  }

  lemma DotOff(u: string)
    requires SingleSpaced(u + ".") && u != "" && u[|u| - 1] != ' '
    ensures SingleSpaced(u)
  {
    var s := u + ".";
    assert s[0] == u[0] && s[|u| - 1] == u[|u| - 1] && s[0..|u|] == u;
    SliceIsSingleSpaced(s, 0, |u|);
  }

  /** Any of the four prefixes, in any letter case, and then a template sentence, with a capital letter or a small
      one: the normal form is the capitalized phrase. */
  lemma PrefixedSentenceNormalizes(p: string, t: Template, topic: string, s: string)
    requires Talks(p) && Topic(topic) && Fits(t, topic)
    requires s == Sentence(t, topic) || s == Uncapitalized(Sentence(t, topic))
    ensures NormalizePurpose(p + s) == Phrase(t, topic)
  {
    hide Fits, Topic, Talks;
    var n, a, w := Phrase(t, topic), Prefix(t) + topic + (" " + Middle(t)), Closing(t);
    FitsFacts(t, topic);
    ClosingMayStand(t);
    TemplateStart(t, topic);
    hide Phrase, Prefix, Middle, Closing;
    UncapitalizedFacts(n, a, w);
    if s == n + "." {
      PrefixedPhrase(p, n, n, a, w);
    } else {
      PrefixedPhrase(p, n, Uncapitalized(n), Uncapitalized(a), w);
    }
  }

  lemma FitsFacts(t: Template, topic: string)
    requires Topic(topic) && Fits(t, topic)
    ensures var n := Phrase(t, topic); SingleSpaced(n) && SingleSpaced(n + ".") && |n| <= MAX_PURPOSE_LENGTH
    ensures NoPair(Sentence(t, topic), '.', ' ') && NoPair(Sentence(t, topic), ';', ' ')
  {
    PhraseFacts(t, topic);
    SeparatorsAreInTopic(t, topic, '.');
    SeparatorsAreInTopic(t, topic, ';');
  }

  lemma TemplateStart(t: Template, topic: string)
    ensures var n, a := Phrase(t, topic), Prefix(t) + topic + (" " + Middle(t));
            n == a + " " + Closing(t) && a != "" && 'A' <= n[0] <= 'Z'
  {
    PhraseEnds(t, topic);
    OpeningFacts(t);
    assert (Opening(t) + " ")[0] == Opening(t)[0];
  }

  predicate IsDotOrSpace(c: char) { c == '.' || c == ' ' }

  /** The first sentence is a front of the text: up to its first separator, and within 160 characters, with nothing
      but full stops and spaces missing at its end. */
  lemma FirstSentenceIsFront(text: string)
    ensures var c, r := Collapse(text), FirstSentence(text);
            var end := if Stop(c) >= 0 then Stop(c) else |c|;
            var m := if end <= 160 then end else 160;
            && |r| <= m <= |c| && r == c[..|r|] && All(IsDotOrSpace, c[|r|..m])
            && (r != "" ==> r[|r| - 1] != '.')
  {
    var c := Collapse(text);
    var k := CutIsFront(text);
    var end := if Stop(c) >= 0 then Stop(c) else |c|;
    var m, n := if end <= 160 then end else 160, if k <= 160 then k else 160;
    SentenceUnfold(text);
    hide Collapse, CutSentence, FirstSentence, Stop, RStripBy;
    var y := CutSentence(c)[..n];
    assert y == c[..n];
    RStripped(IsDot, y);
    MissingDotsAndSpaces(c, |RStripBy(IsDot, y)|, n, m);
  }

  lemma SentenceUnfold(text: string)
    ensures var s := CutSentence(Collapse(text)); FirstSentence(text) == RStripBy(IsDot, s[..if |s| <= 160 then |s| else 160])
  {
    var s := CutSentence(Collapse(text));
    assert s[..|s|] == s;
  }

  lemma MissingDotsAndSpaces(c: string, r: nat, n: nat, m: nat)
    requires r <= n <= m <= |c| && All(IsDot, c[..n][r..]) && forall i | n <= i < m :: c[i] == ' '
    ensures All(IsDotOrSpace, c[r..m])
  {
    assert forall i | r <= i < n :: c[i] == c[..n][r..][i - r];
  }

  /** The cut text is a front, and only spaces are missing before the separator. */
  lemma CutIsFront(text: string) returns (k: nat)
    ensures var c := Collapse(text);
            var end := if Stop(c) >= 0 then Stop(c) else |c|;
            k <= end <= |c| && CutSentence(c) == c[..k] && forall i | k <= i < end :: c[i] == ' '
  {
    var c := Collapse(text);
    CollapseIsSingleSpaced(text);
    SentenceHasNoLineBreak(c);
    CutUnfold(c);
    hide CutSentence, Collapse, Stop, OneLine, StripBy;
    if Stop(c) < 0 { return |c|; }
    k := StrippedFrontEnd(c, Stop(c));
  }

  /** The branch for line breaks cannot be taken: collapsing has already removed them. */
  lemma LineBreaksAreGone(text: string)
    ensures '\n' !in Collapse(text)
  {
    CollapseIsSingleSpaced(text);
    SentenceHasNoLineBreak(Collapse(text));
  }

  /** A normal form starts with no small letter and ends in no full stop. */
  lemma NormalFormShape(text: string)
    ensures var r := NormalizePurpose(text); r != "" ==> !('a' <= r[0] <= 'z') && r[|r| - 1] != '.'
  {
    hide DropPrefix, Finalized, Truncate, SentenceIn;
  }

  /** The characters that are trimmed. */
  lemma TrimmedCharacters(c: char)
    ensures (IsEdge(c) <==> c in " -:;,.") && (IsPause(c) <==> c in " ,;:") && (IsPauseOrDash(c) <==> c in " ,;:-")
    ensures IsDot(c) <==> c in "."
  {
  }

  /** Where a front of a single-spaced text ends when it is stripped. */
  lemma StrippedFrontEnd(c: string, stop: nat) returns (k: nat)
    requires SingleSpaced(c) && stop <= |c|
    ensures k <= stop && Strip(c[..stop]) == c[..k] && forall i | k <= i < stop :: c[i] == ' '
  {
    VisibleHead(c, stop);
    hide IsSpace, SingleSpaced, RStripBy, LStripBy, All;
    var s := c[..stop];
    k := |RStripBy(IsSpace, s)|;
    RStripped(IsSpace, s);
    PlainTail(c, k, stop);
    assert c[..k] == s[..k];
  }

  lemma PlainTail(c: string, k: nat, stop: nat)
    requires SingleSpaced(c) && k <= stop <= |c| && All(IsSpace, c[..stop][k..])
    ensures forall i | k <= i < stop :: c[i] == ' '
  {
    hide IsSpace;
    forall i | k <= i < stop ensures c[i] == ' ' { assert c[i] == c[..stop][k..][i - k]; }
  }

  lemma VisibleHead(c: string, stop: nat)
    requires SingleSpaced(c) && stop <= |c|
    ensures LStripBy(IsSpace, c[..stop]) == c[..stop]
  {
    assert stop > 0 ==> c[..stop][0] == c[0];
  }

  /** The words of a phrase `n`, `u` being the phrase itself or with a small first letter. */
  lemma PrefixedPhrase(p: string, n: string, u: string, a: string, w: string)
    requires Talks(p) && u == a + " " + w && a != "" && SmallLetters(w) && w !in DANGLING_TAILS
    requires SingleSpaced(u) && SingleSpaced(u + ".") && |u| == |n| <= MAX_PURPOSE_LENGTH
    requires IsLetter(u[0]) && [UpperChar(u[0])] + u[1..] == n && forall i | 0 < i < |u| :: u[i] == n[i]
    requires NoPair(n + ".", '.', ' ') && NoPair(n + ".", ';', ' ')
    ensures NormalizePurpose(p + (u + ".")) == n
  {
    var l := w[|w| - 1];
    assert u[|u| - 1] == l && 'a' <= l <= 'z';
    SamePairs(n + ".", u + ".", '.');
    SamePairs(n + ".", u + ".", ';');
    PolishedPhrase(n, u, a, w);
    hide SingleSpaced, NoPair, UpperChar, SmallLetters;
    PhraseIsItsSentence(u);
    CollapseKeeps(u + ".");
    TalkingShape(p);
    hide IsLetter, IsEdge, Collapse, SentenceIn, Polished, Talks, NormalizePurpose;
    assert (u + ".")[0] == u[0];
    OnePrefixDropped(p, u + ".");
  }

  lemma SamePairs(s: string, t: string, a: char)
    requires NoPair(s, a, ' ') && |s| == |t| && s != "" && t[0] != a && forall i | 0 < i < |s| :: s[i] == t[i]
    ensures NoPair(t, a, ' ')
  {
  }

  lemma PhraseIsItsSentence(u: string)
    requires u != "" && SingleSpaced(u) && SingleSpaced(u + ".") && |u| <= MAX_PURPOSE_LENGTH
    requires NoPair(u + ".", '.', ' ') && NoPair(u + ".", ';', ' ') && IsLetter(u[0]) && IsLetter(u[|u| - 1])
    ensures SentenceIn(u + ".") == u && !IsEdge(u[0])
  {
    hide SingleSpaced, NoPair, StripBy, Collapse, FirstSentence;
    FirstSentenceOf(u);
    CollapseKeeps(u);
    StripByKeeps(IsEdge, u);
  }

  lemma PolishedPhrase(n: string, u: string, a: string, w: string)
    requires u == a + " " + w && a != "" && SmallLetters(w) && w !in DANGLING_TAILS && |u| <= MAX_PURPOSE_LENGTH
    requires IsLetter(u[0]) && [UpperChar(u[0])] + u[1..] == n
    ensures Polished(u) == n
  {
    assert u[|u| - 1] == w[|w| - 1] && n[|n| - 1] == u[|u| - 1];
    hide DropDangling, RStripBy, LastWord, SmallLetters, DANGLING_TAILS, Finalized;
    FinalizedKeeps(u, a, w);
    RStripNone(IsDot, n);
  }

  /** Talking about the module first does not change the code. */
  lemma PrefixedSentenceParses(p: string, t: Template, topic: string, s: string)
    requires Talks(p) && Topic(topic) && Fits(t, topic)
    requires s == Sentence(t, topic) || s == Uncapitalized(Sentence(t, topic))
    ensures PurposeCode(p + s) == Some(Code(t, topic))
  {
    hide NormalizePurpose, CodeOf, Code, Sentence, Phrase;
    PrefixedSentenceNormalizes(p, t, topic, s);
    SentenceNormalizes(t, topic);
    SentenceParses(t, topic);
  }

  // ---------------------------------------------------------------- parsing and printing

  lemma OpeningsDiffer(t: Template, t': Template)
    requires Opening(t)[0] == Opening(t')[0] && Opening(t)[1] == Opening(t')[1]
    ensures t == t'
  {
  }

  lemma OtherTemplateFails(t: Template, t': Template, n: string)
    requires |n| >= 2 && n[0] == Opening(t)[0] && n[1] == Opening(t)[1] && t != t'
    ensures TopicOf(t', n) == ""
  {
    if Prefix(t') <= n {
      assert Prefix(t')[0] == n[0] && Prefix(t')[1] == n[1];
      assert Prefix(t')[0] == Opening(t')[0] && Prefix(t')[1] == Opening(t')[1];
      OpeningsDiffer(t, t');
    }
  }

  lemma BetweenExact(prefix: string, suffix: string, topic: string)
    requires Strip(topic) == topic
    ensures Between(prefix, suffix, prefix + topic + suffix) == topic
  {
    FrameParts(prefix, suffix, topic);
    RemoveSuffixExact(topic, suffix);
  }

  lemma FrameParts(prefix: string, suffix: string, topic: string)
    ensures var n := prefix + topic + suffix; prefix <= n && EndsWith(n, suffix) && n[|prefix|..] == topic + suffix
  {
    var n := prefix + topic + suffix;
    assert n[|n| - |suffix|..] == suffix;
  }

  lemma RemoveSuffixExact(topic: string, suffix: string)
    ensures RemoveSuffix(topic + suffix, suffix) == topic
  {
    var s := topic + suffix;
    assert s[|s| - |suffix|..] == suffix && s[..|s| - |suffix|] == topic;
  }

  lemma OnlyCode(n: string, t: Template)
    requires TopicOf(t, n) != "" && forall t' | t' != t :: TopicOf(t', n) == ""
    ensures CodeOf(n) == Some(Code(t, TopicOf(t, n)))
  {
    hide Code, TopicOf;
  }

  lemma SomeTemplate(n: string) returns (t: Template)
    requires CodeOf(n).Some?
    ensures TopicOf(t, n) != "" && CodeOf(n) == Some(Code(t, TopicOf(t, n)))
  {
    if TopicOf(PUBLISH_UPDATES, n) != "" {
      t := PUBLISH_UPDATES;
    } else if TopicOf(PROCESS_INPUTS, n) != "" {
      t := PROCESS_INPUTS;
    } else if TopicOf(RUN_WORKFLOW, n) != "" {
      t := RUN_WORKFLOW;
    } else {
      t := COORDINATE_ENTRYPOINT;
    }
  }

  /** Text to code: the four templates never parse as each other. */
  lemma SentenceParses(t: Template, topic: string)
    requires Topic(topic) && Fits(t, topic)
    ensures PurposeCode(Sentence(t, topic)) == Some(Code(t, topic))
    ensures forall t' | t' != t :: TopicOf(t', Phrase(t, topic)) == ""
  {
    SentenceNormalizes(t, topic);
    PhraseFacts(t, topic);
    StripNoSpace(topic);
    BetweenExact(Prefix(t), Suffix(t), topic);
    forall t' | t' != t ensures TopicOf(t', Phrase(t, topic)) == "" { OtherTemplateFails(t, t', Phrase(t, topic)); }
    OnlyCode(Phrase(t, topic), t);
  }

  lemma {:induction false} AfterColonOf(head: string, topic: string)
    requires Free(head, ':')
    ensures AfterColon(head + ":" + topic) == topic
  {
    var code := head + ":" + topic;
    if head == "" {
      assert code[0] == ':' && code[1..] == topic;
    } else {
      assert code[0] == head[0] && code[1..] == head[1..] + ":" + topic;
      AfterColonOf(head[1..], topic);
    }
  }

  /** The four sentences and their codes. */
  lemma TemplateTexts(topic: string)
    ensures Sentence(PUBLISH_UPDATES, topic)
         == "Publishes " + topic + (" " + ("updates for the" + " " + "surrounding runtime" + " " + "flow")) + "."
    ensures Sentence(PROCESS_INPUTS, topic)
         == "Processes " + topic + (" " + ("inputs into" + " " + "module-specific" + " " + "results")) + "."
    ensures Sentence(RUN_WORKFLOW, topic) == "Runs the " + topic + (" " + ("workflow for this" + " " + "module")) + "."
    ensures Sentence(COORDINATE_ENTRYPOINT, topic)
         == "Coordinates the " + topic + (" " + ("entrypoint for this" + " " + "module")) + "."
    ensures Code(PUBLISH_UPDATES, topic) == "purpose.generic.publish_updates" + ":" + topic
    ensures Code(PROCESS_INPUTS, topic) == "purpose.generic.process_inputs" + ":" + topic
    ensures Code(RUN_WORKFLOW, topic) == "purpose.generic.run_workflow" + ":" + topic
    ensures Code(COORDINATE_ENTRYPOINT, topic) == "purpose.generic.coordinate_entrypoint" + ":" + topic
  {
    PrefixTexts();
    hide Prefix;
  }

  lemma PrefixTexts()
    ensures Prefix(PUBLISH_UPDATES) == "Publishes " && Prefix(PROCESS_INPUTS) == "Processes "
    ensures Prefix(RUN_WORKFLOW) == "Runs the " && Prefix(COORDINATE_ENTRYPOINT) == "Coordinates the "
  {
  }

  lemma HeadsDiffer(t: Template, t': Template, topic: string)
    requires CodeHead(t') + ":" <= Code(t, topic)
    ensures t == t'
  {
    CodeHeadFacts(t);
    CodeHeadFacts(t');
    var c := Code(t, topic);
    assert c[16] == CodeHead(t)[16] && c[16] == (CodeHead(t') + ":")[16] == CodeHead(t')[16];
    assert c[18] == CodeHead(t)[18] && c[18] == (CodeHead(t') + ":")[18] == CodeHead(t')[18];
  }

  /** Code to text, for every topic, colons included. */
  lemma CodePrints(t: Template, topic: string)
    ensures DynamicText(Code(t, topic)) == Some(Sentence(t, topic))
  {
    CodeHeadFacts(t);
    AfterColonOf(CodeHead(t), topic);
    assert CodeHead(t) + ":" <= Code(t, topic);
    forall t' | CodeHead(t') + ":" <= Code(t, topic) ensures t' == t { HeadsDiffer(t, t', topic); }
  }

  /** The sentence about the topic survives being parsed and printed. */
  ghost predicate RoundTrips(t: Template, topic: string) {
    var code := PurposeCode(Sentence(t, topic));
    code.Some? && DynamicText(code.value) == Some(Sentence(t, topic))
  }

  // ---------------------------------------------------------------- when it does not survive

  lemma SameFrame(prefix: string, suffix: string, x: string, y: string)
    requires prefix + x + suffix + "." == prefix + y + suffix + "."
    ensures x == y
  {
    var s := prefix + x + suffix + ".";
    assert x == s[|prefix|..|s| - |suffix| - 1];
    assert s == prefix + y + suffix + "." && y == s[|prefix|..|s| - |suffix| - 1];
  }

  lemma SentenceStart(t: Template, topic: string)
    ensures |Sentence(t, topic)| >= 2
    ensures Sentence(t, topic)[0] == Opening(t)[0] && Sentence(t, topic)[1] == Opening(t)[1]
  {
    OpeningFacts(t);
    PhraseRegrouped(t, topic);
  }

  lemma SentencesDiffer(t: Template, topic: string, t': Template, topic': string)
    requires Sentence(t, topic) == Sentence(t', topic')
    ensures t == t' && topic == topic'
  {
    SentenceStart(t, topic);
    SentenceStart(t', topic');
    OpeningsDiffer(t, t');
    SameFrame(Prefix(t), Suffix(t), topic, topic');
  }

  /** A separator or too many characters make the normal form shorter than the phrase. */
  lemma NormalFormTooShort(t: Template, topic: string)
    requires Topic(topic) && !Fits(t, topic)
    ensures |NormalizePurpose(Sentence(t, topic))| < |Phrase(t, topic)|
  {
    hide Phrase;
    var s := Sentence(t, topic);
    PhraseFacts(t, topic);
    SeparatorsAreInTopic(t, topic, '.');
    SeparatorsAreInTopic(t, topic, ';');
    SeparatedShrinks(Phrase(t, topic));
  }

  /** With a separator inside, or too long, a clean sentence is cut. */
  lemma SeparatedShrinks(p: string)
    requires SingleSpaced(p + ".")
    requires !NoPair(p + ".", '.', ' ') || !NoPair(p + ".", ';', ' ') || |p| > MAX_PURPOSE_LENGTH
    ensures |NormalizePurpose(p + ".")| < |p|
  {
    var s := p + ".";
    CollapseKeeps(s);
    SentenceHasNoLineBreak(s);
    CutUnfold(s);
    if !NoPair(s, '.', ' ') {
      var i := FindPair(s, '.', ' ');
      assert i >= 0 && s[|s| - 1] == '.';
    } else if !NoPair(s, ';', ' ') {
      var i := FindPair(s, ';', ' ');
      assert i >= 0 && s[|s| - 1] == '.';
    }
  }

  lemma StripIsInside(s: string, c: char)
    requires Free(s, c)
    ensures Free(Strip(s), c)
  {
    var l := LStripBy(IsSpace, s);
    var r := RStripBy(IsSpace, l);
    assert l == s[|s| - |l|..] && r == l[..|r|];
  }

  /** A parsed topic was all there between prefix and suffix, or it lies within the suffix. */
  lemma ParsedBetween(prefix: string, suffix: string, n: string)
    requires Between(prefix, suffix, n) != "" && Free(suffix, '.') && Free(suffix, ';')
    ensures var topic := Between(prefix, suffix, n);
            || |n| >= |prefix| + |topic| + |suffix|
            || (|topic| <= |suffix| && Free(topic, '.') && Free(topic, ';'))
  {
    assert prefix <= n && EndsWith(n, suffix);
    var rest := n[|prefix|..];
    ParsedRest(prefix, suffix, n, rest, Strip(RemoveSuffix(rest, suffix)));
  }

  lemma ParsedRest(prefix: string, suffix: string, n: string, rest: string, topic: string)
    requires prefix <= n && EndsWith(n, suffix) && rest == n[|prefix|..] && topic == Strip(RemoveSuffix(rest, suffix))
    requires Free(suffix, '.') && Free(suffix, ';')
    ensures |n| >= |prefix| + |topic| + |suffix| || (|topic| <= |suffix| && Free(topic, '.') && Free(topic, ';'))
  {
    hide RemoveSuffix, StripBy, EndsWith;
    if EndsWith(rest, suffix) {
      RemovedLength(rest, suffix);
    } else {
      RestWithinSuffix(prefix, suffix, n);
      RemoveNothing(rest, suffix);
      SuffixFree(rest, suffix, '.');
      SuffixFree(rest, suffix, ';');
      StripIsInside(rest, '.');
      StripIsInside(rest, ';');
    }
  }

  lemma SuffixFree(rest: string, suffix: string, c: char)
    requires |rest| <= |suffix| && rest == suffix[|suffix| - |rest|..] && Free(suffix, c)
    ensures Free(rest, c)
  {
  }

  lemma RemovedLength(s: string, suffix: string)
    requires EndsWith(s, suffix)
    ensures |Strip(RemoveSuffix(s, suffix))| + |suffix| <= |s|
  {
  }

  lemma RemoveNothing(s: string, suffix: string)
    requires !EndsWith(s, suffix)
    ensures Strip(RemoveSuffix(s, suffix)) == Strip(s) && |Strip(s)| <= |s|
  {
  }

  lemma LongRestEnds(prefix: string, suffix: string, n: string)
    requires prefix <= n && EndsWith(n, suffix)
    ensures |prefix| + |suffix| <= |n| ==> EndsWith(n[|prefix|..], suffix)
  {
    var rest := n[|prefix|..];
    assert |prefix| + |suffix| <= |n| ==> rest[|rest| - |suffix|..] == n[|n| - |suffix|..];
  }

  lemma RestWithinSuffix(prefix: string, suffix: string, n: string)
    requires prefix <= n && EndsWith(n, suffix) && !EndsWith(n[|prefix|..], suffix)
    ensures var rest := n[|prefix|..]; |rest| < |suffix| && rest == suffix[|suffix| - |rest|..]
  {
    LongRestEnds(prefix, suffix, n);
    var rest := n[|prefix|..];
    assert rest == n[|n| - |suffix|..][|suffix| - |rest|..];
  }

  lemma SuffixFacts(t: Template)
    ensures Free(Suffix(t), '.') && Free(Suffix(t), ';')
  {
    TailFacts(t);
    assert forall i | 0 < i < |Suffix(t)| :: Suffix(t)[i] == Tail(t)[i - 1];
  }

  /** If the phrase came through whole enough to give back its topic, it fitted. */
  lemma ReturnedTopicFits(t: Template, topic: string)
    requires Topic(topic) && TopicOf(t, NormalizePurpose(Sentence(t, topic))) == topic
    ensures Fits(t, topic)
  {
    var n := NormalizePurpose(Sentence(t, topic));
    SuffixFacts(t);
    ParsedBetween(Prefix(t), Suffix(t), n);
    PhraseFacts(t, topic);
    if |n| >= |Phrase(t, topic)| {
      if !Fits(t, topic) { NormalFormTooShort(t, topic); }
    } else {
      TailsAreShort(t);
      FreeMeansNoPair(topic);
    }
  }

  lemma FreeMeansNoPair(topic: string)
    requires Free(topic, '.') && Free(topic, ';')
    ensures NoPair(topic + " ", '.', ' ') && NoPair(topic + " ", ';', ' ')
  {
  }

  /** Exactly the topics that are free of sentence separators, also where they meet the template, and short enough
      survive the round trip from text to code to text. */
  lemma RoundTripExactly(t: Template, topic: string)
    requires Topic(topic)
    ensures RoundTrips(t, topic) <==> Fits(t, topic)
  {
    if Fits(t, topic) {
      SentenceParses(t, topic);
      CodePrints(t, topic);
    }
    if RoundTrips(t, topic) {
      var n := NormalizePurpose(Sentence(t, topic));
      var t' := SomeTemplate(n);
      CodePrints(t', TopicOf(t', n));
      SentencesDiffer(t, topic, t', TopicOf(t', n));
      ReturnedTopicFits(t, topic);
    }
  }
}
